/**
 * The scroll-driven frame player of src/components/HeroScrollFrames.tsx.
 *
 * The component's refs are the fields of class `Player`; each asynchronous
 * callback of the component (manifest fetch, image `onload`, the cooldown
 * timer, the animation-frame tick, the intersection observer) is an event
 * method that may be called in any order its precondition allows. Ghost
 * fields record what the browser holds on the component's behalf: the
 * image loads in flight and the log of every image request issued.
 */
module HeroScrollFrames {
  import opened Wrappers
  import opened ScrollProgress

  /** A frame image file name, as the manifest lists it. */
  datatype FrameName = FrameName(file: string)

  /** Half-width of the prefetch window around a missing frame (`windowSize`). */
  const WindowHalfWidth: int := 8

  /** Minimum milliseconds between two processed ticks. */
  const FrameIntervalMs: real := 16.0

  // ---------------------------------------------------------------------------
  // Prefetch window

  function WindowStart(center: int): (lo: int)
    ensures lo >= 0
  {
    if center - WindowHalfWidth < 0 then 0 else center - WindowHalfWidth
  }

  function WindowEnd(center: int, frames: nat): (hi: int)
    ensures hi <= frames - 1
  {
    if frames - 1 < center + WindowHalfWidth then frames - 1 else center + WindowHalfWidth
  }

  /** The names at indices `lo .. hi - 1` of `manifest` that are not cached, in index order. */
  function UncachedBetween(manifest: seq<FrameName>, lo: nat, hi: nat, cache: set<FrameName>): (r: seq<FrameName>)
    requires lo <= hi <= |manifest|
    ensures |r| <= hi - lo
    ensures forall i :: 0 <= i < |r| ==> r[i] !in cache
    decreases hi - lo
  {
    if hi == lo then []
    else
      UncachedBetween(manifest, lo, hi - 1, cache)
      + (if manifest[hi - 1] in cache then [] else [manifest[hi - 1]])
  }

  /** The loads that `preloadWindow(center)` issues, in issue order. */
  function WindowRequests(manifest: seq<FrameName>, center: int, cache: set<FrameName>): (r: seq<FrameName>)
    ensures |r| <= 2 * WindowHalfWidth + 1 && |r| <= |manifest|
    ensures forall i :: 0 <= i < |r| ==> r[i] !in cache
  {
    var lo, hi := WindowStart(center), WindowEnd(center, |manifest|);
    if lo <= hi then UncachedBetween(manifest, lo, hi + 1, cache) else []
  }

  lemma {:induction false} UncachedBetweenMembers(manifest: seq<FrameName>, lo: nat, hi: nat, cache: set<FrameName>, name: FrameName)
    requires lo <= hi <= |manifest|
    ensures name in UncachedBetween(manifest, lo, hi, cache)
            <==> name !in cache && exists i :: lo <= i < hi && manifest[i] == name
    decreases hi - lo
  {
    if hi > lo {
      UncachedBetweenMembers(manifest, lo, hi - 1, cache, name);
      if name !in cache && manifest[hi - 1] == name {
        assert name in UncachedBetween(manifest, lo, hi, cache);
      }
      if exists i :: lo <= i < hi && manifest[i] == name {
        var i :| lo <= i < hi && manifest[i] == name;
        if i < hi - 1 {
          assert exists j :: lo <= j < hi - 1 && manifest[j] == name;
        }
      }
    }
  }

  /** A window burst around `center` requests exactly the uncached names at
      indices `max(0, center - 8) .. min(N - 1, center + 8)`, and so never a
      cached one and never an index outside the manifest. */
  lemma WindowRequestsExact(manifest: seq<FrameName>, center: int, cache: set<FrameName>, name: FrameName)
    ensures name in WindowRequests(manifest, center, cache)
            <==> name !in cache
                 && exists i :: WindowStart(center) <= i <= WindowEnd(center, |manifest|)
                                && 0 <= i < |manifest| && manifest[i] == name
  {
    var lo, hi := WindowStart(center), WindowEnd(center, |manifest|);
    if lo <= hi {
      UncachedBetweenMembers(manifest, lo, hi + 1, cache, name);
    }
  }

  // ---------------------------------------------------------------------------
  // Warm-up sweep

  /** The queue once its cached head names have been shifted off. */
  function SkipCached(queue: seq<FrameName>, cache: set<FrameName>): (rest: seq<FrameName>)
    ensures |rest| <= |queue|
  {
    if queue != [] && queue[0] in cache then SkipCached(queue[1..], cache) else queue
  }

  /** What the sweep skips is a run of cached names at the head of the queue,
      and it stops at the first uncached name, or at the end. */
  lemma {:induction false} SkipCachedShape(queue: seq<FrameName>, cache: set<FrameName>)
    ensures var rest := SkipCached(queue, cache);
            && rest == queue[|queue| - |rest|..]
            && (forall i :: 0 <= i < |queue| - |rest| ==> queue[i] in cache)
            && (rest == [] || rest[0] !in cache)
  {
    if queue != [] && queue[0] in cache {
      SkipCachedShape(queue[1..], cache);
    }
  }

  /** One sweep step from queue `before` against `cache`: the cached head
      names are dropped, and the first uncached name, if any, is shifted off,
      becomes the sweep's outstanding load and is appended to the request log. */
  ghost predicate SweptFrom(before: seq<FrameName>, cache: set<FrameName>, log0: seq<FrameName>,
                            queue: seq<FrameName>, load: Option<FrameName>, log: seq<FrameName>)
  {
    var rest := SkipCached(before, cache);
    if rest == [] then queue == [] && load == None && log == log0
    else queue == rest[1..] && load == Some(rest[0]) && log == log0 + [rest[0]]
  }

  // ---------------------------------------------------------------------------
  // The player

  /** Whether the tick loop's effect schedules a tick. */
  predicate LoopGate(isMounted: bool, frames: seq<FrameName>, visible: bool): (run: bool)
    ensures run ==> visible && frames != []
    ensures !isMounted ==> !run
  {
    isMounted && frames != [] && visible
  }

  /** Both progress refs lie in [0, 1], and the smoothed one stays below 1. */
  ghost predicate ProgressInRange(target: real, current: real) {
    0.0 <= target <= 1.0 && 0.0 <= current < 1.0
  }

  /** The stored frame index is unset or a manifest index, and an image is
      rendered, showing a manifest frame, exactly when the manifest is non-empty. */
  ghost predicate DisplayConsistent(manifest: seq<FrameName>, frameIndex: int, src: Option<FrameName>) {
    && (frameIndex == -1 || 0 <= frameIndex < |manifest|)
    && (src.Some? <==> manifest != [])
    && (src.Some? ==> src.value in manifest)
  }

  /** The warm-up sweep walks the manifest in order: the queue is a suffix
      of the manifest, the sweep's outstanding load is the name just before
      it, and the sweep starts only once frame 0 is cached. */
  ghost predicate SweepConsistent(manifest: seq<FrameName>, queue: seq<FrameName>, cache: set<FrameName>,
                                  next: nat, load: Option<FrameName>, started: bool,
                                  firstLoadPending: bool, resolved: bool)
  {
    && next <= |manifest| && queue == manifest[next..]
    && (load.Some? ==> 1 <= next && load.value == manifest[next - 1])
    && (started ==> manifest != [] && manifest[0] in cache && !firstLoadPending)
    && (!started ==> queue == [] && load.None?)
    && (firstLoadPending ==> manifest != [])
    && (!resolved ==> manifest == [] && !firstLoadPending)
  }

  /** Before the manifest resolves nothing has been swept; once it resolves
      with `data`, the sweep has not started and the queue is empty, which
      is the manifest from index `|data|` on. */
  lemma SweepOnResolve(data: seq<FrameName>, queue: seq<FrameName>, cache: set<FrameName>,
                       next: nat, load: Option<FrameName>, started: bool, firstLoadPending: bool)
    requires SweepConsistent([], queue, cache, next, load, started, firstLoadPending, false)
    ensures SweepConsistent(data, queue, cache, |data|, load, started, data != [], true)
  {
  }

  /** Geometry of the scroll wrapper element, as `getBoundingClientRect` gives it. */
  datatype Rect = Rect(top: real, height: real)

  class Player {
    var mounted: bool
    var inView: bool
    var manifest: seq<FrameName>
    /** The keys of `preloadedImages`: names whose load has completed. */
    var cache: set<FrameName>
    /** `preloadingQueue`. */
    var queue: seq<FrameName>
    /** `isPreloadingWindow`. */
    var windowBusy: bool
    var lastUpdate: real
    var targetProgress: real
    var currentProgress: real
    var currentFrameIndex: int
    /** The frame named by the image element's `src`; None while no image is rendered. */
    var src: Option<FrameName>
    /** An animation-frame request for the tick is pending. */
    var loopScheduled: bool

    ghost var manifestResolved: bool
    /** The first frame's load, issued when the manifest arrives, has not completed. */
    ghost var firstLoadPending: bool
    /** The warm-up sweep has begun (frame 0 has loaded). */
    ghost var sweepStarted: bool
    /** The sweep's one outstanding load, if any. */
    ghost var sweepLoad: Option<FrameName>
    /** The queue is the manifest from this index on. */
    ghost var sweepNext: nat
    /** Loads issued by window bursts that have not completed. */
    ghost var windowLoads: seq<FrameName>
    /** Every image load issued, in order. */
    ghost var requests: seq<FrameName>

    ghost predicate Valid()
      reads this
    {
      && ProgressInRange(targetProgress, currentProgress)
      && DisplayConsistent(manifest, currentFrameIndex, src)
      && (loopScheduled ==> LoopGate(mounted, manifest, inView))
      && SweepConsistent(manifest, queue, cache, sweepNext, sweepLoad, sweepStarted,
                         firstLoadPending, manifestResolved)
    }

    /** The first render: nothing mounted, no manifest, progress 0, index -1. */
    constructor ()
      ensures Valid()
      ensures !mounted && !inView && manifest == [] && cache == {} && queue == []
      ensures !windowBusy && lastUpdate == 0.0 && targetProgress == 0.0 && currentProgress == 0.0
      ensures currentFrameIndex == -1 && src == None && !loopScheduled
      ensures requests == [] && windowLoads == [] && sweepLoad == None
      ensures !manifestResolved && !firstLoadPending && !sweepStarted
    {
      mounted, inView, manifest, cache, queue := false, false, [], {}, [];
      windowBusy, lastUpdate, targetProgress, currentProgress := false, 0.0, 0.0, 0.0;
      currentFrameIndex, src, loopScheduled := -1, None, false;
      manifestResolved, firstLoadPending, sweepStarted, sweepLoad, sweepNext := false, false, false, None, 0;
      windowLoads, requests := [], [];
    }

    /** The mount effect: the component is mounted and the manifest fetch
        starts; the tick effect re-runs because `mounted` changed. */
    method Mount()
      requires Valid() && !mounted
      modifies this`mounted, this`loopScheduled
      ensures Valid() && mounted
      ensures loopScheduled == LoopGate(true, manifest, inView)
    {
      mounted := true;
      loopScheduled := LoopGate(mounted, manifest, inView);
    }

    /** The manifest fetch resolves: the manifest is published, frame 0's
        load is issued when there is one, and the tick effect re-runs. The
        fetch is never cancelled, so this can also happen after unmounting:
        frame 0 is still loaded and the sweep still starts, but no tick is
        scheduled. */
    method ManifestLoaded(data: seq<FrameName>)
      requires Valid() && !manifestResolved
      modifies this`manifest, this`src, this`loopScheduled, this`manifestResolved,
               this`sweepNext, this`firstLoadPending, this`requests
      ensures Valid() && manifest == data
      ensures src == (if data == [] then None else Some(data[0]))
      ensures firstLoadPending == (data != [])
      ensures requests == old(requests) + (if data == [] then [] else [data[0]])
      ensures loopScheduled == LoopGate(mounted, data, inView)
    {
      var first := if data == [] then None else Some(data[0]);
      SweepOnResolve(data, queue, cache, sweepNext, sweepLoad, sweepStarted, firstLoadPending);
      manifest, src, loopScheduled := data, first, LoopGate(mounted, data, inView);
      manifestResolved, sweepNext, firstLoadPending := true, |data|, data != [];
      requests := requests + (if data == [] then [] else [data[0]]);
    }

    /** `processPreloadQueue`: shift off the cached head names, then shift
        the next name and issue its load; each step shortens the queue. */
    method ProcessPreloadQueue()
      requires Valid() && sweepStarted && sweepLoad.None?
      modifies this`queue, this`sweepLoad, this`sweepNext, this`requests
      ensures Valid()
      ensures SweptFrom(old(queue), cache, old(requests), queue, sweepLoad, requests)
      ensures old(queue) != [] ==> |queue| < |old(queue)|
    {
      var q, frames, loaded := queue, manifest, cache;
      ghost var next: nat := sweepNext;
      while q != [] && q[0] in loaded
        invariant next <= |frames| && q == frames[next..]
        invariant SkipCached(q, loaded) == SkipCached(queue, loaded)
        invariant |q| <= |queue|
        decreases |q|
      {
        q := q[1..];
        next := next + 1;
      }
      var load: Option<FrameName> := None;
      ghost var log := requests;
      if q != [] {
        load, log := Some(q[0]), log + [q[0]];
        q, next := q[1..], next + 1;
      }
      assert SweptFrom(queue, loaded, requests, q, load, log);
      queue, sweepLoad, sweepNext, requests := q, load, next, log;
    }

    /** `firstImg.onload`: frame 0 is cached, the queue becomes the rest of
        the manifest in order, and the sweep starts. */
    method FirstFrameLoaded()
      requires Valid() && firstLoadPending
      modifies this`cache, this`firstLoadPending, this`sweepStarted, this`queue,
               this`sweepNext, this`sweepLoad, this`requests
      ensures Valid() && sweepStarted && !firstLoadPending
      ensures cache == old(cache) + {manifest[0]}
      ensures SweptFrom(manifest[1..], cache, old(requests), queue, sweepLoad, requests)
    {
      cache := cache + {manifest[0]};
      firstLoadPending, sweepStarted := false, true;
      queue, sweepNext, sweepLoad := manifest[1..], 1, None;
      ProcessPreloadQueue();
    }

    /** `img.onload` of a sweep load: the name is cached and the sweep continues. */
    method SweepFrameLoaded(name: FrameName)
      requires Valid() && sweepLoad == Some(name)
      modifies this`cache, this`queue, this`sweepNext, this`sweepLoad, this`requests
      ensures Valid()
      ensures cache == old(cache) + {name}
      ensures SweptFrom(old(queue), cache, old(requests), queue, sweepLoad, requests)
    {
      cache := cache + {name};
      sweepLoad := None;
      ProcessPreloadQueue();
    }

    /** `img.onload` of the window-burst load of `name` at position `k` of
        the pending loads: the name is cached, nothing else happens. Loads
        complete in any order. */
    method WindowFrameLoaded(k: nat, name: FrameName)
      requires Valid() && k < |windowLoads| && windowLoads[k] == name
      modifies this`cache, this`windowLoads
      ensures Valid()
      ensures cache == old(cache) + {name}
      ensures windowLoads == old(windowLoads)[..k] + old(windowLoads)[k + 1..]
    {
      cache := cache + {name};
      windowLoads := windowLoads[..k] + windowLoads[k + 1..];
    }

    /** `preloadWindow(center)`: while a burst is cooling down nothing
        happens; otherwise the busy flag is set and every uncached name of
        the window is requested, even one whose load is still in flight. */
    method PreloadWindow(center: int) returns (issued: seq<FrameName>)
      requires Valid()
      modifies this`windowBusy, this`windowLoads, this`requests
      ensures Valid() && windowBusy
      ensures old(windowBusy) ==> issued == [] && unchanged(this)
      ensures !old(windowBusy) ==> && issued == WindowRequests(manifest, center, cache)
                                   && windowLoads == old(windowLoads) + issued
                                   && requests == old(requests) + issued
    {
      issued := [];
      if windowBusy {
        return;
      }
      var frames, loaded := manifest, cache;
      var lo, hi := WindowStart(center), WindowEnd(center, |frames|);
      if lo <= hi {
        var i := lo;
        while i <= hi
          invariant lo <= i <= hi + 1
          invariant issued == UncachedBetween(frames, lo, i, loaded)
        {
          if frames[i] !in loaded {
            issued := issued + [frames[i]];
          }
          i := i + 1;
        }
      }
      assert issued == WindowRequests(frames, center, loaded);
      windowBusy, windowLoads, requests := true, windowLoads + issued, requests + issued;
    }

    /** The cooldown timer of a burst fires: the only way the busy flag clears. */
    method CooldownElapsed()
      requires Valid() && windowBusy
      modifies this`windowBusy
      ensures Valid() && !windowBusy
    {
      windowBusy := false;
    }

    /** The intersection observer reports visibility. An unchanged value does
        not re-run the tick effect; a changed one cancels the pending tick and
        schedules a new one when the loop gate passes. */
    method VisibilityChanged(visible: bool)
      requires Valid()
      modifies this`inView, this`loopScheduled
      ensures Valid() && inView == visible
      ensures visible == old(inView) ==> unchanged(this`loopScheduled)
      ensures visible != old(inView) ==> loopScheduled == LoopGate(mounted, manifest, visible)
      ensures !visible ==> !loopScheduled
    {
      if visible != inView {
        inView := visible;
        loopScheduled := LoopGate(mounted, manifest, inView);
      }
    }

    /** The component unmounts: the observer disconnects and the pending tick is cancelled. */
    method Unmount()
      requires Valid() && mounted
      modifies this`mounted, this`loopScheduled
      ensures Valid() && !mounted && !loopScheduled
    {
      mounted, loopScheduled := false, false;
    }

    /** The frame-change step of a tick (the branch taken when the computed
        index differs from the stored one): store the index, prefetch the
        window around it when it is not cached, and point the image at it
        whether or not it is cached. An unchanged index changes nothing. */
    method ShowFrame(frameIndex: int) returns (issued: seq<FrameName>)
      requires Valid() && 0 <= frameIndex < |manifest|
      modifies this`currentFrameIndex, this`src, this`windowBusy, this`windowLoads, this`requests
      ensures Valid()
      ensures frameIndex == old(currentFrameIndex) ==> issued == [] && unchanged(this)
      ensures frameIndex != old(currentFrameIndex) ==>
                && currentFrameIndex == frameIndex && src == Some(manifest[frameIndex])
                && (manifest[frameIndex] in cache ==>
                      issued == [] && unchanged(this`windowBusy, this`windowLoads, this`requests))
                && (manifest[frameIndex] !in cache ==>
                      && windowBusy
                      && issued == (if old(windowBusy) then [] else WindowRequests(manifest, frameIndex, cache))
                      && windowLoads == old(windowLoads) + issued && requests == old(requests) + issued)
    {
      issued := [];
      if frameIndex != currentFrameIndex {
        currentFrameIndex := frameIndex;
        var fileName := manifest[frameIndex];
        if fileName !in cache {
          issued := PreloadWindow(frameIndex);
        }
        src := Some(fileName);
      }
    }

    /** The animation-frame callback `tick(now)`. Within 16 ms of the last
        processed tick it only reschedules. Otherwise it records `now`; with
        the wrapper element gone the loop ends; with the wrapper present it
        samples the target, smooths the progress and shows the frame the
        smoothed progress selects. */
    method Tick(now: real, wrapper: Option<Rect>, viewportHeight: real) returns (issued: seq<FrameName>)
      requires Valid() && loopScheduled
      modifies this`lastUpdate, this`loopScheduled, this`targetProgress, this`currentProgress,
               this`currentFrameIndex, this`src, this`windowBusy, this`windowLoads, this`requests
      ensures Valid()
      ensures now - old(lastUpdate) < FrameIntervalMs ==> issued == [] && unchanged(this)
      ensures now - old(lastUpdate) >= FrameIntervalMs ==> lastUpdate == now
      ensures now - old(lastUpdate) >= FrameIntervalMs && wrapper.None? ==>
                && issued == [] && !loopScheduled
                && unchanged(this`targetProgress, this`currentProgress, this`currentFrameIndex)
                && unchanged(this`src, this`windowBusy, this`windowLoads, this`requests)
      ensures now - old(lastUpdate) >= FrameIntervalMs && wrapper.Some? ==>
                && loopScheduled
                && targetProgress == RawTarget(wrapper.value.top, wrapper.value.height - viewportHeight)
                && currentProgress == Lerp(old(currentProgress), targetProgress)
                && currentFrameIndex == FrameIndex(currentProgress, |manifest|)
                && (currentFrameIndex == old(currentFrameIndex) ==>
                      issued == [] && unchanged(this`src, this`windowBusy, this`windowLoads, this`requests))
                && (currentFrameIndex != old(currentFrameIndex) ==>
                      && src == Some(manifest[currentFrameIndex])
                      && (manifest[currentFrameIndex] in cache ==>
                            issued == [] && unchanged(this`windowBusy, this`windowLoads, this`requests))
                      && (manifest[currentFrameIndex] !in cache ==>
                            && windowBusy
                            && issued == (if old(windowBusy) then []
                                          else WindowRequests(manifest, currentFrameIndex, cache))
                            && windowLoads == old(windowLoads) + issued
                            && requests == old(requests) + issued))
    {
      issued := [];
      if now - lastUpdate < FrameIntervalMs {
        return;
      }
      lastUpdate := now;
      if wrapper.None? {
        loopScheduled := false;
        return;
      }
      var rect := wrapper.value;
      var target := RawTarget(rect.top, rect.height - viewportHeight);
      var current := Lerp(currentProgress, target);
      targetProgress, currentProgress := target, current;
      issued := ShowFrame(FrameIndex(current, |manifest|));
    }
  }

  /** A manifest that arrives after the component has unmounted: nothing
      cancels the fetch, so frame 0 is loaded and the warm-up sweep moves on
      to frame 1, while no tick is ever scheduled. */
  method LateManifestScenario() returns (scheduled: bool, cached: set<FrameName>, rest: seq<FrameName>)
    ensures !scheduled
    ensures cached == {FrameName("0001.jpg")}
    ensures rest == [FrameName("0003.jpg")]
  {
    var a, b, c := FrameName("0001.jpg"), FrameName("0002.jpg"), FrameName("0003.jpg");
    var p := new Player();
    p.Mount();
    p.Unmount();
    p.ManifestLoaded([a, b, c]);
    p.FirstFrameLoaded();
    assert p.manifest[1..] == [b, c];
    assert SkipCached([b, c], {a}) == [b, c];
    scheduled, cached, rest := p.loopScheduled, p.cache, p.queue;
  }
}
