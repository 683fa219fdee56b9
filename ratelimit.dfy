/**
 * `getClientIP` of `src/lib/ratelimit.ts`: the client address the submit
 * route rate-limits and hashes, taken from the `x-forwarded-for` header.
 */
module RateLimit {
  import opened Wrappers
  import opened JsText

  const LoopbackAddress: string := "127.0.0.1"

  /** `getClientIP`, given the `x-forwarded-for` header (`None` when absent):
      the first comma-separated entry, trimmed; the loopback address when the
      header is absent or empty. */
  function GetClientIP(forwarded: Option<string>): (ip: string)
    ensures forwarded.None? || forwarded == Some("") ==> ip == LoopbackAddress
    ensures forwarded.Some? && forwarded.value != "" ==>
              ',' !in ip && Trimmed(ip) && |ip| <= |forwarded.value|
    ensures forwarded.Some? && forwarded.value != "" ==>
              ip == Trim(FirstSegment(forwarded.value, ','))
    ensures forwarded.Some? && ',' !in forwarded.value && forwarded.value != "" ==>
              ip == Trim(forwarded.value)
  {
    match forwarded
    case Some(header) =>
      if header != "" then
        SplitHead(header, ',');
        var first := Split(header, ',')[0];
        TrimKeepsAbsent(first, ',');
        FirstSegmentWithout(header, ',');
        Trim(first)
      else LoopbackAddress
    case None => LoopbackAddress
  }

  /** The address is the first entry of the header, trimmed: the entry
      runs up to the first comma (or the end), and inside it only whitespace
      comes before and after the address. */
  lemma ClientIPFromFirstEntry(header: string) returns (k: nat, e: nat)
    requires header != ""
    ensures var ip := GetClientIP(Some(header));
            k + |ip| <= e <= |header| && header[k..k + |ip|] == ip
            && ',' !in header[..e] && (e == |header| || header[e] == ',')
            && AllWhitespace(header[..k]) && AllWhitespace(header[k + |ip|..e])
  {
    var first := FirstSegment(header, ',');
    e := |first|;
    var ip := GetClientIP(Some(header));
    assert ip == Trim(header[..e]);
    k := TrimmedPrefix(header, e);
    var t := Trim(header[..e]);
    assert header[k..k + |t|] == t;
    assert |t| == |ip|;
  }

  /** The trimmed text of the prefix `s[..e]` sits in `s` with only
      whitespace between it and the ends of the prefix. */
  lemma TrimmedPrefix(s: string, e: nat) returns (k: nat)
    requires e <= |s|
    ensures var t := Trim(s[..e]);
            k + |t| <= e && s[k..k + |t|] == t
            && AllWhitespace(s[..k]) && AllWhitespace(s[k + |t|..e])
  {
    var p := s[..e];
    k := TrimShape(p);
    var n := |Trim(p)|;
    assert s[k..k + n] == p[k..k + n];
    assert s[..k] == p[..k];
    assert s[k + n..e] == p[k + n..];
  }

  /** A header of whitespace alone is truthy, and gives the empty address. */
  lemma WhitespaceHeaderGivesEmptyAddress(header: string)
    requires header != [] && AllWhitespace(header)
    ensures GetClientIP(Some(header)) == ""
  {
    var first := FirstSegment(header, ',');
    SplitHead(header, ',');
    assert first == header[..|first|];
    assert TrimStart(first) == [];
  }
}
