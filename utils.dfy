/**
 * The validators and the formatter of `src/lib/utils.ts`: the Ethereum
 * address regular expression, the shortened address shown in the admin
 * table, and the host/path rule for tweet URLs. The URL parser itself is
 * not part of this model: the rule is taken over its result.
 */
module Utils {
  import opened Wrappers
  import opened JsText

  // ---------------------------------------------------------------------------
  // isValidEthereumAddress: /^0x[a-fA-F0-9]{42}$/

  /** The character class `[a-fA-F0-9]`. */
  predicate IsHexDigit(c: char) {
    ('a' <= c <= 'f') || ('A' <= c <= 'F') || ('0' <= c <= '9')
  }

  /** `[a-fA-F0-9]{n}$`: the rest of the input is exactly `n` characters of the class. */
  function HexRun(s: string, n: nat): (ok: bool)
    ensures ok <==> |s| == n && forall i :: 0 <= i < |s| ==> IsHexDigit(s[i])
  {
    if n == 0 then s == []
    else s != [] && IsHexDigit(s[0]) && HexRun(s[1..], n - 1)
  }

  const AddressDigits: nat := 42

  /** The anchored match of `^0x[a-fA-F0-9]{42}$`. */
  function IsValidEthereumAddress(s: string): (ok: bool)
    ensures ok <==> |s| == 2 + AddressDigits && s[0] == '0' && s[1] == 'x'
                    && forall i :: 2 <= i < |s| ==> IsHexDigit(s[i])
  {
    var ok := StartsWith(s, "0x") && HexRun(s[2..], AddressDigits);
    assert ok ==> s[..2] == "0x" && forall i :: 2 <= i < |s| ==> s[i] == s[2..][i - 2];
    ok
  }

  /** A canonical 20-byte address, "0x" and 40 hex digits, is rejected:
      the pattern asks for 42 digits. */
  lemma FortyDigitAddressRejected(s: string)
    requires |s| == 42 && StartsWith(s, "0x")
    requires forall i :: 2 <= i < |s| ==> IsHexDigit(s[i])
    ensures !IsValidEthereumAddress(s)
  {
  }

  /** The digits may be in either case: lower-casing a valid address keeps it valid. */
  lemma {:induction false} LowerCaseKeepsValid(s: string)
    requires IsValidEthereumAddress(s)
    ensures IsValidEthereumAddress(ToLower(s))
  {
    var t := ToLower(s);
    forall i | 2 <= i < |t|
      ensures IsHexDigit(t[i])
    {
      assert t[i] == LowerChar(s[i]);
      assert IsHexDigit(s[i]);
    }
  }

  /** The address vectors of the unit tests, as the pattern decides them:
      both 40-digit addresses (lower and mixed case), the unprefixed one and
      "0x123" fail on length. */
  lemma AddressVectors()
    ensures !IsValidEthereumAddress("0x71c7656ec7ab88b098defb751b7401b5f6d8976f")
    ensures !IsValidEthereumAddress("0x71C7656EC7ab88b098defB751B7401B5f6d8976F")
    ensures !IsValidEthereumAddress("71c7656ec7ab88b098defb751b7401b5f6d8976f")
    ensures !IsValidEthereumAddress("0x123")
  {
  }

  /** A character outside the class is rejected wherever it sits. */
  lemma NonHexDigitRejected(s: string, i: nat)
    requires 2 <= i < |s| && !IsHexDigit(s[i])
    ensures !IsValidEthereumAddress(s)
  {
  }

  // ---------------------------------------------------------------------------
  // formatAddress

  function Min(a: int, b: int): int {
    if a <= b then a else b
  }

  /** `${address.slice(0, 6)}...${address.slice(-4)}`. */
  function FormatAddress(a: string): (r: string)
    ensures r == a[..Min(6, |a|)] + "..." + a[|a| - Min(4, |a|)..]
    ensures |a| >= 10 ==> |r| == 13
  {
    Slice(a, 0, 6) + "..." + Slice(a, -4, |a|)
  }

  /** An address of at most four characters is shown twice around the dots. */
  lemma ShortAddressRepeated(a: string)
    requires |a| <= 4
    ensures FormatAddress(a) == a + "..." + a
  {
    assert a[..|a|] == a && a[0..] == a;
  }

  // ---------------------------------------------------------------------------
  // isValidTwitterUrl

  /** What the URL parser yields for the rule: the host name and the path. */
  datatype ParsedUrl = ParsedUrl(hostname: string, pathname: string)

  const TwitterHosts: set<string> := {"twitter.com", "x.com", "www.twitter.com", "www.x.com"}

  /** `isValidTwitterUrl(url)` given `new URL(url)`: `None` is a parse that throws. */
  function IsValidTwitterUrl(parsed: Option<ParsedUrl>): (ok: bool)
    ensures ok <==> parsed.Some? && parsed.value.hostname in TwitterHosts
                    && |parsed.value.pathname| > 1
  {
    match parsed
    case None => false
    case Some(u) =>
      (u.hostname == "twitter.com" || u.hostname == "x.com"
       || u.hostname == "www.twitter.com" || u.hostname == "www.x.com")
      && |u.pathname| > 1
  }

  /** Any path longer than "/" on an accepted host passes: a profile page and
      a status URL with a non-numeric id are accepted, which the unit tests
      expect to be rejected; the site root is rejected. */
  lemma TwitterUrlVectors()
    ensures IsValidTwitterUrl(Some(ParsedUrl("twitter.com", "/VitalikButerin/status/123456789")))
    ensures IsValidTwitterUrl(Some(ParsedUrl("twitter.com", "/VitalikButerin")))
    ensures IsValidTwitterUrl(Some(ParsedUrl("x.com", "/user/status/abc")))
    ensures !IsValidTwitterUrl(Some(ParsedUrl("google.com", "/status/123")))
    ensures !IsValidTwitterUrl(Some(ParsedUrl("x.com", "/")))
    ensures !IsValidTwitterUrl(None)
  {
  }
}
