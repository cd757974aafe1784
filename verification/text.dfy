/**
 * The string helpers of JBehaveUtils that shape what is sent to the
 * reporting backend: item-name normalisation and the rendering of one
 * meta property (plain "key:value", or an HTML link for http values).
 */
module Text {
  import opened Wrappers

  /** A possibly null string as Java's string concatenation renders it: null becomes "null". */
  function Concatenated(s: Option<string>): string {
    if s.None? then "null" else s.value
  }

  /** Longest item name the backend accepts. */
  const MaxNameLength: nat := 256

  /** Name given to items whose name is null or empty. */
  const Unknown: string := "UNKNOWN"

  /** Separator between a meta key and its value. */
  const KeyValueSeparator: string := ":"

  predicate IsPrefix(p: string, s: string) {
    |p| <= |s| && s[..|p|] == p
  }

  /**
   * normalizeName: null or empty becomes "UNKNOWN"; a name longer than
   * the maximum is cut to its first MaxNameLength - 1 characters; any
   * other name is kept.
   */
  function NormalizeName(s: Option<string>): (r: string)
    ensures 0 < |r| <= MaxNameLength
    ensures s.None? || s.value == [] ==> r == Unknown
    ensures s.Some? && s.value != [] ==> IsPrefix(r, s.value)
    ensures s.Some? && 0 < |s.value| <= MaxNameLength ==> r == s.value
    ensures s.Some? && |s.value| > MaxNameLength ==> |r| == MaxNameLength - 1
  {
    if s.None? || s.value == [] then Unknown
    else if |s.value| > MaxNameLength then s.value[..MaxNameLength - 1]
    else s.value
  }

  /** A normalised name is a fixed point of normalisation. */
  lemma {:induction false} NormalizeNameIdempotent(s: Option<string>)
    ensures NormalizeName(Some(NormalizeName(s))) == NormalizeName(s)
  {
  }

  /**
   * Because of the "- 1" in the cut, a name of exactly MaxNameLength
   * characters is kept whole while any longer one loses two or more:
   * normalisation does not keep the longest prefix that would fit.
   */
  lemma {:induction false} NormalizeNameCutsBelowLimit(s: string)
    requires |s| == MaxNameLength + 1
    ensures |NormalizeName(Some(s[..MaxNameLength]))| == MaxNameLength
    ensures |NormalizeName(Some(s))| == MaxNameLength - 1
    ensures NormalizeName(Some(s)) != s[..MaxNameLength]
  {
    assert |s[..MaxNameLength]| == MaxNameLength;
  }

  /** Lower-casing of one character (ASCII letters only). */
  function LowerChar(c: char): char {
    if 'A' <= c <= 'Z' then (c as int + 32) as char else c
  }

  /** String.toLowerCase, restricted to ASCII letters. */
  function ToLower(s: string): (r: string)
    ensures |r| == |s|
    ensures forall i :: 0 <= i < |s| ==> r[i] == LowerChar(s[i])
  {
    seq(|s|, i requires 0 <= i < |s| => LowerChar(s[i]))
  }

  /** Whether p occurs in s as a contiguous block. */
  predicate Contains(s: string, p: string)
    decreases |s|
  {
    IsPrefix(p, s) || (s != [] && Contains(s[1..], p))
  }

  /** A meta value is rendered as a link when it starts with "http", ignoring case. */
  predicate IsHttp(value: string) {
    IsPrefix("http", ToLower(value))
  }

  /** A link value mentions "jira", ignoring case. */
  predicate MentionsJira(value: string) {
    Contains(ToLower(value), "jira")
  }

  /** String.lastIndexOf(char): -1 when c does not occur. */
  function LastIndexOf(s: string, c: char): (r: int)
    ensures -1 <= r < |s|
    ensures r == -1 <==> c !in s
    ensures 0 <= r ==> s[r] == c && c !in s[r + 1..]
  {
    if s == [] then -1
    else if s[|s| - 1] == c then |s| - 1
    else
      assert s == s[..|s| - 1] + [s[|s| - 1]];
      var r := LastIndexOf(s[..|s| - 1], c);
      assert 0 <= r ==> s[r + 1..] == s[..|s| - 1][r + 1..] + [s[|s| - 1]];
      r
  }

  /**
   * StringUtils.substringAfterLast(s, "/") for a one-character
   * separator: the text after the last separator, or "" when there is
   * none.
   */
  function SubstringAfterLast(s: string, sep: char): (r: string)
    ensures sep !in r
    ensures IsSuffix(r, s)
    ensures sep !in s ==> r == []
    ensures sep in s ==> |r| < |s| && s[|s| - |r| - 1] == sep
  {
    var pos := LastIndexOf(s, sep);
    if pos == -1 then "" else s[pos + 1..]
  }

  predicate IsSuffix(p: string, s: string) {
    |p| <= |s| && s[|s| - |p|..] == p
  }

  /** wrapAsLink: an HTML anchor around text pointing at href. */
  function WrapAsLink(href: string, text: string): string {
    "<a href=\"" + href + "\">" + text + "</a>"
  }

  /**
   * joinMeta(key, value): a missing value gives the bare key; an http
   * value gives a link (whose text carries the last path segment when
   * the value mentions jira); any other value gives "key:value".
   */
  function JoinMetaEntry(key: string, value: Option<string>): (r: string)
    ensures value.None? ==> r == key
    ensures value.Some? && !IsHttp(value.value) ==> r == key + KeyValueSeparator + value.value
    ensures value.Some? && IsHttp(value.value) ==> IsPrefix("<a href=\"" + value.value + "\">", r)
  {
    match value
    case None => key
    case Some(v) =>
      if IsHttp(v) then
        var text := if MentionsJira(v) then key + KeyValueSeparator + SubstringAfterLast(v, '/') else key;
        WrapAsLink(v, text)
      else key + KeyValueSeparator + v
  }

  /**
   * The text of a jira link is "key:" followed by the value's last path
   * segment: a block with no '/' that ends the value right after its
   * last '/'; other links show the bare key.
   */
  lemma {:induction false} JiraLinkText(key: string, v: string)
    requires IsHttp(v)
    ensures var seg := SubstringAfterLast(v, '/');
      && '/' !in seg
      && ('/' in v ==> v == v[..|v| - |seg| - 1] + "/" + seg)
      && JoinMetaEntry(key, Some(v)) ==
         WrapAsLink(v, if MentionsJira(v) then key + ":" + seg else key)
  {
    var seg := SubstringAfterLast(v, '/');
    if '/' in v {
      assert v == v[..|v| - |seg| - 1] + [v[|v| - |seg| - 1]] + v[|v| - |seg|..];
    }
  }

  /** The http test ignores case: "HTTP://..." is a link like "http://...". */
  lemma {:induction false} IsHttpIgnoresCase(v: string)
    ensures IsHttp(v) <==> IsHttp(ToLower(v))
  {
    var l := ToLower(v);
    assert ToLower(l) == l by {
      forall i | 0 <= i < |l| ensures ToLower(l)[i] == l[i] {
      }
    }
  }

  function Digit(d: nat): char
    requires d < 10
  {
    "0123456789"[d]
  }

  /** Decimal rendering of a non-negative int, as Java's string concatenation prints it. */
  function NatToString(n: nat): (r: string)
    ensures r != []
    ensures forall i :: 0 <= i < |r| ==> '0' <= r[i] <= '9'
    ensures |r| > 1 ==> r[0] != '0'
  {
    if n < 10 then [Digit(n)] else NatToString(n / 10) + [Digit(n % 10)]
  }

  /** The value of a string of decimal digits. */
  function DigitsValue(s: string): nat
    requires forall i :: 0 <= i < |s| ==> '0' <= s[i] <= '9'
  {
    if s == [] then 0 else 10 * DigitsValue(s[..|s| - 1]) + (s[|s| - 1] as int - '0' as int)
  }

  /** Reading the decimal rendering back gives the number: distinct indices print differently. */
  lemma {:induction false} NatToStringRoundTrip(n: nat)
    ensures DigitsValue(NatToString(n)) == n
  {
    if n >= 10 {
      var s := NatToString(n);
      assert s[..|s| - 1] == NatToString(n / 10);
      NatToStringRoundTrip(n / 10);
    }
  }
}
