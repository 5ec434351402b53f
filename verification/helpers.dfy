/**
 * String and timestamp helpers (backend/app/utils/helpers.py).
 */
module Helpers {
  import opened Wrappers

  /** Python's `s[:n]`: a negative bound counts from the end, a bound past the end is clamped. */
  function SliceTo(s: string, n: int): (r: string)
    ensures 0 <= n <= |s| ==> r == s[..n]
    ensures n >= |s| ==> r == s
    ensures n < 0 ==> |r| == if |s| + n > 0 then |s| + n else 0
    ensures r <= s
  {
    if n >= |s| then s
    else if n >= 0 then s[..n]
    else if |s| + n > 0 then s[..|s| + n]
    else []
  }

  /** `truncate_string`: keep text no longer than the limit, otherwise cut it and add "...". */
  function TruncateString(text: string, length: int := 100): (r: string)
    ensures |text| <= length ==> r == text
    ensures |text| > length ==> r == SliceTo(text, length) + "..."
    ensures |text| > length >= 0 ==> |r| == length + 3 && text[..length] <= r
  {
    if |text| > length then SliceTo(text, length) + "..." else text
  }

  /** For a limit that is not negative, truncating a second time changes nothing. */
  lemma TruncateIdempotent(text: string, length: int)
    requires length >= 0
    ensures TruncateString(TruncateString(text, length), length) == TruncateString(text, length)
  {
    if |text| > length {
      var r := TruncateString(text, length);
      assert r == text[..length] + "...";
      assert r[..length] == text[..length];
    }
  }

  /** With a negative limit Python's slice counts from the end, and truncation is not idempotent. */
  lemma TruncateNegativeLimitNotIdempotent()
    ensures TruncateString("abcdef", -1) == "abcde..."
    ensures TruncateString(TruncateString("abcdef", -1), -1) == "abcde....."
  {
    assert SliceTo("abcdef", -1) == "abcde";
    assert SliceTo("abcde...", -1) == "abcde..";
  }

  /** A value that is either already a timestamp text or a datetime (a clock reading). */
  datatype TimeValue = Text(s: string) | DateTime(t: int)

  /** `format_timestamp`: a text is returned unchanged, a datetime is rendered by `isoformat`. */
  function FormatTimestamp(v: TimeValue, isoformat: int -> string): (r: string)
    ensures v.Text? ==> r == v.s
    ensures v.DateTime? ==> r == isoformat(v.t)
  {
    match v
    case Text(s) => s
    case DateTime(t) => isoformat(t)
  }

  /** `parse_timestamp`: a datetime is returned unchanged, a text goes through `fromisoformat`,
      which fails (`None`) on a text it rejects. */
  function ParseTimestamp(v: TimeValue, fromisoformat: string -> Option<int>): (r: Option<int>)
    ensures v.DateTime? ==> r == Some(v.t)
    ensures v.Text? ==> r == fromisoformat(v.s)
  {
    match v
    case DateTime(t) => Some(t)
    case Text(s) => fromisoformat(s)
  }

  /** Formatting then parsing returns the datetime whenever `fromisoformat` inverts `isoformat`. */
  lemma FormatThenParse(v: TimeValue, isoformat: int -> string, fromisoformat: string -> Option<int>)
    requires forall t :: fromisoformat(isoformat(t)) == Some(t)
    requires v.DateTime?
    ensures ParseTimestamp(Text(FormatTimestamp(v, isoformat)), fromisoformat) == Some(v.t)
  {
  }

  // ---------------------------------------------------------------- text primitives

  /** `str.lower` on one character; letters outside ASCII are left as they are. */
  function LowerChar(c: char): char {
    if 'A' <= c <= 'Z' then (c as int + 32) as char else c
  }

  function UpperChar(c: char): char {
    if 'a' <= c <= 'z' then (c as int - 32) as char else c
  }

  predicate IsLetter(c: char) {
    'a' <= c <= 'z' || 'A' <= c <= 'Z'
  }

  /** `str.lower`. */
  function Lower(s: string): (r: string)
    ensures |r| == |s| && forall i :: 0 <= i < |s| ==> r[i] == LowerChar(s[i])
  {
    if s == [] then [] else [LowerChar(s[0])] + Lower(s[1..])
  }

  /** `str.replace(a, b)` for one-character `a` and `b`. */
  function ReplaceChar(s: string, a: char, b: char): (r: string)
    ensures |r| == |s| && forall i :: 0 <= i < |s| ==> r[i] == (if s[i] == a then b else s[i])
  {
    if s == [] then [] else [if s[0] == a then b else s[0]] + ReplaceChar(s[1..], a, b)
  }

  /** `needle` occurs in `hay` starting at index `i`. */
  predicate OccursAt(needle: string, hay: string, i: int) {
    0 <= i <= |hay| - |needle| && hay[i..i + |needle|] == needle
  }

  /** `needle in hay` for texts: `needle` occurs somewhere in `hay`. */
  predicate Occurs(needle: string, hay: string) {
    exists i | 0 <= i <= |hay| - |needle| :: OccursAt(needle, hay, i)
  }

  /** Whatever contains a text also contains each of that text's prefixes. */
  lemma OccursPrefix(p: string, needle: string, hay: string)
    requires p <= needle && Occurs(needle, hay)
    ensures Occurs(p, hay)
  {
    var i :| 0 <= i <= |hay| - |needle| && OccursAt(needle, hay, i);
    assert hay[i..i + |p|] == needle[..|p|] == p;
    assert OccursAt(p, hay, i);
  }
}
