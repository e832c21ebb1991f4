/** The few methods of Python's `str` that the text parsers use. */
module Texts {

  predicate StartsWith(s: string, prefix: string) {
    |prefix| <= |s| && s[..|prefix|] == prefix
  }

  predicate EndsWith(s: string, suffix: string) {
    |suffix| <= |s| && s[|s| - |suffix|..] == suffix
  }

  /** `needle in s` */
  predicate Contains(s: string, needle: string) {
    exists k | 0 <= k <= |s| :: StartsWith(s[k..], needle)
  }

  lemma SameFirst(s: string, prefix: string)
    requires StartsWith(s, prefix) && prefix != []
    ensures s != [] && s[0] == prefix[0]
  {
    assert s[..|prefix|][0] == s[0];
  }

  /** `s.split(sep)` */
  function Split(s: string, sep: char): (r: seq<string>)
    ensures r != []
  {
    if s == [] then [[]]
    else
      var rest := Split(s[1..], sep);
      if s[0] == sep then [[]] + rest else [[s[0]] + rest[0]] + rest[1..]
  }

  /** `s.rstrip("\n")` */
  function StripNewlines(s: string): string {
    if s != [] && s[|s| - 1] == '\n' then StripNewlines(s[..|s| - 1]) else s
  }

  /** The characters at which `str.splitlines` ends a line. */
  predicate IsBreak(c: char) {
    var n := c as int;
    0x0A <= n <= 0x0D || 0x1C <= n <= 0x1E || n == 0x85 || n == 0x2028 || n == 0x2029
  }

  /** The length of the first line with its end; CR LF is one end. */
  function LineLength(text: string): (n: nat)
    requires text != []
    ensures 1 <= n <= |text|
  {
    if text[0] == '\r' && |text| > 1 && text[1] == '\n' then 2
    else if IsBreak(text[0]) || |text| == 1 then 1
    else 1 + LineLength(text[1..])
  }

  /** `text.splitlines(keepends=True)` */
  function Lines(text: string): (r: seq<string>)
    ensures text != [] ==> r != []
    ensures forall i :: 0 <= i < |r| ==> r[i] != []
  {
    if text == [] then [] else
      var n := LineLength(text);
      [text[..n]] + Lines(text[n..])
  }

  function Concat(parts: seq<string>): string {
    if parts == [] then [] else parts[0] + Concat(parts[1..])
  }

  /** No character of the text is lost or added. */
  lemma {:induction false} LinesConcat(text: string)
    ensures Concat(Lines(text)) == text
  {
    if text != [] {
      var n := LineLength(text);
      LinesConcat(text[n..]);
      assert Lines(text)[1..] == Lines(text[n..]);
      assert text == text[..n] + text[n..];
    }
  }
}
