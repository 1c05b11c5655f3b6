/** The parts of Python's `str` that the configuration parser leans on. */
module PyText {

  datatype Option<+T> = None | Some(value: T)

  /** `str.isspace` for one character. */
  predicate IsSpace(c: char) {
    || '\t' <= c <= '\r' || '\U{1c}' <= c <= '\U{20}' || c == '\U{85}' || c == '\U{a0}' || c == '\U{1680}'
    || '\U{2000}' <= c <= '\U{200a}' || c in {'\U{2028}', '\U{2029}', '\U{202f}', '\U{205f}', '\U{3000}'}
  }

  /** The characters at which `str.splitlines` ends a line. */
  predicate IsLineBreak(c: char) {
    || '\n' <= c <= '\r' || '\U{1c}' <= c <= '\U{1e}' || c == '\U{85}' || c == '\U{2028}' || c == '\U{2029}'
  }

  /** Both by code point. */
  lemma BlanksExactly(c: char)
    ensures IsLineBreak(c) <==> c as int in {10, 11, 12, 13, 28, 29, 30, 133, 8232, 8233}
    ensures IsSpace(c) <==> || c as int in {9, 10, 11, 12, 13, 28, 29, 30, 31, 32, 133, 160, 5760}
                            || 8192 <= c as int <= 8202 || c as int in {8232, 8233, 8239, 8287, 12288}
  {
  }

  predicate OneLine(s: string) {
    forall c | c in s :: !IsLineBreak(c)
  }

  function RStrip(s: string): (r: string)
    ensures r <= s
    ensures r == [] || !IsSpace(r[|r| - 1])
    ensures forall k | |r| <= k < |s| :: IsSpace(s[k])
  {
    if s == [] || !IsSpace(s[|s| - 1]) then s else RStrip(s[..|s| - 1])
  }

  function LStrip(s: string): (r: string)
    ensures |r| <= |s| && r == s[|s| - |r|..]
    ensures r == [] || !IsSpace(r[0])
    ensures forall k | 0 <= k < |s| - |r| :: IsSpace(s[k])
  {
    if s == [] || !IsSpace(s[0]) then s else LStrip(s[1..])
  }

  function Strip(s: string): string {
    LStrip(RStrip(s))
  }

  /** Neither empty nor surrounded by blanks. */
  predicate Trimmed(s: string) {
    s != [] && !IsSpace(s[0]) && !IsSpace(s[|s| - 1])
  }

  lemma {:induction false} RStripOf(s: string, t: string)
    requires s == [] || !IsSpace(s[|s| - 1])
    requires forall c | c in t :: IsSpace(c)
    ensures RStrip(s + t) == s
  {
    var u := s + t;
    assert forall k | |s| <= k < |u| :: u[k] in t;
    assert s == [] || u[|s| - 1] == s[|s| - 1];
    assert u[..|s|] == s;
  }

  lemma {:induction false} StripOf(a: string, s: string)
    requires Trimmed(s)
    requires forall c | c in a :: IsSpace(c)
    ensures Strip(a + s) == s && RStrip(a + s) == a + s
  {
    RStripOf(a + s, []);
    assert a + s + [] == a + s;
    var u := a + s;
    assert forall k | 0 <= k < |a| :: u[k] in a;
    assert u[|a|] == s[0];
    assert u[|a|..] == s;
  }

  /** The number of leading spaces (spaces only), as in `len(line) - len(line.lstrip(" "))`. */
  function Indent(s: string): (n: nat)
    ensures n <= |s|
  {
    if s == [] || s[0] != ' ' then 0 else 1 + Indent(s[1..])
  }

  function Pad(n: nat): (s: string)
    ensures |s| == n && forall c | c in s :: c == ' '
  {
    if n == 0 then [] else [' '] + Pad(n - 1)
  }

  lemma {:induction false} IndentOfPad(n: nat, s: string)
    requires s != [] && s[0] != ' '
    ensures Indent(Pad(n) + s) == n
  {
    if n > 0 {
      assert (Pad(n) + s)[1..] == Pad(n - 1) + s;
      IndentOfPad(n - 1, s);
    } else {
      assert Pad(n) + s == s;
    }
  }

  /** The position of the first c, as used by `str.partition`. */
  function Find(s: string, c: char): (i: Option<nat>)
    ensures i.None? ==> c !in s
    ensures i.Some? ==> i.value < |s| && s[i.value] == c && c !in s[..i.value]
  {
    if s == [] then None
    else if s[0] == c then Some(0)
    else match Find(s[1..], c)
      case None => None
      case Some(k) => assert s[..k + 1] == [s[0]] + s[1..][..k]; Some(k + 1)
  }

  lemma {:induction false} FindAfter(a: string, c: char, b: string)
    requires c !in a
    ensures Find(a + [c] + b, c) == Some(|a|)
  {
    var s := a + [c] + b;
    assert s[|a|] == c;
    assert forall k | 0 <= k < |a| :: s[k] in a;
    var i := Find(s, c).value;
    assert forall k | 0 <= k < i :: s[k] in s[..i];
  }

  /** `str.split` at every c. */
  function Split(s: string, c: char): (parts: seq<string>)
    ensures |parts| > 0
    ensures forall p | p in parts :: |p| <= |s|
  {
    match Find(s, c)
    case None => [s]
    case Some(i) => [s[..i]] + Split(s[i + 1..], c)
  }

  /** Where the first line of s ends. */
  function LineEnd(s: string): (n: nat)
    ensures n <= |s|
    ensures OneLine(s[..n])
    ensures n < |s| ==> IsLineBreak(s[n])
  {
    if s == [] || IsLineBreak(s[0]) then 0
    else
      assert s[..1 + LineEnd(s[1..])] == [s[0]] + s[1..][..LineEnd(s[1..])];
      1 + LineEnd(s[1..])
  }

  /** `str.splitlines`; a carriage return and a newline end one line together. */
  function SplitLines(s: string): seq<string> {
    if s == [] then []
    else
      var n := LineEnd(s);
      var m := if n + 1 < |s| && s[n] == '\r' && s[n + 1] == '\n' then n + 2 else n + 1;
      [s[..n]] + if m < |s| then SplitLines(s[m..]) else []
  }

  /** Lines as a text, every line ended by a newline. */
  function JoinLines(lines: seq<string>): string {
    if lines == [] then [] else lines[0] + ['\n'] + JoinLines(lines[1..])
  }

  lemma {:induction false} LineEndOf(line: string, rest: string)
    requires OneLine(line)
    ensures LineEnd(line + ['\n'] + rest) == |line|
  {
    var s := line + ['\n'] + rest;
    var n := LineEnd(s);
    assert forall k | 0 <= k < |line| :: s[k] in line;
    assert forall k | 0 <= k < n :: s[k] in s[..n];
    assert s[|line|] == '\n';
  }

  lemma {:induction false} SplitJoin(lines: seq<string>)
    requires forall l | l in lines :: OneLine(l)
    ensures SplitLines(JoinLines(lines)) == lines
  {
    if lines != [] {
      var text := JoinLines(lines);
      LineEndOf(lines[0], JoinLines(lines[1..]));
      assert text[..|lines[0]|] == lines[0];
      assert text[|lines[0]| + 1..] == JoinLines(lines[1..]);
      SplitJoin(lines[1..]);
      assert lines == [lines[0]] + lines[1..];
    }
  }
}
