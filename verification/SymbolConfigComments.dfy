/**
  Comments and blank lines do not change what the symbol configuration parser reads.
*/
module SymbolConfigComments {
  import opened PyText
  import opened SymbolConfig

  predicate Blank(s: string) {
    forall c | c in s :: IsSpace(c)
  }

  // ------------------------------------------------------------------ stripping one line

  /** What the scan keeps, the scan keeps again, up to any point of it. */
  lemma {:induction false} KeptAgain(line: string, open: Option<char>, n: nat)
    requires n <= |Uncommented(line, open)|
    ensures Uncommented(Uncommented(line, open)[..n], open) == Uncommented(line, open)[..n]
  {
    hide Uncommented;
    if n > 0 {
      var rest := line[1..];
      assert line == [line[0]] + rest;
      UncommentedCons(line[0], rest, open);
      var kept := Uncommented(rest, NextQuote(open, line[0]));
      KeptAgain(rest, NextQuote(open, line[0]), n - 1);
      assert Uncommented(line, open)[..n] == [line[0]] + kept[..n - 1];
      UncommentedCons(line[0], kept[..n - 1], open);
    }
  }

  lemma StripIdempotent(line: string)
    ensures StripComment(StripComment(line)) == StripComment(line)
  {
    var kept := Uncommented(line, None);
    var r := RStrip(kept);
    assert r == kept[..|r|];
    KeptAgain(line, None, |r|);
    assert r + [] == r;
    RStripOf(r, []);
  }

  /** The scan of a line with something appended: the line as before, and then, unless a comment has
      begun, the rest under the quote left open. */
  lemma {:induction false} ScanAppended(line: string, open: Option<char>, tail: string)
    ensures Uncommented(line + tail, open)
            == if Uncommented(line, open) == line then line + Uncommented(tail, OpenAtEnd(line, open))
               else Uncommented(line, open)
    ensures Uncommented(line, open) != line ==> OpenAtEnd(line, open).None?
  {
    hide Uncommented, NextQuote;
    if line == [] {
      assert line + tail == tail;
      assert [] + Uncommented(tail, open) == Uncommented(tail, open);
    } else {
      var c, rest := line[0], line[1..];
      var next := NextQuote(open, c);
      ScanAppended(rest, next, tail);
      UncommentedCons(c, rest, open);
      UncommentedCons(c, rest + tail, open);
      assert line == [c] + rest;
      assert line + tail == [c] + (rest + tail);
      var more := Uncommented(tail, OpenAtEnd(rest, next));
      assert [c] + (rest + more) == line + more;
      assert Uncommented(line, open) == line <==> !(c == '#' && open.None?) && Uncommented(rest, next) == rest;
    }
  }

  lemma {:induction false} ScanBlank(blank: string, tail: string, open: Option<char>)
    requires Blank(blank)
    ensures Uncommented(blank + tail, open) == blank + Uncommented(tail, open)
  {
    hide Uncommented;
    if blank == [] {
      assert blank + tail == tail;
      assert [] + Uncommented(tail, open) == Uncommented(tail, open);
    } else {
      assert IsSpace(blank[0]);
      var rest, kept := blank[1..], Uncommented(tail, open);
      ScanBlank(rest, tail, open);
      UncommentedCons(blank[0], rest + tail, open);
      assert blank + tail == [blank[0]] + (rest + tail);
      assert [blank[0]] + (rest + kept) == blank + kept;
    }
  }

  /** Blanks and a comment behind a line vanish exactly when the line leaves no quote open. */
  lemma {:induction false} TrailingComment(line: string, blank: string, comment: string)
    requires Blank(blank)
    ensures StripComment(line + blank + ['#'] + comment) == StripComment(line)
            <==> OpenAtEnd(line, None).None?
  {
    hide Uncommented;
    var tail := blank + (['#'] + comment);
    assert line + blank + ['#'] + comment == line + tail;
    ScanAppended(line, None, tail);
    if Uncommented(line, None) == line {
      var open := OpenAtEnd(line, None);
      ScanBlank(blank, ['#'] + comment, open);
      UncommentedCons('#', comment, open);
      if open.None? {
        assert line + (blank + []) == line + blank;
        RStripAppended(line, blank);
      } else {
        var more := Uncommented(comment, NextQuote(open, '#'));
        RStripKeeps(line + blank, '#', more);
        assert line + (blank + (['#'] + more)) == line + blank + ['#'] + more;
      }
    }
  }

  lemma {:induction false} RStripAppended(s: string, blank: string)
    requires Blank(blank)
    ensures RStrip(s + blank) == RStrip(s)
  {
    var r := RStrip(s);
    var t := s[|r|..] + blank;
    assert s + blank == r + t;
    assert forall c | c in t :: IsSpace(c);
    RStripOf(r, t);
  }

  lemma {:induction false} RStripKeeps(s: string, c: char, t: string)
    requires !IsSpace(c)
    ensures |RStrip(s + [c] + t)| > |s|
  {
    assert (s + [c] + t)[|s|] == c;
  }

  // ------------------------------------------------------------------ whole texts

  /** One step of decorating a text: a blank or comment-only line is inserted, the next line gets a
      trailing comment, or the next line is left alone. */
  datatype Edit =
    | BlankLine(blank: string)
    | CommentLine(blank: string, comment: string)
    | Trail(blank: string, comment: string)
    | Keep

  function Decorate(lines: seq<string>, edits: seq<Edit>): seq<string> {
    if edits == [] then lines
    else match edits[0]
      case BlankLine(blank) => [blank] + Decorate(lines, edits[1..])
      case CommentLine(blank, comment) => [blank + ['#'] + comment] + Decorate(lines, edits[1..])
      case Trail(blank, comment) =>
        if lines == [] then Decorate(lines, edits[1..])
        else [lines[0] + blank + ['#'] + comment] + Decorate(lines[1..], edits[1..])
      case Keep =>
        if lines == [] then Decorate(lines, edits[1..])
        else [lines[0]] + Decorate(lines[1..], edits[1..])
  }

  predicate BlankEdit(e: Edit) {
    e.Keep? || (Blank(e.blank) && OneLine(e.blank) && (e.BlankLine? || OneLine(e.comment)))
  }

  /** Trailing comments go behind lines whose quotes are closed. */
  predicate Allowed(lines: seq<string>, edits: seq<Edit>) {
    edits == [] ||
    (&& BlankEdit(edits[0])
     && match edits[0]
        case BlankLine(_) => Allowed(lines, edits[1..])
        case CommentLine(_, _) => Allowed(lines, edits[1..])
        case Trail(_, _) =>
          if lines == [] then Allowed(lines, edits[1..])
          else OpenAtEnd(lines[0], None).None? && Allowed(lines[1..], edits[1..])
        case Keep => if lines == [] then Allowed(lines, edits[1..]) else Allowed(lines[1..], edits[1..]))
  }

  lemma NoiseLine(blank: string, comment: string)
    requires Blank(blank)
    ensures LogicalLine(blank) == [] && LogicalLine(blank + ['#'] + comment) == []
  {
    hide Uncommented;
    assert blank + ['#'] + comment == blank + (['#'] + comment);
    ScanBlank(blank, ['#'] + comment, None);
    UncommentedCons('#', comment, None);
    ScanBlank(blank, [], None);
    assert Uncommented([], None) == [];
    assert blank + [] == blank;
    assert [] + blank == blank;
    RStripOf([], blank);
    assert RStrip(blank) == [];
    assert RStrip([]) == [] && LStrip([]) == [];
  }

  lemma {:induction false} DecorateLines(lines: seq<string>, edits: seq<Edit>)
    requires Allowed(lines, edits)
    ensures LogicalLines(Decorate(lines, edits)) == LogicalLines(lines)
    decreases |edits|
  {
    if edits != [] {
      var rest := edits[1..];
      match edits[0]
      case BlankLine(blank) =>
        NoiseLine(blank, []);
        DecorateLines(lines, rest);
        LogicalCons(blank, Decorate(lines, rest));
      case CommentLine(blank, comment) =>
        NoiseLine(blank, comment);
        DecorateLines(lines, rest);
        LogicalCons(blank + ['#'] + comment, Decorate(lines, rest));
      case Trail(blank, comment) =>
        if lines == [] {
          DecorateLines(lines, rest);
        } else {
          TrailingComment(lines[0], blank, comment);
          DecorateLines(lines[1..], rest);
          LogicalCons(lines[0] + blank + ['#'] + comment, Decorate(lines[1..], rest));
        }
      case Keep =>
        if lines == [] {
          DecorateLines(lines, rest);
        } else {
          DecorateLines(lines[1..], rest);
          LogicalCons(lines[0], Decorate(lines[1..], rest));
        }
    }
  }

  lemma {:induction false} LogicalCons(line: string, lines: seq<string>)
    ensures LogicalLines([line] + lines) == LogicalLine(line) + LogicalLines(lines)
  {
    hide LogicalLine;
    assert ([line] + lines)[1..] == lines;
  }

  lemma {:induction false} DecorateOneLine(lines: seq<string>, edits: seq<Edit>)
    requires Allowed(lines, edits) && forall l | l in lines :: OneLine(l)
    ensures forall l | l in Decorate(lines, edits) :: OneLine(l)
    decreases |edits|
  {
    if edits != [] {
      match edits[0]
      case BlankLine(blank) =>
        DecorateOneLine(lines, edits[1..]);
      case CommentLine(blank, comment) =>
        DecorateOneLine(lines, edits[1..]);
        assert OneLine(blank + ['#'] + comment);
      case Trail(blank, comment) =>
        if lines == [] {
          DecorateOneLine(lines, edits[1..]);
        } else {
          DecorateOneLine(lines[1..], edits[1..]);
          assert OneLine(lines[0]);
          assert OneLine(lines[0] + blank + ['#'] + comment);
        }
      case Keep =>
        if lines == [] {
          DecorateOneLine(lines, edits[1..]);
        } else {
          DecorateOneLine(lines[1..], edits[1..]);
        }
    }
  }

  /** Inserting blank and comment-only lines anywhere, and trailing comments behind lines with closed
      quotes, leaves the parse result (the tree or the error) as it is. */
  lemma {:induction false} CommentInsensitive(lines: seq<string>, edits: seq<Edit>)
    requires Allowed(lines, edits) && forall l | l in lines :: OneLine(l)
    ensures ParseText(JoinLines(Decorate(lines, edits))) == ParseText(JoinLines(lines))
  {
    DecorateOneLine(lines, edits);
    SplitJoin(lines);
    SplitJoin(Decorate(lines, edits));
    DecorateLines(lines, edits);
  }
}
