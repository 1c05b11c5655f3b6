/**
  A printer for symbol configurations, and the round trip through the parser.

  A `Doc` is a tree together with its layout: every nested block carries how much deeper than
  strictly necessary it is indented, and every scalar whether and how it is quoted.
*/
module SymbolConfigRoundTrip {
  import opened PyText
  import opened SymbolConfig

  datatype Leaf = Plain(text: string) | Quoted(quote: char, text: string)

  datatype Doc = Scalar(leaf: Leaf) | Rows(gap: nat, rows: seq<Leaf>) | Tree(gap: nat, entries: seq<Entry>)

  datatype Entry = Entry(key: string, doc: Doc)

  // ------------------------------------------------------------------ what is printable

  predicate WellFormedKey(key: string) {
    && Trimmed(key) && OneLine(key) && !IsItem(key)
    && ':' !in key && '#' !in key && '\'' !in key && '"' !in key
  }

  predicate WellFormedLeaf(leaf: Leaf) {
    && OneLine(leaf.text)
    && match leaf
       case Plain(s) => Trimmed(s) && '#' !in s && !Bracketed(s) && !QuotedBy(s, '"') && !QuotedBy(s, '\'')
       case Quoted(q, s) => (q == '"' || q == '\'') && q !in s
  }

  predicate WellFormed(doc: Doc) {
    match doc
    case Scalar(leaf) => WellFormedLeaf(leaf)
    case Rows(_, rows) => forall r | r in rows :: WellFormedLeaf(r)
    case Tree(_, entries) => WellFormedEntries(entries)
  }

  predicate WellFormedEntries(entries: seq<Entry>) {
    forall e | e in entries :: WellFormedKey(e.key) && WellFormed(e.doc)
  }

  // ------------------------------------------------------------------ the tree a document stands for

  function TreeOf(doc: Doc): Value
    decreases doc
  {
    match doc
    case Scalar(leaf) => Text(leaf.text)
    case Rows(_, rows) => Items(Texts(rows))
    case Tree(_, entries) => Dict(AddEntries(map[], entries))
  }

  function Texts(rows: seq<Leaf>): seq<Value> {
    if rows == [] then [] else [Text(rows[0].text)] + Texts(rows[1..])
  }

  /** Entries added one after the other, as into a Python dict. */
  function AddEntries(m: map<string, Value>, entries: seq<Entry>): map<string, Value>
    decreases entries
  {
    if entries == [] then m
    else AddEntries(m[entries[0].key := TreeOf(entries[0].doc)], entries[1..])
  }

  // ------------------------------------------------------------------ printing

  function Show(leaf: Leaf): string {
    match leaf
    case Plain(s) => s
    case Quoted(q, s) => [q] + s + [q]
  }

  /** The printed form as indentations and contents. */
  function EntryLines(e: Entry, indent: nat): seq<Line> {
    match e.doc
    case Scalar(leaf) => [Line(indent, e.key + ": " + Show(leaf))]
    case Rows(gap, rows) =>
      if rows == [] then [Line(indent, e.key + ": []")]
      else [Line(indent, e.key + ":")] + RowLines(rows, indent + 1 + gap)
    case Tree(gap, entries) => [Line(indent, e.key + ":")] + EntriesLines(entries, indent + 1 + gap)
  }

  function RowLines(rows: seq<Leaf>, indent: nat): seq<Line> {
    if rows == [] then [] else [Line(indent, "- " + Show(rows[0]))] + RowLines(rows[1..], indent)
  }

  function EntriesLines(entries: seq<Entry>, indent: nat): seq<Line> {
    if entries == [] then [] else EntryLines(entries[0], indent) + EntriesLines(entries[1..], indent)
  }

  function Physical(lines: seq<Line>): seq<string> {
    if lines == [] then [] else [Pad(lines[0].indent) + lines[0].content] + Physical(lines[1..])
  }

  function Print(entries: seq<Entry>, indent: nat): string {
    JoinLines(Physical(EntriesLines(entries, indent)))
  }

  // ------------------------------------------------------------------ reading the physical lines back

  /** A content that the line reader returns unchanged behind any indentation. */
  ghost predicate Readable(content: string) {
    Trimmed(content) && OneLine(content) && Uncommented(content, None) == content
  }

  /** Text without quotes and '#' does not touch the quote state. */
  lemma {:induction false} NeutralPrefix(a: string, b: string)
    requires '#' !in a && '\'' !in a && '"' !in a
    ensures Uncommented(a + b, None) == a + Uncommented(b, None)
  {
    hide Uncommented;
    if a == [] {
      assert a + b == b;
    } else {
      var rest, kept := a[1..], Uncommented(b, None);
      NeutralPrefix(rest, b);
      UncommentedCons(a[0], rest + b, None);
      assert a + b == [a[0]] + (rest + b);
      assert [a[0]] + (rest + kept) == a + kept;
    }
  }

  /** Inside an open quote everything is kept up to the closing quote. */
  lemma {:induction false} InsideQuote(s: string, q: char)
    requires q == '"' || q == '\''
    requires q !in s
    ensures Uncommented(s + [q], Some(q)) == s + [q]
  {
    hide Uncommented;
    if s == [] {
      assert s + [q] == [q] + [];
      UncommentedCons(q, [], Some(q));
    } else {
      InsideQuote(s[1..], q);
      assert s + [q] == [s[0]] + (s[1..] + [q]);
      UncommentedCons(s[0], s[1..] + [q], Some(q));
    }
  }

  lemma ShowReadable(leaf: Leaf)
    requires WellFormedLeaf(leaf)
    ensures Readable(Show(leaf))
  {
    match leaf
    case Plain(s) => FastPath(s, None);
    case Quoted(q, s) =>
      assert Show(leaf) == [q] + (s + [q]);
      UncommentedCons(q, s + [q], None);
      InsideQuote(s, q);
  }

  lemma ReadableAlone(a: string)
    requires Trimmed(a) && OneLine(a) && '#' !in a
    ensures Readable(a)
  {
    FastPath(a, None);
  }

  lemma ReadableBehind(a: string, b: string)
    requires Trimmed(a) && OneLine(a) && '#' !in a && '\'' !in a && '"' !in a
    requires Readable(b)
    ensures Readable(a + " " + b)
  {
    NeutralPrefix(a + " ", b);
  }

  lemma KeyReadable(key: string, value: string)
    requires WellFormedKey(key) && Readable(value)
    ensures Readable(key + ":") && Readable(key + ": " + value)
  {
    ReadableAlone(key + ":");
    ReadableBehind(key + ":", value);
    assert key + ":" + " " + value == key + ": " + value;
  }

  lemma {:induction false} EntryReadable(e: Entry, indent: nat)
    requires WellFormedKey(e.key) && WellFormed(e.doc)
    ensures forall l | l in EntryLines(e, indent) :: Readable(l.content)
    decreases e, 1
  {
    hide Readable;
    assert Readable("[]") by {
      ReadableAlone("[]");
    }
    KeyReadable(e.key, "[]");
    assert e.key + ": " + "[]" == e.key + ": []";
    match e.doc
    case Scalar(leaf) =>
      ShowReadable(leaf);
      KeyReadable(e.key, Show(leaf));
    case Rows(gap, rows) =>
      RowsReadable(rows, indent + 1 + gap);
    case Tree(gap, entries) =>
      EntriesReadable(entries, indent + 1 + gap);
  }

  lemma {:induction false} RowsReadable(rows: seq<Leaf>, indent: nat)
    requires forall r | r in rows :: WellFormedLeaf(r)
    ensures forall l | l in RowLines(rows, indent) :: Readable(l.content)
  {
    if rows != [] {
      ShowReadable(rows[0]);
      ReadableBehind("-", Show(rows[0]));
      assert "-" + " " + Show(rows[0]) == "- " + Show(rows[0]);
      RowsReadable(rows[1..], indent);
    }
  }

  lemma {:induction false} EntriesReadable(entries: seq<Entry>, indent: nat)
    requires WellFormedEntries(entries)
    ensures forall l | l in EntriesLines(entries, indent) :: Readable(l.content)
    decreases entries, 0
  {
    if entries != [] {
      EntryReadable(entries[0], indent);
      EntriesReadable(entries[1..], indent);
    }
  }

  lemma {:induction false} LineReadBack(indent: nat, content: string)
    requires Readable(content)
    ensures LogicalLine(Pad(indent) + content) == [Line(indent, content)]
  {
    NeutralPrefix(Pad(indent), content);
    StripOf(Pad(indent), content);
    IndentOfPad(indent, content);
  }

  lemma {:induction false} ReadBack(lines: seq<Line>)
    requires forall l | l in lines :: Readable(l.content)
    ensures LogicalLines(Physical(lines)) == lines
    ensures forall p | p in Physical(lines) :: OneLine(p)
  {
    hide LogicalLine;
    if lines != [] {
      LineReadBack(lines[0].indent, lines[0].content);
      ReadBack(lines[1..]);
      assert lines == [lines[0]] + lines[1..];
      assert Physical(lines)[1..] == Physical(lines[1..]);
    }
  }

  // ------------------------------------------------------------------ what one printed line does

  lemma ScalarReadBack(leaf: Leaf)
    requires WellFormedLeaf(leaf)
    ensures Trimmed(Show(leaf)) && ParseScalar(Show(leaf)) == Text(leaf.text)
  {
    hide Strip, Split, ParseScalars;
    StripOf([], Show(leaf));
    assert [] + Show(leaf) == Show(leaf);
  }

  lemma EmptyListReadBack()
    ensures Trimmed("[]") && ParseScalar("[]") == Items([])
  {
    hide Strip, Split, ParseScalars;
    StripOf([], "[]");
    StripEmpty();
    assert "" + "[]" == "[]";
    assert Inner("[]") == [];
  }

  lemma StripEmpty()
    ensures Strip([]) == []
  {
  }

  /** A key followed by a colon is split off again. */
  lemma KeyLine(key: string, tail: string)
    requires WellFormedKey(key)
    ensures var content := key + [':'] + tail;
            && !IsItem(content) && Find(content, ':') == Some(|key|)
            && Strip(content[..|key|]) == key && content[|key| + 1..] == tail
  {
    hide Find, Strip;
    var content := key + [':'] + tail;
    FindAfter(key, ':', tail);
    assert content[..|key|] == [] + key && content[|key| + 1..] == tail;
    StripOf([], key);
    assert content[0] == key[0] && content[1] == (if |key| > 1 then key[1] else ':');
  }

  /** A line `key: value`. */
  lemma {:induction false} InterpretScalar(m: map<string, Value>, key: string, value: string, indent: nat,
                                           next: Option<Line>)
    requires WellFormedKey(key) && Trimmed(value)
    ensures Interpret(Dict(m), Line(indent, key + ": " + value), next)
            == Ok(Effect(Dict(m[key := ParseScalar(value)]), None))
  {
    hide ParseScalar, Find, Strip, IsItem, WellFormedKey;
    assert key + ": " + value == key + [':'] + (" " + value);
    KeyLine(key, " " + value);
    StripOf(" ", value);
  }

  /** A line `key:`. */
  lemma InterpretBare(m: map<string, Value>, key: string, indent: nat, next: Option<Line>)
    requires WellFormedKey(key)
    ensures Interpret(Dict(m), Line(indent, key + ":"), next)
            == Ok(Effect(Dict(m[key := Child(indent, next)]), Some(key)))
  {
    hide Find, Strip, IsItem, WellFormedKey, Child;
    assert key + ":" == key + [':'] + [];
    KeyLine(key, []);
    StripEmpty();
  }

  /** A line `- value`. */
  lemma {:induction false} InterpretRow(xs: seq<Value>, value: string, indent: nat, next: Option<Line>)
    ensures Interpret(Items(xs), Line(indent, "- " + value), next)
            == Ok(Effect(Items(xs + [ParseScalar(value)]), None))
  {
    assert ("- " + value)[2..] == value;
  }

  // ------------------------------------------------------------------ what the printed lines do

  lemma {:induction false} PopPop(stack: seq<Frame>, i: nat, j: nat)
    requires j <= i
    ensures Pop(Pop(stack, i), j) == Pop(stack, j)
  {
    if stack != [] && Top(stack).indent >= i {
      PopPop(stack[..|stack| - 1], i, j);
    }
  }

  lemma {:induction false} PopPushed(stack: seq<Frame>, frame: Frame, j: nat)
    ensures j <= frame.indent ==> Pop(stack + [frame], j) == Pop(stack, j)
    ensures frame.indent < j ==> Pop(stack + [frame], j) == stack + [frame]
  {
    assert (stack + [frame])[..|stack|] == stack;
  }

  lemma {:induction false} PutSame(v: Value, path: seq<string>)
    ensures Put(v, path, At(v, path)) == v
  {
    if path != [] && v.Dict? && path[0] in v.entries {
      PutSame(v.entries[path[0]], path[1..]);
      assert v.entries[path[0] := v.entries[path[0]]] == v.entries;
    }
  }

  /** The parser is about to read lines at `indent` into the mapping m at `path`. */
  ghost predicate Ready(st: State, indent: nat, path: seq<string>, m: map<string, Value>) {
    var stack := Pop(st.stack, indent);
    stack != [] && Top(stack).path == path && At(st.root, path) == Dict(m)
  }

  /** The parser has put m at `path`, and what lies above `indent` on its stack is as before. */
  ghost predicate Done(st: State, st': State, indent: nat, path: seq<string>, m: map<string, Value>) {
    && st'.root == Put(st.root, path, Dict(m))
    && forall j: nat | j <= indent :: Pop(st'.stack, j) == Pop(st.stack, j)
  }

  predicate NotDeeper(lines: seq<Line>, indent: nat) {
    lines == [] || lines[0].indent <= indent
  }

  lemma DoneReady(st: State, st': State, indent: nat, path: seq<string>, m: map<string, Value>, m': map<string, Value>)
    requires Ready(st, indent, path, m) && Done(st, st', indent, path, m')
    ensures Ready(st', indent, path, m')
  {
    AtPut(st.root, path, Dict(m'));
  }

  lemma DoneDone(st: State, st1: State, st2: State, indent: nat, path: seq<string>,
                 m1: map<string, Value>, m2: map<string, Value>)
    requires Done(st, st1, indent, path, m1) && Done(st1, st2, indent, path, m2)
    ensures Done(st, st2, indent, path, m2)
  {
    PutPut(st.root, path, Dict(m1), Dict(m2));
  }

  /** `key: value` and `key: []`. */
  lemma ScalarStep(st: State, indent: nat, path: seq<string>, m: map<string, Value>,
                   key: string, value: string, next: Option<Line>) returns (st': State)
    requires Ready(st, indent, path, m) && WellFormedKey(key) && Trimmed(value)
    ensures Step(st, Line(indent, key + ": " + value), next) == Ok(st')
    ensures Done(st, st', indent, path, m[key := ParseScalar(value)])
  {
    hide ParseScalar, Interpret, Pop, At, Put;
    InterpretScalar(m, key, value, indent, next);
    st' := State(Put(st.root, path, Dict(m[key := ParseScalar(value)])), Pop(st.stack, indent));
    forall j: nat | j <= indent ensures Pop(st'.stack, j) == Pop(st.stack, j) {
      PopPop(st.stack, indent, j);
    }
  }

  /** `key:` opens the child and pushes it. */
  lemma BareStep(st: State, indent: nat, path: seq<string>, m: map<string, Value>,
                 key: string, next: Option<Line>) returns (st': State)
    requires Ready(st, indent, path, m) && WellFormedKey(key)
    ensures Step(st, Line(indent, key + ":"), next) == Ok(st')
    ensures Done(st, st', indent, path, m[key := Child(indent, next)])
    ensures st'.stack != [] && Top(st'.stack) == Frame(indent, path + [key])
    ensures At(st'.root, path) == Dict(m[key := Child(indent, next)])
    ensures At(st'.root, path + [key]) == Child(indent, next)
    ensures forall deeper: nat | indent < deeper :: Pop(st'.stack, deeper) == st'.stack
  {
    hide Interpret, Pop, At, Put, Child;
    InterpretBare(m, key, indent, next);
    var born := m[key := Child(indent, next)];
    var base := Pop(st.stack, indent);
    st' := State(Put(st.root, path, Dict(born)), base + [Frame(indent, path + [key])]);
    AtPut(st.root, path, Dict(born));
    AtChild(st'.root, path, key);
    forall j: nat ensures j <= indent ==> Pop(st'.stack, j) == Pop(st.stack, j)
                  ensures indent < j ==> Pop(st'.stack, j) == st'.stack {
      PopPushed(base, Frame(indent, path + [key]), j);
      if j <= indent {
        PopPop(st.stack, indent, j);
      }
    }
  }

  /** A child that has been filled is the parent with the filled child. */
  lemma {:induction false} ChildDone(st: State, st1: State, st2: State, indent: nat, path: seq<string>, key: string,
                  m: map<string, Value>, born: Value, filled: Value)
    requires Done(st, st1, indent, path, m[key := born])
    requires At(st1.root, path) == Dict(m[key := born])
    requires st2.root == Put(st1.root, path + [key], filled)
    requires forall j: nat | j <= indent :: Pop(st2.stack, j) == Pop(st1.stack, j)
    ensures Done(st, st2, indent, path, m[key := filled])
  {
    PutChild(st1.root, path, key, filled);
    assert m[key := born][key := filled] == m[key := filled];
    PutPut(st.root, path, Dict(m[key := born]), Dict(m[key := filled]));
  }

  /** The rows of a list are appended to the list at `path`. */
  lemma {:induction false} RowsSteps(st: State, rows: seq<Leaf>, indent: nat, path: seq<string>, xs: seq<Value>,
                                     rest: seq<Line>)
    requires forall r | r in rows :: WellFormedLeaf(r)
    requires st.stack != [] && Top(st.stack).path == path && Pop(st.stack, indent) == st.stack
    requires At(st.root, path) == Items(xs)
    ensures Steps(st, RowLines(rows, indent) + rest)
            == Steps(State(Put(st.root, path, Items(xs + Texts(rows))), st.stack), rest)
    decreases rows
  {
    hide Interpret, ParseScalar, Pop, At, Put, Steps, Show, WellFormedLeaf;
    if rows == [] {
      PutSame(st.root, path);
      assert xs + Texts(rows) == xs;
      assert RowLines(rows, indent) + rest == rest;
    } else {
      var line, after := Line(indent, "- " + Show(rows[0])), RowLines(rows[1..], indent) + rest;
      assert RowLines(rows, indent) + rest == [line] + after;
      InterpretRow(xs, Show(rows[0]), indent, First(after));
      ScalarReadBack(rows[0]);
      var ys := xs + [Text(rows[0].text)];
      var st1 := State(Put(st.root, path, Items(ys)), st.stack);
      StepsCons(st, line, after);
      AtPut(st.root, path, Items(ys));
      RowsSteps(st1, rows[1..], indent, path, ys, rest);
      PutPut(st.root, path, Items(ys), Items(ys + Texts(rows[1..])));
      assert ys + Texts(rows[1..]) == xs + Texts(rows);
    }
  }

  lemma {:induction false} EntryHead(e: Entry, indent: nat)
    requires WellFormedKey(e.key)
    ensures EntryLines(e, indent) != [] && EntryLines(e, indent)[0].indent == indent
    ensures !IsItem(EntryLines(e, indent)[0].content)
  {
    var content := EntryLines(e, indent)[0].content;
    assert content[0] == e.key[0] && content[1] == (if |e.key| > 1 then e.key[1] else ':');
  }

  /** What follows the first entry is never deeper than the entry, whatever comes after the block. */
  lemma {:induction false} EntriesHead(entries: seq<Entry>, indent: nat, rest: seq<Line>)
    requires WellFormedEntries(entries) && NotDeeper(rest, indent)
    ensures NotDeeper(EntriesLines(entries, indent) + rest, indent)
    ensures entries != [] ==>
              && EntriesLines(entries, indent) != [] && EntriesLines(entries, indent)[0].indent == indent
              && !IsItem(EntriesLines(entries, indent)[0].content)
  {
    if entries == [] {
      assert EntriesLines(entries, indent) + rest == rest;
    } else {
      EntryHead(entries[0], indent);
    }
  }

  lemma EntrySteps(st: State, e: Entry, indent: nat, path: seq<string>, m: map<string, Value>, rest: seq<Line>)
    returns (st': State)
    requires WellFormedKey(e.key) && WellFormed(e.doc)
    requires Ready(st, indent, path, m) && NotDeeper(rest, indent)
    ensures Steps(st, EntryLines(e, indent) + rest) == Steps(st', rest)
    ensures Done(st, st', indent, path, m[e.key := TreeOf(e.doc)])
    decreases e, 0
  {
    hide Steps, Step, Pop, At, Put, Ready, Done, ParseScalar, Show, IsItem;
    hide WellFormedKey, WellFormedLeaf, WellFormedEntries, EntriesLines, RowLines, AddEntries;
    match e.doc
    case Scalar(leaf) =>
      ScalarReadBack(leaf);
      st' := OneLineSteps(st, e.key, Show(leaf), indent, path, m, rest);
    case Rows(gap, rows) =>
      if rows == [] {
        EmptyListReadBack();
        assert e.key + ": " + "[]" == e.key + ": []";
        st' := OneLineSteps(st, e.key, "[]", indent, path, m, rest);
      } else {
        st' := ListSteps(st, e.key, gap, rows, indent, path, m, rest);
      }
    case Tree(gap, entries) =>
      st' := TreeSteps(st, e.key, gap, entries, indent, path, m, rest);
  }

  lemma TreeSteps(st: State, key: string, gap: nat, entries: seq<Entry>, indent: nat, path: seq<string>,
                  m: map<string, Value>, rest: seq<Line>) returns (st': State)
    requires WellFormedKey(key) && WellFormedEntries(entries)
    requires Ready(st, indent, path, m) && NotDeeper(rest, indent)
    ensures Steps(st, [Line(indent, key + ":")] + EntriesLines(entries, indent + 1 + gap) + rest) == Steps(st', rest)
    ensures Done(st, st', indent, path, m[key := Dict(AddEntries(map[], entries))])
    decreases entries, 1
  {
    hide Steps, Step, Pop, At, Put, Ready, Done, AddEntries, WellFormedKey;
    var deeper := indent + 1 + gap;
    var line, block := Line(indent, key + ":"), EntriesLines(entries, deeper) + rest;
    assert [line] + EntriesLines(entries, deeper) + rest == [line] + block;
    EntriesHead(entries, deeper, rest);
    assert Child(indent, First(block)) == Dict(map[]);
    StepsCons(st, line, block);
    var st1 := BareStep(st, indent, path, m, key, First(block));
    MakeReady(st1, deeper, path + [key], map[]);
    st' := EntriesSteps(st1, entries, deeper, path + [key], map[], rest);
    UseDone(st1, st', deeper, path + [key], AddEntries(map[], entries));
    ChildDone(st, st1, st', indent, path, key, m, Dict(map[]), Dict(AddEntries(map[], entries)));
  }

  lemma {:induction false} MakeReady(st: State, indent: nat, path: seq<string>, m: map<string, Value>)
    requires Pop(st.stack, indent) == st.stack && st.stack != [] && Top(st.stack).path == path
    requires At(st.root, path) == Dict(m)
    ensures Ready(st, indent, path, m)
  {
  }

  lemma {:induction false} UseDone(st: State, st': State, indent: nat, path: seq<string>, m: map<string, Value>)
    requires Done(st, st', indent, path, m)
    ensures st'.root == Put(st.root, path, Dict(m))
    ensures forall j: nat | j <= indent :: Pop(st'.stack, j) == Pop(st.stack, j)
  {
  }

  lemma OneLineSteps(st: State, key: string, value: string, indent: nat, path: seq<string>, m: map<string, Value>,
                     rest: seq<Line>) returns (st': State)
    requires Ready(st, indent, path, m) && WellFormedKey(key) && Trimmed(value)
    ensures Steps(st, [Line(indent, key + ": " + value)] + rest) == Steps(st', rest)
    ensures Done(st, st', indent, path, m[key := ParseScalar(value)])
  {
    hide Steps, Step, Ready, Done;
    st' := ScalarStep(st, indent, path, m, key, value, First(rest));
    StepsCons(st, Line(indent, key + ": " + value), rest);
  }

  lemma ListSteps(st: State, key: string, gap: nat, rows: seq<Leaf>, indent: nat, path: seq<string>,
                  m: map<string, Value>, rest: seq<Line>) returns (st': State)
    requires Ready(st, indent, path, m) && WellFormedKey(key)
    requires rows != [] && forall r | r in rows :: WellFormedLeaf(r)
    ensures Steps(st, [Line(indent, key + ":")] + RowLines(rows, indent + 1 + gap) + rest) == Steps(st', rest)
    ensures Done(st, st', indent, path, m[key := Items(Texts(rows))])
  {
    hide Steps, Step, Pop, At, Put, Ready;
    var line, block := Line(indent, key + ":"), RowLines(rows, indent + 1 + gap) + rest;
    assert [line] + RowLines(rows, indent + 1 + gap) + rest == [line] + block;
    assert Child(indent, First(block)) == Items([]);
    StepsCons(st, line, block);
    var st1 := BareStep(st, indent, path, m, key, First(block));
    RowsSteps(st1, rows, indent + 1 + gap, path + [key], [], rest);
    assert [] + Texts(rows) == Texts(rows);
    st' := State(Put(st1.root, path + [key], Items(Texts(rows))), st1.stack);
    ChildDone(st, st1, st', indent, path, key, m, Items([]), Items(Texts(rows)));
  }

  lemma EntriesSteps(st: State, entries: seq<Entry>, indent: nat, path: seq<string>, m: map<string, Value>,
                     rest: seq<Line>)
    returns (st': State)
    requires WellFormedEntries(entries)
    requires Ready(st, indent, path, m) && NotDeeper(rest, indent)
    ensures Steps(st, EntriesLines(entries, indent) + rest) == Steps(st', rest)
    ensures Done(st, st', indent, path, AddEntries(m, entries))
    decreases entries, 0
  {
    hide Steps, Pop, At, Put;
    if entries == [] {
      st' := st;
      PutSame(st.root, path);
      assert EntriesLines(entries, indent) + rest == rest;
    } else {
      var after := EntriesLines(entries[1..], indent) + rest;
      assert EntriesLines(entries, indent) + rest == EntryLines(entries[0], indent) + after;
      EntriesHead(entries[1..], indent, rest);
      var st1 := EntrySteps(st, entries[0], indent, path, m, after);
      var m1 := m[entries[0].key := TreeOf(entries[0].doc)];
      DoneReady(st, st1, indent, path, m, m1);
      st' := EntriesSteps(st1, entries[1..], indent, path, m1, rest);
      DoneDone(st, st1, st', indent, path, m1, AddEntries(m, entries));
    }
  }

  // ------------------------------------------------------------------ the round trip

  /** Printing a document, with any layout, and parsing the text gives back its tree. */
  lemma {:induction false} RoundTrip(entries: seq<Entry>, indent: nat)
    requires WellFormedEntries(entries)
    ensures ParseText(Print(entries, indent)) == Ok(Dict(AddEntries(map[], entries)))
  {
    var lines := EntriesLines(entries, indent);
    EntriesReadable(entries, indent);
    ReadBack(lines);
    SplitJoin(Physical(lines));
    var st := EntriesSteps(START, entries, indent, [], map[], []);
    assert lines + [] == lines;
    StepsNil(st);
  }

  /** With distinct keys the mapping holds exactly the printed entries. */
  lemma {:induction false} DistinctEntries(m: map<string, Value>, entries: seq<Entry>)
    requires forall i, j | 0 <= i < j < |entries| :: entries[i].key != entries[j].key
    ensures forall e | e in entries :: e.key in AddEntries(m, entries) && AddEntries(m, entries)[e.key] == TreeOf(e.doc)
    ensures forall k | k in AddEntries(m, entries) && k !in m :: exists e :: e in entries && e.key == k
    ensures forall k | k in m && (forall e | e in entries :: e.key != k) ::
              k in AddEntries(m, entries) && AddEntries(m, entries)[k] == m[k]
    decreases |entries|
  {
    if entries != [] {
      var m1 := m[entries[0].key := TreeOf(entries[0].doc)];
      DistinctEntries(m1, entries[1..]);
      forall k | k in AddEntries(m, entries) && k !in m ensures exists e :: e in entries && e.key == k {
        if k != entries[0].key {
          assert k !in m1;
          assert k in AddEntries(m1, entries[1..]);
          var e :| e in entries[1..] && e.key == k;
          assert e in entries;
        } else {
          assert entries[0] in entries;
        }
      }
      assert forall e | e in entries[1..] :: e.key != entries[0].key;
      assert entries[0].key in m1;
    }
  }
}
