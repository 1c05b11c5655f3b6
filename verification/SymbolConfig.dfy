/**
  The dependency-free YAML subset parser of the symbol configuration: a quote-aware comment
  stripper, a recursive scalar reader and an indentation stack machine.
*/
module SymbolConfig {
  import opened PyText

  datatype Value = Text(text: string) | Items(items: seq<Value>) | Dict(entries: map<string, Value>)

  datatype Error = BadIndentation | BadListItem | BadLine | BadMapping

  datatype Result<+T> = Ok(value: T) | Err(error: Error)

  // ------------------------------------------------------------------ comments

  /** The quote that is open after c, when `open` was open before it. */
  function NextQuote(open: Option<char>, c: char): Option<char> {
    if c != '\'' && c != '"' then open
    else match open
      case Some(q) => if q == c then None else open
      case None => Some(c)
  }

  /** The part of a line before its first unquoted '#'. */
  function Uncommented(line: string, open: Option<char>): (r: string)
    ensures r <= line
  {
    if line == [] || (line[0] == '#' && open.None?) then []
    else [line[0]] + Uncommented(line[1..], NextQuote(open, line[0]))
  }

  /** The quote open at the end of a line, unless an unquoted '#' comes first. */
  function OpenAtEnd(line: string, open: Option<char>): Option<char> {
    if line == [] then open
    else if line[0] == '#' && open.None? then None
    else OpenAtEnd(line[1..], NextQuote(open, line[0]))
  }

  function StripComment(line: string): string {
    RStrip(Uncommented(line, None))
  }

  /** Without a '#' the scan keeps everything, which is what the fast path returns. */
  lemma {:induction false} FastPath(line: string, open: Option<char>)
    requires '#' !in line
    ensures Uncommented(line, open) == line
  {
    if line != [] {
      FastPath(line[1..], NextQuote(open, line[0]));
    }
  }

  method StripCommentLoop(line: string) returns (r: string)
    ensures r == StripComment(line)
  {
    if '#' !in line {
      FastPath(line, None);
      return RStrip(line);
    }
    r := Scan(line);
    r := RStrip(r);
  }

  lemma {:induction false} UncommentedCons(c: char, rest: string, open: Option<char>)
    ensures Uncommented([c] + rest, open)
            == if c == '#' && open.None? then [] else [c] + Uncommented(rest, NextQuote(open, c))
  {
    assert ([c] + rest)[1..] == rest;
  }

  lemma HashKeepsQuote(open: Option<char>)
    ensures NextQuote(open, '#') == open
  {
  }

  /** The quote flags after one more character. */
  method UpdateQuote(inQuote: bool, quoteChar: char, c: char) returns (inQuote': bool, quoteChar': char)
    ensures (if inQuote' then Some(quoteChar') else None) == NextQuote(if inQuote then Some(quoteChar) else None, c)
  {
    inQuote', quoteChar' := inQuote, quoteChar;
    if c == '\'' || c == '"' {
      if inQuote && c == quoteChar {
        inQuote', quoteChar' := false, '\0';
      } else if !inQuote {
        inQuote', quoteChar' := true, c;
      }
    }
  }

  method Scan(line: string) returns (result: string)
    ensures result == Uncommented(line, None)
  {
    hide Uncommented, NextQuote;
    var inQuote, quoteChar := false, '\0';
    result := "";
    ghost var open: Option<char> := None;
    for i := 0 to |line|
      invariant open == if inQuote then Some(quoteChar) else None
      invariant Uncommented(line, None) == result + Uncommented(line[i..], open)
    {
      var c := line[i];
      assert line[i..] == [c] + line[i + 1..];
      UncommentedCons(c, line[i + 1..], open);
      HashKeepsQuote(open);
      open := NextQuote(open, c);
      inQuote, quoteChar := UpdateQuote(inQuote, quoteChar, c);
      if c == '#' && !inQuote {
        return;
      }
      ghost var tail := Uncommented(line[i + 1..], open);
      assert (result + [c]) + tail == result + ([c] + tail);
      result := result + [c];
    }
  }

  // ------------------------------------------------------------------ scalars

  predicate Bracketed(s: string) {
    s != [] && s[0] == '[' && s[|s| - 1] == ']'
  }

  predicate QuotedBy(s: string, q: char) {
    s != [] && s[0] == q && s[|s| - 1] == q
  }

  /** `s[1:-1]`, which is empty for a single character. */
  function Inner(s: string): (r: string)
    ensures |r| <= |s|
    ensures s != [] ==> |r| < |s|
  {
    if |s| < 2 then [] else s[1..|s| - 1]
  }

  function ParseScalar(raw: string): Value
    decreases |raw|, 0
  {
    var value := Strip(raw);
    if value == [] then Text([])
    else if Bracketed(value) then
      var inner := Strip(Inner(value));
      if inner == [] then Items([]) else Items(ParseScalars(Split(inner, ','), |inner|))
    else if QuotedBy(value, '"') || QuotedBy(value, '\'') then Text(Inner(value))
    else Text(value)
  }

  function ParseScalars(parts: seq<string>, ghost bound: nat): seq<Value>
    requires forall p | p in parts :: |p| <= bound
    decreases bound, |parts|
  {
    if parts == [] then [] else [ParseScalar(parts[0])] + ParseScalars(parts[1..], bound)
  }

  lemma {:induction false} ScalarsExactly(parts: seq<string>, bound: nat)
    requires forall p | p in parts :: |p| <= bound
    ensures |ParseScalars(parts, bound)| == |parts|
    ensures forall k | 0 <= k < |parts| :: ParseScalars(parts, bound)[k] == ParseScalar(parts[k])
    decreases |parts|
  {
    hide ParseScalar;
    if parts != [] {
      ScalarsExactly(parts[1..], bound);
    }
  }

  /** A scalar is trimmed; in brackets it is a list of scalars separated by commas, between two equal
      quotes the text between them, and otherwise itself. */
  lemma ScalarExactly(raw: string)
    ensures var v, r := Strip(raw), ParseScalar(raw);
            var inner := if |v| >= 2 then v[1..|v| - 1] else "";
            if v == "" then r == Text("")
            else if v[0] == '[' && v[|v| - 1] == ']' then
              && r.Items?
              && if Strip(inner) == "" then r.items == []
                 else var parts := Split(Strip(inner), ',');
                      |r.items| == |parts| && forall k | 0 <= k < |parts| :: r.items[k] == ParseScalar(parts[k])
            else if v[0] == v[|v| - 1] && v[0] in {'"', '\''} then r == Text(inner)
            else r == Text(v)
  {
    hide Strip;
    var inner := Strip(Inner(Strip(raw)));
    ScalarsExactly(Split(inner, ','), |inner|);
    hide ParseScalars;
  }

  // ------------------------------------------------------------------ logical lines

  datatype Line = Line(indent: nat, content: string)

  /** What the first loop keeps of a text line: nothing, or its indentation and its content. */
  function LogicalLine(raw: string): seq<Line> {
    var line := StripComment(raw);
    if Strip(line) == [] then [] else [Line(Indent(line), Strip(line))]
  }

  function LogicalLines(lines: seq<string>): seq<Line> {
    if lines == [] then [] else LogicalLine(lines[0]) + LogicalLines(lines[1..])
  }

  // ------------------------------------------------------------------ the stack machine

  /** The value at a key path; a path that leads nowhere gives an empty text. */
  function At(v: Value, path: seq<string>): Value {
    if path == [] then v
    else if v.Dict? && path[0] in v.entries then At(v.entries[path[0]], path[1..])
    else Text([])
  }

  function Put(v: Value, path: seq<string>, x: Value): Value {
    if path == [] then x
    else if v.Dict? && path[0] in v.entries then
      Dict(v.entries[path[0] := Put(v.entries[path[0]], path[1..], x)])
    else v
  }

  /** A stack entry: an indentation and the open container, named by its key path from the root. */
  datatype Frame = Frame(indent: int, path: seq<string>)

  datatype State = State(root: Value, stack: seq<Frame>)

  const START := State(Dict(map[]), [Frame(-1, [])])

  function Top(stack: seq<Frame>): Frame
    requires stack != []
  {
    stack[|stack| - 1]
  }

  function Pop(stack: seq<Frame>, indent: nat): (r: seq<Frame>)
    ensures r <= stack
    ensures r == [] || Top(r).indent < indent
  {
    if stack == [] || Top(stack).indent < indent then stack else Pop(stack[..|stack| - 1], indent)
  }

  predicate IsItem(content: string) {
    "- " <= content
  }

  /** The container a bare key opens, decided by the first deeper line after it. */
  function Child(indent: nat, next: Option<Line>): Value {
    if next.Some? && indent < next.value.indent && IsItem(next.value.content) then Items([]) else Dict(map[])
  }

  /** What one line does to the container it belongs to: its new value, and the key it opens, if any. */
  datatype Effect = Effect(parent: Value, opens: Option<string>)

  function Interpret(parent: Value, line: Line, next: Option<Line>): (r: Result<Effect>)
    ensures r != Err(BadIndentation)
    ensures r.Ok? ==> !r.value.parent.Text?
    ensures r.Ok? && r.value.opens.Some? ==>
              && r.value.parent.Dict? && r.value.opens.value in r.value.parent.entries
              && !r.value.parent.entries[r.value.opens.value].Text?
  {
    if IsItem(line.content) then
      if !parent.Items? then Err(BadListItem)
      else Ok(Effect(Items(parent.items + [ParseScalar(line.content[2..])]), None))
    else match Find(line.content, ':')
      case None => Err(BadLine)
      case Some(i) =>
        var key, value := Strip(line.content[..i]), Strip(line.content[i + 1..]);
        if !parent.Dict? then Err(BadMapping)
        else if value != [] then Ok(Effect(Dict(parent.entries[key := ParseScalar(value)]), None))
        else Ok(Effect(Dict(parent.entries[key := Child(line.indent, next)]), Some(key)))
  }

  function Step(st: State, line: Line, next: Option<Line>): Result<State> {
    var stack := Pop(st.stack, line.indent);
    if stack == [] then Err(BadIndentation)
    else
      var path := Top(stack).path;
      match Interpret(At(st.root, path), line, next)
      case Err(e) => Err(e)
      case Ok(effect) => Ok(State(Put(st.root, path, effect.parent), Push(stack, line.indent, effect.opens)))
  }

  /** Which lines are errors, by the container that they belong to. */
  lemma ErrorsExactly(st: State, line: Line, next: Option<Line>)
    requires Pop(st.stack, line.indent) != []
    ensures var container := At(st.root, Top(Pop(st.stack, line.indent)).path);
            var item, r := |line.content| >= 2 && line.content[..2] == "- ", Step(st, line, next);
            && (r == Err(BadListItem) <==> item && !container.Items?)
            && (r == Err(BadLine) <==> !item && ':' !in line.content)
            && (r == Err(BadMapping) <==> !item && ':' in line.content && !container.Dict?)
            && r != Err(BadIndentation)
  {
    hide Pop, At, ParseScalar, Strip, Child;
    assert IsItem(line.content) <==> |line.content| >= 2 && line.content[..2] == "- ";
  }

  function Push(stack: seq<Frame>, indent: int, opens: Option<string>): seq<Frame>
    requires stack != []
  {
    match opens
    case None => stack
    case Some(key) => stack + [Frame(indent, Top(stack).path + [key])]
  }

  function First(lines: seq<Line>): Option<Line> {
    if lines == [] then None else Some(lines[0])
  }

  function Steps(st: State, lines: seq<Line>): Result<State>
    decreases |lines|
  {
    if lines == [] then Ok(st)
    else match Step(st, lines[0], First(lines[1..]))
      case Ok(st') => Steps(st', lines[1..])
      case Err(e) => Err(e)
  }

  lemma {:induction false} StepsNil(st: State)
    ensures Steps(st, []) == Ok(st)
  {
  }

  lemma {:induction false} StepsCons(st: State, line: Line, rest: seq<Line>)
    ensures Steps(st, [line] + rest)
            == match Step(st, line, First(rest))
               case Ok(st') => Steps(st', rest)
               case Err(e) => Err(e)
  {
    hide Step;
    assert ([line] + rest)[1..] == rest;
  }

  function ParseLines(lines: seq<string>): Result<Value> {
    match Steps(START, LogicalLines(lines))
    case Ok(st) => Ok(st.root)
    case Err(e) => Err(e)
  }

  /** `_parse_simple_yaml` as a function of the text. */
  function ParseText(text: string): Result<Value> {
    ParseLines(SplitLines(text))
  }

  // ------------------------------------------------------------------ what the stack holds

  /** Strictly deeper from entry to entry, each naming a child of the container below it. */
  ghost predicate AncestorChain(stack: seq<Frame>) {
    && stack != [] && stack[0] == Frame(-1, [])
    && forall k | 0 < k < |stack| ::
        && stack[k - 1].indent < stack[k].indent
        && |stack[k].path| == k
        && stack[k].path[..k - 1] == stack[k - 1].path
  }

  /** The chain is intact and every entry names a container that is still in the tree. */
  ghost predicate Sound(st: State) {
    && AncestorChain(st.stack)
    && forall k | 0 <= k < |st.stack| :: !At(st.root, st.stack[k].path).Text?
  }

  lemma {:induction false} PopSound(root: Value, stack: seq<Frame>, indent: nat)
    requires Sound(State(root, stack))
    ensures Sound(State(root, Pop(stack, indent)))
  {
    if Top(stack).indent >= indent {
      PopSound(root, stack[..|stack| - 1], indent);
    }
  }

  lemma {:induction false} AtRoot(v: Value)
    ensures At(v, []) == v
  {
  }

  lemma {:induction false} AtPut(v: Value, path: seq<string>, x: Value)
    requires !At(v, path).Text?
    ensures At(Put(v, path, x), path) == x
  {
    if path != [] {
      AtPut(v.entries[path[0]], path[1..], x);
    }
  }

  lemma {:induction false} PutPut(v: Value, path: seq<string>, x: Value, y: Value)
    ensures Put(Put(v, path, x), path, y) == Put(v, path, y)
  {
    if path != [] && v.Dict? && path[0] in v.entries {
      PutPut(v.entries[path[0]], path[1..], x, y);
    }
  }

  lemma {:induction false} AtChild(v: Value, path: seq<string>, key: string)
    requires At(v, path).Dict? && key in At(v, path).entries
    ensures At(v, path + [key]) == At(v, path).entries[key]
  {
    if path != [] {
      AtChild(v.entries[path[0]], path[1..], key);
      assert (path + [key])[1..] == path[1..] + [key];
    }
  }

  /** Writing to a child is writing its parent with the child replaced. */
  lemma {:induction false} PutChild(v: Value, path: seq<string>, key: string, x: Value)
    requires At(v, path).Dict? && key in At(v, path).entries
    ensures Put(v, path + [key], x) == Put(v, path, Dict(At(v, path).entries[key := x]))
  {
    if path != [] {
      PutChild(v.entries[path[0]], path[1..], key, x);
      assert (path + [key])[1..] == path[1..] + [key];
    }
  }

  /** Writing to a container leaves the containers above it what they are. */
  lemma {:induction false} PutBelow(v: Value, above: seq<string>, path: seq<string>, x: Value)
    requires above <= path && |above| < |path| && !At(v, path).Text?
    ensures At(v, above).Dict? && At(Put(v, path, x), above).Dict?
  {
    if above != [] {
      PutBelow(v.entries[path[0]], above[1..], path[1..], x);
    }
  }

  lemma ChainPrefixes(stack: seq<Frame>, k: nat)
    requires AncestorChain(stack) && k < |stack|
    ensures stack[k].path <= Top(stack).path && |stack[k].path| == k
  {
    if k + 1 < |stack| {
      ChainPrefixes(stack[..|stack| - 1], k);
      assert stack[|stack| - 1].path[..|stack| - 2] == stack[|stack| - 2].path;
    }
  }

  /** Replacing the innermost container keeps every open container in the tree. */
  lemma {:induction false} PutTopSound(st: State, x: Value)
    requires Sound(st) && !x.Text?
    ensures Sound(st.(root := Put(st.root, Top(st.stack).path, x)))
    ensures At(Put(st.root, Top(st.stack).path, x), Top(st.stack).path) == x
  {
    var path := Top(st.stack).path;
    var root' := Put(st.root, path, x);
    hide At, Put;
    AtPut(st.root, path, x);
    forall k | 0 <= k < |st.stack| - 1 ensures At(root', st.stack[k].path).Dict? {
      ChainPrefixes(st.stack, k);
      ChainPrefixes(st.stack, |st.stack| - 1);
      PutBelow(st.root, st.stack[k].path, path, x);
    }
  }

  /** Opening a child of the innermost container. */
  lemma {:induction false} PushSound(root: Value, stack: seq<Frame>, indent: int, key: string)
    requires Sound(State(root, stack)) && Top(stack).indent < indent
    requires At(root, Top(stack).path).Dict? && key in At(root, Top(stack).path).entries
    requires !At(root, Top(stack).path).entries[key].Text?
    ensures Sound(State(root, Push(stack, indent, Some(key))))
  {
    AtChild(root, Top(stack).path, key);
    ChainPrefixes(stack, |stack| - 1);
    var pushed := Push(stack, indent, Some(key));
    assert Top(pushed).path[..|stack| - 1] == Top(stack).path;
  }

  /** A step never finds the stack empty, and it keeps the stack sound. */
  lemma StepSound(st: State, line: Line, next: Option<Line>)
    requires Sound(st)
    ensures Pop(st.stack, line.indent) != [] && Sound(st.(stack := Pop(st.stack, line.indent)))
    ensures Step(st, line, next) != Err(BadIndentation)
    ensures Step(st, line, next).Ok? ==> Sound(Step(st, line, next).value)
  {
    PopSound(st.root, st.stack, line.indent);
    var popped := st.(stack := Pop(st.stack, line.indent));
    match Interpret(At(st.root, Top(popped.stack).path), line, next)
    case Err(_) =>
    case Ok(effect) =>
      PutTopSound(popped, effect.parent);
      if effect.opens.Some? {
        PushSound(Put(st.root, Top(popped.stack).path, effect.parent), popped.stack, line.indent, effect.opens.value);
      }
  }

  /** Over every text: the stack is the ancestor chain at every line, and the indentation error
      cannot be raised. */
  lemma {:induction false} StackIsAncestorChain(st: State, lines: seq<Line>)
    requires Sound(st)
    ensures Steps(st, lines) != Err(BadIndentation)
    ensures Steps(st, lines).Ok? ==> Sound(Steps(st, lines).value)
    decreases |lines|
  {
    if lines != [] {
      var next := First(lines[1..]);
      StepSound(st, lines[0], next);
      if Step(st, lines[0], next).Ok? {
        StackIsAncestorChain(Step(st, lines[0], next).value, lines[1..]);
      }
    }
  }

  lemma IndentationErrorUnreachable(text: string)
    ensures ParseText(text) != Err(BadIndentation)
  {
    StackIsAncestorChain(START, LogicalLines(SplitLines(text)));
  }

  // ------------------------------------------------------------------ the parser as it runs

  method CollectLines(text: string) returns (items: seq<Line>)
    ensures items == LogicalLines(SplitLines(text))
  {
    hide LogicalLine;
    items := [];
    var lines := SplitLines(text);
    for i := 0 to |lines|
      invariant LogicalLines(lines) == items + LogicalLines(lines[i..])
    {
      var kept := KeepLine(lines[i]);
      assert lines[i..] == [lines[i]] + lines[i + 1..];
      items := items + kept;
    }
  }

  method KeepLine(raw: string) returns (kept: seq<Line>)
    ensures kept == LogicalLine(raw)
  {
    var line := StripCommentLoop(raw);
    kept := if Strip(line) == [] then [] else [Line(Indent(line), Strip(line))];
  }

  method PopStack(stack0: seq<Frame>, indent: nat) returns (stack: seq<Frame>)
    ensures stack == Pop(stack0, indent)
  {
    stack := stack0;
    while stack != [] && indent <= Top(stack).indent
      invariant Pop(stack, indent) == Pop(stack0, indent)
      decreases |stack|
    {
      stack := stack[..|stack| - 1];
    }
  }

  method InterpretLine(parent: Value, line: Line, next: Option<Line>) returns (r: Result<Effect>)
    ensures r == Interpret(parent, line, next)
  {
    hide ParseScalar, Strip, Find;
    if IsItem(line.content) {
      if !parent.Items? {
        return Err(BadListItem);
      }
      return Ok(Effect(Items(parent.items + [ParseScalar(line.content[2..])]), None));
    }
    var separator := Find(line.content, ':');
    if separator.None? {
      return Err(BadLine);
    }
    var key, value := Strip(line.content[..separator.value]), Strip(line.content[separator.value + 1..]);
    if !parent.Dict? {
      return Err(BadMapping);
    }
    if value != [] {
      return Ok(Effect(Dict(parent.entries[key := ParseScalar(value)]), None));
    }
    var child := Dict(map[]);
    if next.Some? && next.value.indent > line.indent {
      child := if IsItem(next.value.content) then Items([]) else Dict(map[]);
    }
    return Ok(Effect(Dict(parent.entries[key := child]), Some(key)));
  }

  /** The parse loop. */
  method ParseItems(items: seq<Line>) returns (r: Result<State>)
    ensures r == Steps(START, items)
  {
    hide Steps, Interpret, At, Put, Pop;
    var st := START;
    assert At(START.root, []) == START.root by { AtRoot(START.root); }
    for index := 0 to |items|
      invariant Sound(st)
      invariant Steps(START, items) == Steps(st, items[index..])
    {
      var line := items[index];
      var next := if index + 1 < |items| then Some(items[index + 1]) else None;
      assert items[index..] == [line] + items[index + 1..];
      StepsCons(st, line, items[index + 1..]);
      StepSound(st, line, next);
      var stack := PopStack(st.stack, line.indent);
      var path := Top(stack).path;
      var effect := InterpretLine(At(st.root, path), line, next);
      if effect.Err? {
        return Err(effect.error);
      }
      st := State(Put(st.root, path, effect.value.parent), Push(stack, line.indent, effect.value.opens));
    }
    StepsNil(st);
    return Ok(st);
  }

  method ParseSimpleYaml(text: string) returns (r: Result<Value>)
    ensures r == ParseText(text)
  {
    var items := CollectLines(text);
    var parsed := ParseItems(items);
    r := match parsed case Ok(st) => Ok(st.root) case Err(e) => Err(e);
  }
}
