/** The line parser of `oslo_config/iniparser.py`, and the block grammar it recognises. */
module IniParser {
  import opened Wrappers
  import opened Text

  datatype ErrorKind = InvalidAssignment | EmptyKey | UnexpectedContinuation | NoSectionEnd | NoSectionName

  datatype ParseError = ParseError(kind: ErrorKind, lineno: nat, line: string)

  // The handler calls a parse makes, in order.
  datatype Event = NewSection(name: string) | Comment(text: string) | Assignment(key: string, value: seq<string>)

  /* ---------- one line at a time ---------- */

  function GetSection(line: string): Result<string, ErrorKind> {
    if line == "" || line[|line| - 1] != ']' then Err(NoSectionEnd)
    else if |line| <= 2 then Err(NoSectionName)
    else Ok(line[1..|line| - 1])
  }

  predicate Quoted(v: string) {
    v != "" && v[0] == v[|v| - 1] && (v[0] == '"' || v[0] == '\'')
  }

  // `value[1:-1]` of a quoted value; a lone quote character leaves nothing.
  function Unquote(v: string): string {
    if !Quoted(v) then v else if |v| == 1 then "" else v[1..|v| - 1]
  }

  function SplitKeyValue(line: string): Result<(string, string), ErrorKind> {
    var colon := Find(line, ':');
    var equal := Find(line, '=');
    if colon < 0 && equal < 0 then
      Err(InvalidAssignment)
    else if colon < 0 || (equal >= 0 && equal < colon) then
      Ok((Strip(line[..equal]), Unquote(Strip(line[equal + 1..]))))
    else
      Ok((Strip(line[..colon]), Unquote(Strip(line[colon + 1..]))))
  }

  predicate NoSeparator(s: string) {
    ':' !in s && '=' !in s
  }

  lemma OtherSeparatorLater(key: string, sep: char, value: string, other: char)
    requires NoSeparator(key) && (sep == ':' || sep == '=') && (other == ':' || other == '=') && other != sep
    ensures Find(key + [sep] + value, other) < 0 || Find(key + [sep] + value, other) > |key|
  {
    var line := key + [sep] + value;
    assert forall i :: 0 <= i < |key| ==> line[i] == key[i];
  }

  // The split happens at the first separator of either kind, and only a line without one is refused.
  lemma SplitsAtFirstSeparator(key: string, sep: char, value: string)
    requires NoSeparator(key) && (sep == ':' || sep == '=')
    ensures SplitKeyValue(key + [sep] + value) == Ok((Strip(key), Unquote(Strip(value))))
    ensures SplitKeyValue(key) == Err(InvalidAssignment)
  {
    hide Strip, Unquote, Find;
    var line := key + [sep] + value;
    FindIn(key, sep, value);
    OtherSeparatorLater(key, sep, value, if sep == ':' then '=' else ':');
    assert line[..|key|] == key && line[|key| + 1..] == value;
  }

  // What a line is by itself, whatever surrounds it.
  datatype Line =
    | Blank
    | Continuation(text: string)
    | SectionHeader(name: string)
    | CommentLine(text: string)
    | KeyLine(key: string, first: string)
    | Malformed(kind: ErrorKind)

  function Classify(raw: string): Line {
    var line := RStrip(raw);
    if line == "" then Blank
    else if line[0] == ' ' || line[0] == '\t' then Continuation(LStrip(line))
    else if line[0] == '[' then
      match GetSection(line)
      case Ok(name) => SectionHeader(name)
      case Err(e) => Malformed(e)
    else if line[0] == '#' || line[0] == ';' then CommentLine(LStrip(line[1..]))
    else
      match SplitKeyValue(line)
      case Ok(kv) => if kv.0 == "" then Malformed(EmptyKey) else KeyLine(kv.0, kv.1)
      case Err(e) => Malformed(e)
  }

  function ClassifyAll(lines: seq<string>): (r: seq<Line>) {
    seq(|lines|, i requires 0 <= i < |lines| => Classify(lines[i]))
  }

  /* ---------- the block grammar ---------- */

  // A file is a sequence of blocks; only an assignment spans more than one line.
  datatype Block =
    | BlankBlock
    | SectionBlock(name: string)
    | CommentBlock(text: string)
    | AssignBlock(key: string, first: string, more: seq<string>)

  function Continuations(texts: seq<string>): (r: seq<Line>)
    ensures |r| == |texts|
  {
    seq(|texts|, i requires 0 <= i < |texts| => Continuation(texts[i]))
  }

  function LinesOf(b: Block): (r: seq<Line>)
    ensures |r| > 0
  {
    match b
    case BlankBlock => [Blank]
    case SectionBlock(name) => [SectionHeader(name)]
    case CommentBlock(text) => [CommentLine(text)]
    case AssignBlock(key, first, more) => [KeyLine(key, first)] + Continuations(more)
  }

  function Flatten(bs: seq<Block>): seq<Line> {
    if bs == [] then [] else Flatten(bs[..|bs| - 1]) + LinesOf(bs[|bs| - 1])
  }

  function EventsOf(b: Block): seq<Event> {
    match b
    case BlankBlock => []
    case SectionBlock(name) => [NewSection(name)]
    case CommentBlock(text) => [Comment(text)]
    case AssignBlock(key, first, more) => [Assignment(key, [first] + more)]
  }

  function AllEvents(bs: seq<Block>): seq<Event> {
    if bs == [] then [] else AllEvents(bs[..|bs| - 1]) + EventsOf(bs[|bs| - 1])
  }

  // bs is a reading of the lines: every line is in exactly one block, in order.
  predicate Reads(lines: seq<Line>, bs: seq<Block>) {
    Flatten(bs) == lines
  }

  ghost predicate Accepts(lines: seq<Line>) {
    exists bs :: Reads(lines, bs)
  }

  // What precedes line n can be read, but not together with line n.
  ghost predicate FirstMisfit(lines: seq<Line>, n: int) {
    0 <= n < |lines| && Accepts(lines[..n]) && !Accepts(lines[..n + 1])
  }

  lemma AddBlock(bs: seq<Block>, b: Block)
    ensures Flatten(bs + [b]) == Flatten(bs) + LinesOf(b)
    ensures AllEvents(bs + [b]) == AllEvents(bs) + EventsOf(b)
  {
    assert (bs + [b])[..|bs|] == bs;
  }

  /* ---------- which inputs the grammar accepts, line by line ---------- */

  predicate InAssignment(l: Line) {
    l.KeyLine? || l.Continuation?
  }

  // Line i may stand where it stands.
  predicate Fits(lines: seq<Line>, i: nat)
    requires i < |lines|
  {
    && !lines[i].Malformed?
    && (lines[i].Continuation? ==> i > 0 && InAssignment(lines[i - 1]))
  }

  predicate AllFit(lines: seq<Line>) {
    forall i :: 0 <= i < |lines| ==> Fits(lines, i)
  }

  lemma BlockLines(b: Block)
    ensures !LinesOf(b)[0].Malformed?
    ensures forall i :: 0 <= i < |LinesOf(b)| ==> (LinesOf(b)[i].Continuation? <==> i > 0)
    ensures forall i :: 0 <= i < |LinesOf(b)| ==> (InAssignment(LinesOf(b)[i]) <==> b.AssignBlock?)
  {
  }

  lemma {:induction false} ReadingFits(bs: seq<Block>)
    ensures AllFit(Flatten(bs))
  {
    hide LinesOf;
    if bs != [] {
      var before, last, lines := Flatten(bs[..|bs| - 1]), LinesOf(bs[|bs| - 1]), Flatten(bs);
      ReadingFits(bs[..|bs| - 1]);
      BlockLines(bs[|bs| - 1]);
      forall i | 0 <= i < |lines| ensures Fits(lines, i) {
        if i < |before| {
          assert Fits(before, i);
        } else {
          assert lines[i] == last[i - |before|];
        }
      }
    }
  }

  // A further continuation line goes to the assignment that is still open.
  lemma Extend(init: seq<Block>, b: Block, text: string)
    requires b.AssignBlock?
    ensures Flatten(init + [b.(more := b.more + [text])]) == Flatten(init + [b]) + [Continuation(text)]
  {
    hide LinesOf;
    AddBlock(init, b);
    AddBlock(init, b.(more := b.more + [text]));
    LongerBlock(b, text);
  }

  lemma LongerBlock(b: Block, text: string)
    requires b.AssignBlock?
    ensures LinesOf(b.(more := b.more + [text])) == LinesOf(b) + [Continuation(text)]
  {
    assert Continuations(b.more + [text]) == Continuations(b.more) + [Continuation(text)];
  }

  // The last line of an input lies in the last block.
  lemma LastBlock(bs: seq<Block>)
    requires bs != []
    ensures Flatten(bs) != []
    ensures bs[|bs| - 1].AssignBlock? <==> InAssignment(Flatten(bs)[|Flatten(bs)| - 1])
  {
    hide LinesOf;
    BlockLines(bs[|bs| - 1]);
  }

  lemma {:induction false} FitsReading(lines: seq<Line>) returns (bs: seq<Block>)
    requires AllFit(lines)
    ensures Reads(lines, bs)
  {
    hide LinesOf;
    if lines == [] {
      bs := [];
    } else {
      var n := |lines| - 1;
      var before, l := lines[..n], lines[n];
      forall i | 0 <= i < n ensures Fits(before, i) {
        assert Fits(lines, i);
      }
      bs := FitsReading(before);
      assert Fits(lines, n) && lines == before + [l];
      if l.Continuation? {
        LastBlock(bs);
        var init, b := bs[..|bs| - 1], bs[|bs| - 1];
        assert bs == init + [b];
        Extend(init, b, l.text);
        bs := init + [b.(more := b.more + [l.text])];
      } else {
        AddBlock(bs, BlockOf(l));
        BlockOfLine(l);
        bs := bs + [BlockOf(l)];
      }
    }
  }

  // The block a line starts.
  function BlockOf(l: Line): Block
    requires !l.Malformed? && !l.Continuation?
  {
    match l
    case Blank => BlankBlock
    case SectionHeader(name) => SectionBlock(name)
    case CommentLine(text) => CommentBlock(text)
    case KeyLine(k, first) => AssignBlock(k, first, [])
  }

  lemma BlockOfLine(l: Line)
    requires !l.Malformed? && !l.Continuation?
    ensures LinesOf(BlockOf(l)) == [l]
  {
  }

  // The grammar accepts exactly the inputs whose every line fits.
  lemma AcceptsIff(lines: seq<Line>)
    ensures Accepts(lines) <==> AllFit(lines)
  {
    if Accepts(lines) {
      var bs :| Reads(lines, bs);
      ReadingFits(bs);
    }
    if AllFit(lines) {
      var bs := FitsReading(lines);
    }
  }

  lemma BlockFromLines(a: Block, b: Block)
    requires LinesOf(a) == LinesOf(b)
    ensures a == b
  {
    assert LinesOf(a)[0] == LinesOf(b)[0];
    if a.AssignBlock? {
      forall i | 0 <= i < |a.more| ensures i < |b.more| && a.more[i] == b.more[i] {
        assert LinesOf(a)[i + 1] == LinesOf(b)[i + 1];
      }
    }
  }

  // The last block is what starts at the last line that is not a continuation.
  lemma TailBlock(lines: seq<Line>, bs: seq<Block>)
    requires Reads(lines, bs) && bs != []
    ensures var n := |lines| - |LinesOf(bs[|bs| - 1])|;
            && n >= 0 && lines[..n] == Flatten(bs[..|bs| - 1]) && lines[n..] == LinesOf(bs[|bs| - 1])
            && !lines[n].Continuation? && (forall i :: n < i < |lines| ==> lines[i].Continuation?)
  {
    hide LinesOf;
    BlockLines(bs[|bs| - 1]);
    var before, last := Flatten(bs[..|bs| - 1]), LinesOf(bs[|bs| - 1]);
    assert lines == before + last;
    assert forall i :: |before| <= i < |lines| ==> lines[i] == last[i - |before|];
  }

  // A continuation line can belong to one block only, so an input has at most one reading.
  lemma {:induction false} ReadingUnique(lines: seq<Line>, a: seq<Block>, b: seq<Block>)
    requires Reads(lines, a) && Reads(lines, b)
    ensures a == b
    decreases |a|
  {
    hide LinesOf;
    if a != [] { TailBlock(lines, a); }
    if b != [] { TailBlock(lines, b); }
    if a != [] && b != [] {
      var m, n := |a| - 1, |b| - 1;
      assert |LinesOf(a[m])| == |LinesOf(b[n])|;
      BlockFromLines(a[m], b[n]);
      ReadingUnique(lines[..|lines| - |LinesOf(a[m])|], a[..m], b[..n]);
      assert a == a[..m] + [a[m]] && b == b[..n] + [b[n]];
    }
  }

  /* ---------- the parser ---------- */

  class BaseParser {
    var lineno: nat
    var events: seq<Event>

    constructor ()
      ensures lineno == 0 && events == []
    {
      lineno, events := 0, [];
    }

    // Without an error the events are those of the one reading of the input; otherwise everything
    // before the first line that no accepted input can continue with has been handled.
    method Parse(lines: seq<string>) returns (err: Option<ParseError>)
      modifies this
      ensures err.None? <==> Accepts(ClassifyAll(lines))
      ensures err.None? ==> lineno == old(lineno) + |lines|
      ensures forall bs :: Reads(ClassifyAll(lines), bs) ==> events == old(events) + AllEvents(bs)
      ensures err.Some? ==>
        && old(lineno) < lineno && FirstMisfit(ClassifyAll(lines), lineno - old(lineno) - 1)
        && err.value.lineno == lineno && err.value.line == RStrip(lines[lineno - old(lineno) - 1])
        && err.value.kind == KindOf(Classify(lines[lineno - old(lineno) - 1]))
        && forall bs :: Reads(ClassifyAll(lines)[..lineno - old(lineno) - 1], bs) ==>
             events == old(events) + AllEvents(bs)
    {
      hide Classify, RStrip, LinesOf, EventsOf, Emitted, Opened, Misplaced;
      var key: Option<string> := None;
      var value: seq<string> := [];
      var i := 0;
      err := None;
      ghost var all := ClassifyAll(lines);
      ghost var bs: seq<Block> := [];
      while i < |lines|
        invariant 0 <= i <= |lines|
        invariant err.None? && lineno == old(lineno) + i
        invariant Reads(all[..i], bs)
        invariant Pending(bs, key, value, events, old(events))
      {
        ghost var key0, value0, events0 := key, value, events;
        err, key, value := HandleLine(lines[i], key, value);
        if err.Some? {
          ErrorAt(all, i, bs, key0, value0, events0, old(events));
          return;
        }
        bs := TakeLine(bs, all[i], key0, value0, events0, old(events));
        assert all[..i + 1] == all[..i] + [all[i]];
        i := i + 1;
      }
      assert all[..|lines|] == all && Reads(all, bs);
      if key.Some? {
        FlushPending(bs, key, value, events, old(events));
        key, value := HandleAssignment(key.value, value);
      }
      forall bs' | Reads(all, bs') ensures bs' == bs {
        ReadingUnique(all, bs', bs);
      }
    }

    // One turn of the loop.
    method HandleLine(raw: string, key: Option<string>, value: seq<string>)
      returns (err: Option<ParseError>, key': Option<string>, value': seq<string>)
      modifies this
      ensures lineno == old(lineno) + 1
      ensures err.Some? <==> Misplaced(Classify(raw), key)
      ensures err.Some? ==> err.value.lineno == lineno && err.value.line == RStrip(raw)
      ensures err.Some? ==> err.value.kind == KindOf(Classify(raw))
      ensures events == old(events) + Emitted(Classify(raw), key, value)
      ensures err.None? ==> (key', value') == Opened(Classify(raw), key, value)
    {
      lineno := lineno + 1;
      err, key', value' := None, key, value;
      var line := RStrip(raw);
      if line == "" {
        if key'.Some? {
          key', value' := HandleAssignment(key'.value, value');
        }
      } else if line[0] == ' ' || line[0] == '\t' {
        if key'.None? {
          err := Some(ParseError(UnexpectedContinuation, lineno, line));
        } else {
          value' := value' + [LStrip(line)];
        }
      } else {
        if key'.Some? {
          key', value' := HandleAssignment(key'.value, value');
        }
        if line[0] == '[' {
          var section := GetSection(line);
          if section.Err? {
            err := Some(ParseError(section.error, lineno, line));
          } else {
            events := events + [NewSection(section.value)];
          }
        } else if line[0] == '#' || line[0] == ';' {
          events := events + [Comment(LStrip(line[1..]))];
        } else {
          var kv := SplitKeyValue(line);
          if kv.Err? {
            err := Some(ParseError(kv.error, lineno, line));
          } else if kv.value.0 == "" {
            err := Some(ParseError(EmptyKey, lineno, line));
          } else {
            key', value' := Some(kv.value.0), [kv.value.1];
          }
        }
      }
    }

    method HandleAssignment(key: string, value: seq<string>) returns (key': Option<string>, value': seq<string>)
      modifies this`events
      ensures events == old(events) + [Assignment(key, value)]
      ensures key' == None && value' == []
    {
      events := events + [Assignment(key, value)];
      return None, [];
    }
  }

  /* ---------- one turn of the loop against the grammar ---------- */

  // What is wrong with a line that fits nowhere.
  function KindOf(l: Line): ErrorKind {
    if l.Malformed? then l.kind else UnexpectedContinuation
  }

  predicate Misplaced(l: Line, key: Option<string>) {
    l.Malformed? || (l.Continuation? && key.None?)
  }

  // The handler calls of a line: first the assignment it closes, then its own.
  function Emitted(l: Line, key: Option<string>, value: seq<string>): seq<Event> {
    (if key.Some? && !l.Continuation? then [Assignment(key.value, value)] else [])
    + (match l
       case SectionHeader(name) => [NewSection(name)]
       case CommentLine(text) => [Comment(text)]
       case _ => [])
  }

  // The assignment that is open after a line.
  function Opened(l: Line, key: Option<string>, value: seq<string>): (Option<string>, seq<string>) {
    match l
    case Continuation(text) => (key, value + [text])
    case KeyLine(k, first) => (Some(k), [first])
    case _ => (None, if key.Some? then [] else value)
  }

  // While an assignment is open its event is still to come.
  ghost predicate Pending(bs: seq<Block>, key: Option<string>, value: seq<string>, events: seq<Event>,
                          before: seq<Event>) {
    if bs != [] && bs[|bs| - 1].AssignBlock? then
      var b := bs[|bs| - 1];
      && key == Some(b.key) && value == [b.first] + b.more
      && events == before + AllEvents(bs[..|bs| - 1])
    else
      key.None? && events == before + AllEvents(bs)
  }

  lemma TakeLine(bs: seq<Block>, l: Line, key: Option<string>, value: seq<string>, events: seq<Event>,
                 before: seq<Event>)
    returns (bs': seq<Block>)
    requires Pending(bs, key, value, events, before) && !Misplaced(l, key)
    ensures Flatten(bs') == Flatten(bs) + [l]
    ensures Pending(bs', Opened(l, key, value).0, Opened(l, key, value).1, events + Emitted(l, key, value), before)
  {
    hide LinesOf;
    if l.Continuation? {
      var init, b := bs[..|bs| - 1], bs[|bs| - 1];
      assert bs == init + [b];
      Extend(init, b, l.text);
      bs' := init + [b.(more := b.more + [l.text])];
      assert bs'[..|bs'| - 1] == init;
      assert events + Emitted(l, key, value) == events;
    } else {
      bs' := bs + [BlockOf(l)];
      AddBlock(bs, BlockOf(l));
      BlockOfLine(l);
      StartPending(l, bs, key, value, events, before);
    }
  }

  lemma StartPending(l: Line, bs: seq<Block>, key: Option<string>, value: seq<string>,
                     events: seq<Event>, before: seq<Event>)
    requires !l.Malformed? && !l.Continuation? && Pending(bs, key, value, events, before)
    ensures Pending(bs + [BlockOf(l)], Opened(l, key, value).0, Opened(l, key, value).1,
                    events + Emitted(l, key, value), before)
  {
    if key.Some? {
      FlushPending(bs, key, value, events, before);
    } else {
      assert events + [] == events;
    }
    EmittedBlock(l, key, value, events, before, bs);
    AddBlock(bs, BlockOf(l));
    assert (bs + [BlockOf(l)])[..|bs|] == bs;
  }

  lemma EmittedBlock(l: Line, key: Option<string>, value: seq<string>, events: seq<Event>, before: seq<Event>,
                     bs: seq<Block>)
    requires !l.Malformed? && !l.Continuation?
    requires events + (if key.Some? then [Assignment(key.value, value)] else []) == before + AllEvents(bs)
    ensures l.KeyLine? ==> events + Emitted(l, key, value) == before + AllEvents(bs)
    ensures !l.KeyLine? ==> events + Emitted(l, key, value) == before + (AllEvents(bs) + EventsOf(BlockOf(l)))
  {
    var flushed := if key.Some? then [Assignment(key.value, value)] else [];
    var own := if l.KeyLine? then [] else EventsOf(BlockOf(l));
    assert Emitted(l, key, value) == flushed + own;
    assert events + (flushed + own) == (events + flushed) + own;
    assert (before + AllEvents(bs)) + own == before + (AllEvents(bs) + own);
  }

  lemma FlushPending(bs: seq<Block>, key: Option<string>, value: seq<string>, events: seq<Event>, before: seq<Event>)
    requires Pending(bs, key, value, events, before) && key.Some?
    ensures events + [Assignment(key.value, value)] == before + AllEvents(bs)
  {
    var init, b := bs[..|bs| - 1], bs[|bs| - 1];
    assert EventsOf(b) == [Assignment(key.value, value)];
    assert (before + AllEvents(init)) + EventsOf(b) == before + (AllEvents(init) + EventsOf(b));
  }

  // The first line that does not fit ends every hope of a reading, and no assignment is left open before it.
  lemma ErrorAt(lines: seq<Line>, i: nat, bs: seq<Block>, key: Option<string>, value: seq<string>,
                events: seq<Event>, before: seq<Event>)
    requires i < |lines| && Reads(lines[..i], bs) && Pending(bs, key, value, events, before)
    requires Misplaced(lines[i], key)
    ensures FirstMisfit(lines, i) && !Accepts(lines)
    ensures forall bs' :: !Reads(lines, bs')
    ensures forall bs' :: Reads(lines[..i], bs') ==> events + Emitted(lines[i], key, value) == before + AllEvents(bs')
  {
    hide Emitted;
    MisplacedMisfit(lines, i, bs, key, value, events, before);
    AllEmitted(lines[i], bs, key, value, events, before);
    forall bs' | Reads(lines[..i], bs') ensures bs' == bs {
      ReadingUnique(lines[..i], bs', bs);
    }
  }

  lemma MisplacedMisfit(lines: seq<Line>, i: nat, bs: seq<Block>, key: Option<string>, value: seq<string>,
                        events: seq<Event>, before: seq<Event>)
    requires i < |lines| && Reads(lines[..i], bs) && Pending(bs, key, value, events, before)
    requires Misplaced(lines[i], key)
    ensures FirstMisfit(lines, i) && !Accepts(lines)
  {
    hide AllEvents, LinesOf;
    if bs != [] { LastBlock(bs); }
    assert !Fits(lines, i) && !Fits(lines[..i + 1], i);
    AcceptsIff(lines);
    AcceptsIff(lines[..i + 1]);
  }

  lemma AllEmitted(l: Line, bs: seq<Block>, key: Option<string>, value: seq<string>, events: seq<Event>,
                   before: seq<Event>)
    requires Pending(bs, key, value, events, before) && Misplaced(l, key)
    ensures events + Emitted(l, key, value) == before + AllEvents(bs)
  {
    if key.Some? {
      FlushPending(bs, key, value, events, before);
    } else {
      assert events + [] == events;
    }
  }
}
