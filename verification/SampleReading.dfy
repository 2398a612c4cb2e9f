/** What `oslo_config/iniparser.py` reads in a file line by line, when it has no continuation lines, and what gives away
    one that says more than it should. */
module SampleReading {
  import opened Wrappers
  import opened IniParser

  /* ---------- files without continuation lines ---------- */

  // The handler calls of a line by itself, comments left out; None where it depends on its neighbours or is wrong.
  function LineSays(line: string): Option<seq<Event>> {
    match Classify(line)
    case Blank => Some([])
    case CommentLine(_) => Some([])
    case SectionHeader(name) => Some([NewSection(name)])
    case KeyLine(key, first) => Some([Assignment(key, [first])])
    case _ => None
  }

  function Says(lines: seq<string>): Option<seq<Event>> {
    if lines == [] then Some([])
    else
      var before, own := Says(lines[..|lines| - 1]), LineSays(lines[|lines| - 1]);
      if before.None? || own.None? then None else Some(before.value + own.value)
  }

  // The events without the comments.
  function Kept(events: seq<Event>): seq<Event> {
    if events == [] then []
    else
      Kept(events[..|events| - 1])
      + (if events[|events| - 1].Comment? then [] else [events[|events| - 1]])
  }

  lemma {:induction false} KeptAppend(a: seq<Event>, b: seq<Event>)
    ensures Kept(a + b) == Kept(a) + Kept(b)
  {
    if b == [] {
      assert a + b == a;
    } else {
      assert (a + b)[..|a + b| - 1] == a + b[..|b| - 1];
      KeptAppend(a, b[..|b| - 1]);
    }
  }

  lemma {:induction false} SaysAppend(a: seq<string>, b: seq<string>)
    ensures Says(a + b) ==
      if Says(a).None? || Says(b).None? then None else Some(Says(a).value + Says(b).value)
  {
    hide LineSays;
    if b == [] {
      assert a + b == a;
      assert Says(a).Some? ==> Says(a).value + [] == Says(a).value;
    } else {
      var init, last := b[..|b| - 1], b[|b| - 1];
      assert (a + b)[..|a + b| - 1] == a + init;
      SaysAppend(a, init);
      var x, y, z := Says(a), Says(init), LineSays(last);
      assert x.Some? && y.Some? && z.Some? ==> x.value + y.value + z.value == x.value + (y.value + z.value);
    }
  }

  lemma SaysOne(line: string)
    ensures Says([line]) == LineSays(line)
  {
    hide LineSays;
    assert [line][..0] == [];
    assert LineSays(line).Some? ==> [] + LineSays(line).value == LineSays(line).value;
  }

  // Such a file has one reading, a block for every line.
  lemma {:induction false} SaysReading(lines: seq<string>) returns (bs: seq<Block>)
    requires Says(lines).Some?
    ensures Reads(ClassifyAll(lines), bs) && Kept(AllEvents(bs)) == Says(lines).value
  {
    hide Classify, LinesOf, EventsOf;
    if lines == [] {
      bs := [];
    } else {
      var init, last := lines[..|lines| - 1], lines[|lines| - 1];
      bs := SaysReading(init);
      var b := BlockOf(Classify(last));
      AddBlock(bs, b);
      BlockOfLine(Classify(last));
      assert ClassifyAll(lines) == ClassifyAll(init) + [Classify(last)];
      KeptAppend(AllEvents(bs), EventsOf(b));
      KeptBlock(last);
      bs := bs + [b];
    }
  }

  lemma KeptBlock(line: string)
    requires LineSays(line).Some?
    ensures Kept(EventsOf(BlockOf(Classify(line)))) == LineSays(line).value
  {
    hide Classify;
    var l := Classify(line);
    if !l.Blank? {
      KeptOne(EventsOf(BlockOf(l))[0]);
      assert EventsOf(BlockOf(l)) == [EventsOf(BlockOf(l))[0]];
      assert l.KeyLine? ==> [l.first] + [] == [l.first];
    }
  }

  lemma KeptOne(e: Event)
    ensures Kept([e]) == if e.Comment? then [] else [e]
  {
    assert [e][..0] == [];
  }

  lemma SaysAllReadings(lines: seq<string>)
    requires Says(lines).Some?
    ensures Accepts(ClassifyAll(lines))
    ensures forall bs :: Reads(ClassifyAll(lines), bs) ==> Kept(AllEvents(bs)) == Says(lines).value
  {
    hide Says, Kept, Flatten, Reads;
    var bs := SaysReading(lines);
    forall other | Reads(ClassifyAll(lines), other) ensures other == bs {
      ReadingUnique(ClassifyAll(lines), other, bs);
    }
  }

  /* ---------- files that say something else ---------- */

  // A line that makes a handler call of its own.
  predicate Heavy(l: Line) {
    l.SectionHeader? || l.KeyLine?
  }

  function Count(ls: seq<Line>): nat {
    if ls == [] then 0 else Count(ls[..|ls| - 1]) + (if Heavy(ls[|ls| - 1]) then 1 else 0)
  }

  lemma {:induction false} CountAppend(a: seq<Line>, b: seq<Line>)
    ensures Count(a + b) == Count(a) + Count(b)
  {
    if b == [] {
      assert a + b == a;
    } else {
      assert (a + b)[..|a + b| - 1] == a + b[..|b| - 1];
      CountAppend(a, b[..|b| - 1]);
    }
  }

  lemma {:induction false} CountContinuations(ls: seq<Line>)
    requires forall l :: l in ls ==> !Heavy(l)
    ensures Count(ls) == 0
  {
    if ls != [] {
      CountContinuations(ls[..|ls| - 1]);
    }
  }

  lemma CountBlock(b: Block)
    ensures Count(LinesOf(b)) == |Kept(EventsOf(b))|
  {
    var first, rest := LinesOf(b)[..1], LinesOf(b)[1..];
    assert LinesOf(b) == first + rest;
    CountAppend(first, rest);
    CountContinuations(rest);
    assert first[..0] == [] && first == [LinesOf(b)[0]];
    if !b.BlankBlock? {
      KeptOne(EventsOf(b)[0]);
    }
  }

  // A reading has as many events besides comments as it has such lines.
  lemma {:induction false} CountReading(bs: seq<Block>)
    ensures |Kept(AllEvents(bs))| == Count(Flatten(bs))
  {
    hide LinesOf, EventsOf;
    if bs != [] {
      var init, b := bs[..|bs| - 1], bs[|bs| - 1];
      CountReading(init);
      CountBlock(b);
      CountAppend(Flatten(init), LinesOf(b));
      KeptAppend(AllEvents(init), EventsOf(b));
    }
  }

  // A line that fits nowhere, or a continuation line right after one that it cannot continue.
  ghost predicate Broken(ls: seq<Line>) {
    exists i :: 0 <= i < |ls| && BrokenAt(ls, i)
  }

  predicate BrokenAt(ls: seq<Line>, i: nat)
    requires i < |ls|
  {
    ls[i].Malformed? || (ls[i].Continuation? && i > 0 && !InAssignment(ls[i - 1]))
  }

  lemma BrokenAppend(a: seq<Line>, b: seq<Line>)
    ensures Broken(a) || Broken(b) ==> Broken(a + b)
  {
    if Broken(a) {
      var i :| 0 <= i < |a| && BrokenAt(a, i);
      assert BrokenAt(a + b, i);
    } else if Broken(b) {
      var i :| 0 <= i < |b| && BrokenAt(b, i);
      assert BrokenAt(a + b, |a| + i);
    }
  }

  // The lines say es and no more if they are fit; otherwise they cannot be read, or make more calls than that.
  ghost predicate Tells(lines: seq<string>, es: seq<Event>, fit: bool) {
    && Count(ClassifyAll(lines)) >= |es|
    && (if fit then Says(lines) == Some(es) else Broken(ClassifyAll(lines)) || Count(ClassifyAll(lines)) > |es|)
  }

  lemma TellsAppend(a: seq<string>, ea: seq<Event>, fa: bool, b: seq<string>, eb: seq<Event>, fb: bool)
    requires Tells(a, ea, fa) && Tells(b, eb, fb)
    ensures Tells(a + b, ea + eb, fa && fb)
  {
    hide Says, Count, Classify, Broken;
    SaysAppend(a, b);
    assert ClassifyAll(a + b) == ClassifyAll(a) + ClassifyAll(b);
    CountAppend(ClassifyAll(a), ClassifyAll(b));
    BrokenAppend(ClassifyAll(a), ClassifyAll(b));
  }

  lemma {:induction false} SaysCount(lines: seq<string>)
    requires Says(lines).Some?
    ensures Count(ClassifyAll(lines)) == |Says(lines).value|
  {
    hide Classify;
    if lines != [] {
      var init, last := lines[..|lines| - 1], lines[|lines| - 1];
      SaysCount(init);
      assert ClassifyAll(lines)[..|lines| - 1] == ClassifyAll(init);
    }
  }

  lemma FitTells(lines: seq<string>, es: seq<Event>)
    requires Says(lines) == Some(es)
    ensures Tells(lines, es, true)
  {
    SaysCount(lines);
  }

  predicate AllQuiet(lines: seq<string>) {
    forall l :: l in lines ==> LineSays(l) == Some([])
  }

  lemma {:induction false} QuietSays(lines: seq<string>)
    requires AllQuiet(lines)
    ensures Says(lines) == Some([])
  {
    hide LineSays;
    if lines != [] {
      assert LineSays(lines[|lines| - 1]) == Some([]);
      QuietSays(lines[..|lines| - 1]);
      assert Says(lines).value == [];
    }
  }

  lemma {:induction false} CountOne(ls: seq<Line>, i: nat)
    requires i < |ls| && Heavy(ls[i])
    ensures Count(ls) > 0
    decreases |ls|
  {
    if i < |ls| - 1 {
      CountOne(ls[..|ls| - 1], i);
    }
  }

  // Lines after a comment say nothing exactly when they are comments or blank: the first one that is not gives itself
  // away.
  lemma QuietTells(lines: seq<string>)
    requires lines != [] && LineSays(lines[0]) == Some([])
    ensures Tells(lines, [], AllQuiet(lines))
  {
    if AllQuiet(lines) {
      QuietSays(lines);
      FitTells(lines, []);
    } else {
      var i := FirstLoud(lines);
      var ls := ClassifyAll(lines);
      if Heavy(ls[i]) {
        CountOne(ls, i);
      } else {
        assert BrokenAt(ls, i);
      }
    }
  }

  lemma FirstLoud(lines: seq<string>) returns (i: nat)
    requires lines != [] && LineSays(lines[0]) == Some([]) && !AllQuiet(lines)
    ensures 0 < i < |lines| && LineSays(lines[i]) != Some([]) && LineSays(lines[i - 1]) == Some([])
  {
    hide LineSays;
    i := 1;
    assert lines[..1] == [lines[0]] && lines[..|lines|] == lines;
    while i < |lines| && LineSays(lines[i]) == Some([])
      invariant 0 < i <= |lines| && LineSays(lines[i - 1]) == Some([])
      invariant AllQuiet(lines[..i])
    {
      assert lines[..i + 1] == lines[..i] + [lines[i]];
      i := i + 1;
    }
  }

  // Whether the lines are fit can be seen from what the parser makes of them.
  lemma TellsVerdict(lines: seq<string>, es: seq<Event>, fit: bool)
    requires Tells(lines, es, fit)
    ensures fit <==>
      (Accepts(ClassifyAll(lines)) && forall bs :: Reads(ClassifyAll(lines), bs) ==> Kept(AllEvents(bs)) == es)
  {
    hide Says, Kept, Flatten, Count, ClassifyAll;
    if fit {
      SaysAllReadings(lines);
    } else if Accepts(ClassifyAll(lines)) {
      var ls := ClassifyAll(lines);
      AcceptsIff(ls);
      NotBroken(ls);
      var bs :| Reads(ls, bs);
      CountReading(bs);
      assert Flatten(bs) == ls;
    }
  }

  lemma NotBroken(ls: seq<Line>)
    requires AllFit(ls)
    ensures !Broken(ls)
  {
    forall i | 0 <= i < |ls| ensures !BrokenAt(ls, i) {
      assert Fits(ls, i);
    }
  }
}
