/** What the section maps of `oslo_config/cfg.py` are made from: which names are one section, and what a file
    assigns. */
module SectionForms {
  import opened Wrappers
  import opened Text
  import opened IniParser
  import opened LineForms
  import opened ConfigFiles

  // The same letter, large or small, or the same character.
  predicate SameLetter(x: char, y: char) {
    || x == y
    || ('A' <= x <= 'Z' && y as int == x as int + 32)
    || ('A' <= y <= 'Z' && x as int == y as int + 32)
  }

  /** Two names are one section when they differ in the size of letters only, except that DEFAULT is only itself. */
  lemma OneSectionIff(a: string, b: string)
    ensures Normalize(a) == Normalize(b) <==>
      || a == b
      || (a != "DEFAULT" && b != "DEFAULT" && |a| == |b| && forall i :: 0 <= i < |a| ==> SameLetter(a[i], b[i]))
  {
    NormalizeIff(a, b);
    if Lower(a) == Lower(b) {
      forall i | 0 <= i < |a| ensures SameLetter(a[i], b[i]) {
        assert Lower(a)[i] == Lower(b)[i];
      }
    }
    if |a| == |b| && forall i :: 0 <= i < |a| ==> SameLetter(a[i], b[i]) {
      assert Lower(a) == Lower(b);
    }
  }

  lemma {:induction false} InSection(before: seq<Event>, name: string, middle: seq<Event>)
    requires Sectioned(before) && forall e :: e in middle ==> !e.NewSection?
    ensures var events := before + [NewSection(name)] + middle;
            CurrentSection(events) == Some(name) && Sectioned(events)
  {
    var events := before + [NewSection(name)] + middle;
    if middle == [] {
      assert events[..|events| - 1] == before && events[|events| - 1] == NewSection(name);
    } else {
      var init, last := middle[..|middle| - 1], middle[|middle| - 1];
      InSection(before, name, init);
      assert events[..|events| - 1] == before + [NewSection(name)] + init && events[|events| - 1] == last;
    }
  }

  /** An assignment goes to the section whose header came last, with its texts as lines. */
  lemma AssignmentAdds(before: seq<Event>, name: string, middle: seq<Event>, key: string, texts: seq<string>)
    requires Sectioned(before) && forall e :: e in middle ==> !e.NewSection?
    ensures var events := before + [NewSection(name)] + middle;
      && Sectioned(events) && Sectioned(events + [Assignment(key, texts)])
      && FileOf(events + [Assignment(key, texts)]) == FileOf(events) + [Entry(name, key, Join(texts, '\n'))]
  {
    hide Join;
    InSection(before, name, middle);
    var events := before + [NewSection(name)] + middle;
    var more := events + [Assignment(key, texts)];
    assert more[..|more| - 1] == events && more[|more| - 1] == Assignment(key, texts);
  }

  /** Headers and comments assign nothing. */
  lemma OthersAddNothing(events: seq<Event>, e: Event)
    requires Sectioned(events) && !e.Assignment?
    ensures Sectioned(events + [e]) && FileOf(events + [e]) == FileOf(events)
  {
    var more := events + [e];
    assert more[..|more| - 1] == events && more[|more| - 1] == e;
  }

  // A file has one content, that of its one reading.
  lemma ContentIs(lines: seq<string>, bs: seq<Block>)
    requires Reads(ClassifyAll(lines), bs) && Sectioned(AllEvents(bs))
    ensures Readable(lines) && Content(lines) == FileOf(AllEvents(bs))
  {
    hide Reads, AllEvents, FileOf, Sectioned;
    assert ReadsAs(lines, bs);
    forall other | ReadsAs(lines, other) ensures other == bs {
      ReadingUnique(ClassifyAll(lines), other, bs);
    }
  }

  /** A header, a key line and the continuation lines after it make a file with one assignment, of all the texts joined
      by line feeds. */
  lemma OneAssignment(lines: seq<string>, name: string, key: string, first: string, texts: seq<string>)
    requires |lines| == |texts| + 2
    requires Classify(lines[0]) == SectionHeader(name) && Classify(lines[1]) == KeyLine(key, first)
    requires forall i :: 0 <= i < |texts| ==> Classify(lines[i + 2]) == Continuation(texts[i])
    ensures Readable(lines) && Content(lines) == [Entry(name, key, Join([first] + texts, '\n'))]
  {
    hide Classify, Join, FileOf, Sectioned, Flatten, AllEvents, CurrentSection;
    var a, b := SectionBlock(name), AssignBlock(key, first, texts);
    SingleBlock(a);
    SingleBlock(b);
    FlattenBoth([a], [b]);
    assert ClassifyAll(lines) == LinesOf(a) + LinesOf(b);
    NoEvents();
    OthersAddNothing([], NewSection(name));
    AssignmentAdds([], name, [], key, [first] + texts);
    assert [] + [NewSection(name)] + [] == EventsOf(a) && [] + [NewSection(name)] == EventsOf(a);
    assert EventsOf(b) == [Assignment(key, [first] + texts)];
    hide LinesOf, EventsOf;
    assert [] + [Entry(name, key, Join([first] + texts, '\n'))] == [Entry(name, key, Join([first] + texts, '\n'))];
    ContentIs(lines, [a] + [b]);
  }

  lemma NoEvents()
    ensures Sectioned([]) && FileOf([]) == []
  {
  }

  /** An assignment before the first header makes a file unreadable. */
  lemma NoSectionYet(lines: seq<string>, key: string, first: string)
    requires lines != [] && Classify(lines[0]) == KeyLine(key, first)
    ensures !Readable(lines)
  {
    hide Classify;
    if Readable(lines) {
      var bs :| ReadsAs(lines, bs);
      FirstBlock(bs, key, first);
      var rest := AllEvents(bs)[1..];
      assert AllEvents(bs)[..0] == [];
      NotSectioned(AllEvents(bs), 0);
    }
  }

  lemma {:induction false} FirstBlock(bs: seq<Block>, key: string, first: string)
    requires Flatten(bs) != [] && Flatten(bs)[0] == KeyLine(key, first)
    ensures AllEvents(bs) != [] && AllEvents(bs)[0].Assignment?
  {
    if bs != [] {
      var init := bs[..|bs| - 1];
      if Flatten(init) == [] {
        if init != [] {
          LastBlock(init);
        }
        assert bs == [bs[0]];
        SingleBlock(bs[0]);
      } else {
        FirstBlock(init, key, first);
      }
    }
  }
}
