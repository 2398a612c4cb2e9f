/** A printed sample file as a configuration file: the assignments a namespace replays from it. */
module SampleContents {
  import opened Wrappers
  import opened Text
  import opened IniParser
  import opened Generator
  import opened SampleReading
  import opened SampleFiles
  import C = ConfigFiles

  // Comments carry no assignment and open no section.
  lemma {:induction false} KeptFile(events: seq<Event>)
    ensures C.CurrentSection(Kept(events)) == C.CurrentSection(events)
    ensures C.Sectioned(Kept(events)) <==> C.Sectioned(events)
    ensures C.Sectioned(events) ==> C.FileOf(Kept(events)) == C.FileOf(events)
  {
    if events != [] {
      var init, e := events[..|events| - 1], events[|events| - 1];
      KeptFile(init);
      assert !e.Comment? ==> Kept(events)[..|Kept(events)| - 1] == Kept(init);
      assert e.Comment? ==> Kept(events) == Kept(init);
    }
  }

  predicate SingleAssignments(events: seq<Event>) {
    forall e :: e in events ==> e.Assignment? && |e.value| == 1
  }

  // The entries of assignments that stand in one section.
  function EntriesIn(section: string, events: seq<Event>): (r: C.File)
    requires SingleAssignments(events)
    ensures |r| == |events|
  {
    seq(|events|, i requires 0 <= i < |events| =>
      assert events[i] in events; C.Entry(section, events[i].key, events[i].value[0]))
  }

  lemma AssignOne(before: seq<Event>, section: string, key: string, value: string)
    requires C.Sectioned(before) && C.CurrentSection(before) == Some(section)
    ensures var after := before + [Assignment(key, [value])];
      && C.Sectioned(after) && C.CurrentSection(after) == Some(section)
      && C.FileOf(after) == C.FileOf(before) + [C.Entry(section, key, value)]
  {
    assert (before + [Assignment(key, [value])])[..|before|] == before;
  }

  lemma {:induction false} AssignedIn(before: seq<Event>, section: string, events: seq<Event>)
    requires C.Sectioned(before) && C.CurrentSection(before) == Some(section) && SingleAssignments(events)
    ensures C.Sectioned(before + events) && C.CurrentSection(before + events) == Some(section)
    ensures C.FileOf(before + events) == C.FileOf(before) + EntriesIn(section, events)
  {
    hide C.Sectioned, C.CurrentSection, C.FileOf;
    if events == [] {
      assert before + events == before;
      assert EntriesIn(section, events) == [];
    } else {
      var init, e := events[..|events| - 1], events[|events| - 1];
      assert e in events;
      AssignedIn(before, section, init);
      AssignOne(before + init, section, e.key, e.value[0]);
      assert e == Assignment(e.key, [e.value[0]]);
      assert before + events == before + init + [e];
      assert EntriesIn(section, events) == EntriesIn(section, init) + [C.Entry(section, e.key, e.value[0])];
    }
  }

  lemma {:induction false} EntriesSingle(opts: seq<SampleOpt>, minimal: bool)
    ensures SingleAssignments(EntriesEvents(opts, minimal))
  {
    hide Unquote, Strip, FormatDefaults;
    if opts != [] {
      EntriesSingle(opts[..|opts| - 1], minimal);
    }
  }

  lemma {:induction false} NamespacesSingle(nss: seq<(string, seq<SampleOpt>)>, minimal: bool)
    ensures SingleAssignments(NamespacesEvents(nss, minimal))
  {
    hide EntriesEvents, AdvancedLast;
    if nss != [] {
      NamespacesSingle(nss[..|nss| - 1], minimal);
      EntriesSingle(AdvancedLast(nss[|nss| - 1].1), minimal);
    }
  }

  // The assignments of a sample, each under the group it was printed in.
  function SampleEntries(gs: seq<Group>, minimal: bool): C.File {
    if gs == [] then []
    else
      var g := gs[|gs| - 1];
      NamespacesSingle(NamespacesByName(g), minimal);
      SampleEntries(gs[..|gs| - 1], minimal) + EntriesIn(g.name, NamespacesEvents(NamespacesByName(g), minimal))
  }

  lemma {:induction false} SampleSectioned(gs: seq<Group>, minimal: bool)
    ensures C.Sectioned(SampleEvents(gs, minimal)) && C.FileOf(SampleEvents(gs, minimal)) == SampleEntries(gs, minimal)
  {
    hide NamespacesEvents;
    if gs != [] {
      var g := gs[|gs| - 1];
      var before := SampleEvents(gs[..|gs| - 1], minimal);
      SampleSectioned(gs[..|gs| - 1], minimal);
      var headed := before + [NewSection(g.name)];
      assert headed[..|headed| - 1] == before;
      NamespacesSingle(NamespacesByName(g), minimal);
      AssignedIn(headed, g.name, NamespacesEvents(NamespacesByName(g), minimal));
    }
  }

  /** A printed sample can be read as a configuration file, and what that file assigns is exactly the printed defaults
      of the required options, each under its group: nothing at all if the sample is not minimal. */
  lemma SampleContent(y: Layout, gs: seq<Group>, minimal: bool)
    requires Indents(y) && (forall g :: g in gs ==> PrintableGroup(g)) && SampleFits(y, gs, minimal)
    ensures var lines := FileLines(LinesText(SampleLines(y, gs, minimal)));
      C.Readable(lines) && C.Content(lines) == SampleEntries(gs, minimal)
  {
    hide SampleLines, SampleEvents, SampleFits, Indents, PrintableGroup, AllEvents, Kept, LinesText, FileLines,
      C.Sectioned, C.FileOf;
    var lines := FileLines(LinesText(SampleLines(y, gs, minimal)));
    SampleParses(y, gs, minimal);
    SampleSectioned(gs, minimal);
    forall bs | Reads(ClassifyAll(lines), bs)
      ensures C.ReadsAs(lines, bs) && C.FileOf(AllEvents(bs)) == SampleEntries(gs, minimal)
    {
      KeptFile(AllEvents(bs));
    }
  }

  lemma {:induction false} FullSampleIsEmpty(gs: seq<Group>)
    ensures SampleEntries(gs, false) == []
  {
    if gs != [] {
      FullSampleIsEmpty(gs[..|gs| - 1]);
      NoNamespaceEvents(NamespacesByName(gs[|gs| - 1]));
    }
  }
}
