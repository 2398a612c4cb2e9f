/** What the configuration parser reads in the sample files the generator prints. */
module SampleFiles {
  import opened Wrappers
  import opened Text
  import opened IniParser
  import opened Sorting
  import opened Generator
  import opened SampleReading

  /* ---------- the kinds of printed lines ---------- */

  predicate Remark(line: string) {
    OneLine(line) && (line == "" || line[0] == '#')
  }

  predicate AllRemarks(lines: seq<string>) {
    forall l :: l in lines ==> Remark(l)
  }

  lemma RStripStart(s: string)
    requires s != "" && !IsSpace(s[0])
    ensures RStrip(s) != "" && RStrip(s)[0] == s[0]
  {
    RStripCut(s);
    var tail := s[|RStrip(s)|..];
    assert |RStrip(s)| == 0 ==> tail == s;
  }

  lemma RemarkSays(line: string)
    requires Remark(line)
    ensures LineSays(line) == Some([])
  {
    if line != "" {
      RStripStart(line);
    }
  }

  predicate PlainDest(dest: string) {
    && dest != "" && Stripped(dest) && NoSeparator(dest) && OneLine(dest)
    && dest[0] != '[' && dest[0] != '#' && dest[0] != ';'
  }

  lemma {:induction false} RStripConcat(a: string, b: string)
    requires a != "" && !IsSpace(a[|a| - 1])
    ensures RStrip(a + b) == a + RStrip(b)
  {
    if b == "" {
      assert a + b == a;
    } else {
      assert (a + b)[..|a + b| - 1] == a + b[..|b| - 1];
      if IsSpace(b[|b| - 1]) {
        RStripConcat(a, b[..|b| - 1]);
      }
    }
  }

  // A key and a value as the generator writes them: the value is what is left of the text without its outer
  // white space and without its quotes.
  lemma DefaultLineSays(dest: string, default: string)
    requires PlainDest(dest)
    ensures LineSays(DefaultLine(dest, default, true)) == Some([Assignment(dest, [Unquote(Strip(default))])])
  {
    hide LStrip, RStrip, Unquote, SplitKeyValue, Find;
    var rest := if default == "" then "" else " " + default;
    var line := dest + " =" + rest;
    assert DefaultLine(dest, default, true) == line by { assert "" + dest == dest; }
    var cut := dest + " " + ['='] + RStrip(rest);
    assert RStrip(line) == cut by { RStripConcat(dest + " =", rest); }
    KeyOfLine(dest, RStrip(rest));
    RStripTwice(rest);
    SpaceBefore(default);
    assert cut[0] == dest[0];
  }

  lemma KeyOfLine(dest: string, rest: string)
    requires PlainDest(dest)
    ensures SplitKeyValue(dest + " " + ['='] + rest) == Ok((dest, Unquote(Strip(rest))))
  {
    hide LStrip, RStrip, Unquote, SplitKeyValue, Find;
    SplitsAtFirstSeparator(dest + " ", '=', rest);
    StripPadded("", dest, " ");
    assert "" + dest + " " == dest + " ";
  }

  lemma RStripTwice(s: string)
    ensures Strip(RStrip(s)) == Strip(s)
  {
    RStripCut(s);
    RStripTail(RStrip(s), "");
    assert RStrip(s) + "" == RStrip(s);
  }

  lemma StripPieces(s: string) returns (before: string, after: string)
    ensures s == before + Strip(s) + after && AllSpace(before) && AllSpace(after)
  {
    var r := RStrip(s);
    RStripCut(s);
    LStripCut(r);
    before, after := r[..|r| - |LStrip(r)|], s[|r|..];
    assert s == r + after && r == before + LStrip(r);
  }

  lemma SpaceBefore(s: string)
    ensures Strip(if s == "" then "" else " " + s) == Strip(s)
  {
    hide Strip;
    var before, after := StripPieces(s);
    StripIsStripped(s);
    assert " " + s == (" " + before) + Strip(s) + after;
    StripPadded(" " + before, Strip(s), after);
  }

  lemma HeaderSays(name: string)
    requires name != ""
    ensures LineSays("[" + name + "]") == Some([NewSection(name)])
  {
    var line := "[" + name + "]";
    assert line[1..|line| - 1] == name;
  }

  /* ---------- what the printer may be given ---------- */

  // `textwrap.wrap` puts its indents before every line it returns and adds no newline.
  ghost predicate Indents(y: Layout) {
    forall line, l :: l in y.wrap(line, y.width) ==> l != "" && l[0] == '#' && (OneLine(line) ==> OneLine(l))
  }

  // Where help is not wrapped only its first line is marked as a comment; the others have to be comments, or blank, by
  // themselves.
  predicate HelpFits(y: Layout, text: string) {
    y.width == 0 ==> AllQuiet(Split("# " + text, '\n'))
  }

  predicate OneLineDefault(d: Default) {
    match d
    case Single(value, sample) => (value.Some? ==> OneLine(value.value)) && (sample.Some? ==> OneLine(sample.value))
    case Multi(values, samples) => AllOneLine(values) && (samples.Some? ==> AllOneLine(samples.value))
  }

  predicate OneLineLimits(o: SampleOpt) {
    && (o.minimum.Some? ==> OneLine(o.minimum.value)) && (o.maximum.Some? ==> OneLine(o.maximum.value))
    && (forall c :: c in o.choices && c.Some? ==> OneLine(c.value))
  }

  predicate OneLineFormers(o: SampleOpt) {
    forall f :: f in o.formers ==> OneLine(f.group) && OneLine(f.name)
  }

  predicate Printable(o: SampleOpt) {
    && PlainDest(o.dest) && (o.removal.Some? ==> OneLine(o.removal.value.since))
    && OneLineLimits(o) && OneLineFormers(o) && OneLineDefault(o.default)
  }

  predicate PrintableNamespace(ns: (string, seq<SampleOpt>)) {
    OneLine(ns.0) && forall o :: o in ns.1 ==> Printable(o)
  }

  predicate PrintableGroup(g: Group) {
    && g.name != "" && OneLine(g.name)
    && forall ns :: ns in g.namespaces ==> PrintableNamespace(ns)
  }

  /* ---------- help that stays a comment ---------- */

  predicate OptFits(y: Layout, o: SampleOpt)
    requires Formats(o)
  {
    HelpFits(y, HelpText(o)) && ReasonFits(y, o.removal)
  }

  // Of an option that is not printed nothing is asked.
  predicate EntryFits(y: Layout, o: SampleOpt, minimal: bool) {
    !(minimal && !o.required) && Formats(o) ==> OptFits(y, o)
  }

  predicate NamespaceFits(y: Layout, ns: (string, seq<SampleOpt>), minimal: bool) {
    forall o :: o in ns.1 ==> EntryFits(y, o, minimal)
  }

  predicate GroupFits(y: Layout, g: Group, minimal: bool) {
    (g.help != "" ==> HelpFits(y, g.help)) && forall ns :: ns in g.namespaces ==> NamespaceFits(y, ns, minimal)
  }

  /* ---------- remarks ---------- */

  lemma {:induction false} HelpEachRemarks(y: Layout, lines: seq<string>)
    requires Indents(y) && AllOneLine(lines)
    ensures AllRemarks(HelpEach(y, lines))
  {
    if lines != [] {
      HelpEachRemarks(y, lines[..|lines| - 1]);
      assert OneLine(lines[|lines| - 1]);
    }
  }

  lemma HelpTells(y: Layout, text: string)
    requires Indents(y)
    ensures Prints(HelpLines(y, text), [], HelpFits(y, text))
  {
    hide Split, Tells;
    if y.width > 0 {
      FileLinesOneLine(text);
      HelpEachRemarks(y, FileLines(text));
      RemarksPrint(HelpEach(y, FileLines(text)));
    } else {
      var lines := Split("# " + text, '\n');
      OnePhysical("# " + text);
      FirstIsComment(text);
      QuietTells(lines);
    }
  }

  lemma OnePhysical(l: string)
    ensures Physical([l]) == Split(l, '\n')
  {
    assert [l][..0] == [];
  }

  lemma FirstIsComment(text: string)
    ensures LineSays(Split("# " + text, '\n')[0]) == Some([])
  {
    hide LineSays;
    var s := "# " + text;
    SplitPieces(s, '\n');
    assert Split(s, '\n')[0] in Split(s, '\n');
    assert Split(s, '\n')[0] != "" && Split(s, '\n')[0][0] == '#';
    RemarkSays(Split(s, '\n')[0]);
  }

  lemma {:induction false} ChoicesOneLine(cs: seq<Option<string>>)
    requires forall c :: c in cs && c.Some? ==> OneLine(c.value)
    ensures OneLine(ChoiceTexts(cs))
  {
    if |cs| > 1 {
      ChoicesOneLine(cs[..|cs| - 1]);
    }
  }

  lemma RemarkText(a: string, b: string)
    requires Remark(a) && a != "" && OneLine(b)
    ensures Remark(a + b)
  {
  }

  lemma LimitRemarks(o: SampleOpt)
    requires OneLineLimits(o)
    ensures AllRemarks(LimitLines(o))
  {
    hide Remark;
    LimitTexts();
    ChoicesOneLine(o.choices);
    if o.minimum.Some? { RemarkText("# Minimum value: ", o.minimum.value); }
    if o.maximum.Some? { RemarkText("# Maximum value: ", o.maximum.value); }
    RemarkText("# Allowed values: ", ChoiceTexts(o.choices));
  }

  lemma Remark3(a: string, b: string, c: string)
    requires Remark(a) && a != "" && OneLine(b) && OneLine(c)
    ensures Remark(a + b + c) && Remark(a + b)
  {
  }

  lemma LimitTexts()
    ensures Remark("# Minimum value: ") && Remark("# Maximum value: ") && Remark("# Allowed values: ")
    ensures Remark(MUTABLE_NOTE)
  {
    Remark3("# Note: This option ", "can be changed ", "without restarting.");
  }

  lemma FormerRemarks(o: SampleOpt, groupName: string)
    requires OneLineFormers(o) && OneLine(o.dest) && OneLine(groupName)
    ensures AllRemarks(FormerLines(o, groupName))
  {
    forall i | 0 <= i < |o.formers| ensures Remark(FormerLines(o, groupName)[i]) {
      assert o.formers[i] in o.formers;
    }
  }

  lemma HeadRemarks(r: Removal)
    requires OneLine(r.since)
    ensures AllRemarks(RemovalHead(r))
  {
    hide Remark;
    RemovalTexts();
    RemarkText(REMOVAL_SINCE, r.since);
    RemarkText(REMOVAL_SINCE + r.since, ".");
  }

  predicate ReasonFits(y: Layout, removal: Option<Removal>) {
    removal.Some? && removal.value.reason != "" ==> HelpFits(y, "Reason: " + removal.value.reason)
  }

  lemma RemovalTells(y: Layout, removal: Option<Removal>)
    requires Indents(y) && (removal.Some? ==> OneLine(removal.value.since))
    ensures Prints(RemovalLines(y, removal), [], ReasonFits(y, removal))
  {
    hide AllRemarks, HelpLines, Prints, HelpFits, RemovalHead;
    if removal.Some? {
      var r := removal.value;
      HeadRemarks(r);
      if r.reason != "" {
        HelpTells(y, "Reason: " + r.reason);
        PrintsAround(RemovalHead(r), HelpLines(y, "Reason: " + r.reason), [], HelpFits(y, "Reason: " + r.reason));
      } else {
        RemarksPrint(RemovalHead(r));
        assert RemovalHead(r) + [] == RemovalHead(r);
      }
    } else {
      NoRemarks();
      RemarksPrint([]);
    }
  }

  lemma NoRemarks()
    ensures AllRemarks([])
  {
  }

  lemma RemovalTexts()
    ensures Remark(REMOVAL_SINCE) && Remark(REMOVAL) && Remark(MAY_BE_IGNORED)
  {
    Remark3("# This option is ", "deprecated for ", "removal since ");
    Remark3("# This option is ", "deprecated for ", "removal.");
    Remark3("# Its value may be ", "silently ignored ", "in the future.");
  }

  lemma RemarksTell(y: Layout, o: SampleOpt, groupName: string)
    requires Indents(y) && Printable(o) && OneLine(groupName) && Formats(o)
    ensures Prints(Remarks(y, o, groupName), [], OptFits(y, o))
  {
    hide HelpLines, LimitLines, RemovalLines, FormerLines, AdvancedLines, Remark, HelpFits, ReasonFits, Prints,
      HelpText;
    LimitRemarks(o);
    FormerRemarks(o, groupName);
    DestOneLine(o.dest);
    PlainLines(o);
    var help, middle := HelpLines(y, HelpText(o)), LimitLines(o) + FormerLines(o, groupName);
    var removal, fits := RemovalLines(y, o.removal), ReasonFits(y, o.removal);
    HelpTells(y, HelpText(o));
    RemovalTells(y, o.removal);
    PrintsAround(help, middle, [], HelpFits(y, HelpText(o)));
    PrintsAppend(help + middle, [], HelpFits(y, HelpText(o)), removal, [], fits);
    var none: seq<Event> := [];
    assert none + none == none;
    PrintsAround(help + middle + removal, AdvancedLines(o), [], OptFits(y, o));
    assert Remarks(y, o, groupName) == help + middle + removal + AdvancedLines(o);
  }

  lemma AdvancedText1()
    ensures Remark(ADVANCED_1)
  {
    Remark3("# Advanced Option: ", "intended for ", "advanced users ");
    Remark3("# Advanced Option: " + "intended for ", "advanced users ", "and not used");
  }

  lemma AdvancedText2()
    ensures Remark(ADVANCED_2)
  {
    Remark3("# by the majority ", "of users, and might ", "have a significant");
  }

  lemma AdvancedText3()
    ensures Remark(ADVANCED_3)
  {
    Remark3("# effect on ", "stability and/or ", "performance.");
  }

  lemma FailureTexts()
    ensures Remark(FAILED) && Remark(NO_STARTSWITH)
  {
    Remark3("# Warning: Failed ", "to format sample ", "for ");
    Remark3("# 'NoneType' object ", "has no attribute ", "'startswith'");
  }

  lemma PlainLines(o: SampleOpt)
    requires OneLine(o.dest)
    ensures AllRemarks(AdvancedLines(o)) && AllRemarks(FailureLines(o))
  {
    hide Remark;
    AdvancedText1();
    AdvancedText2();
    AdvancedText3();
    FailureTexts();
    RemarkText(FAILED, o.dest);
  }

  /* ---------- the events of a sample ---------- */

  function DefaultEvents(dest: string, defaults: seq<string>): (r: seq<Event>)
    ensures |r| == |defaults|
  {
    seq(|defaults|, i requires 0 <= i < |defaults| => Assignment(dest, [Unquote(Strip(defaults[i]))]))
  }

  // The assignments an option's lines are read as.
  function OptEvents(o: SampleOpt): seq<Event> {
    DefaultEvents(o.dest, FormatDefaults(o.default))
  }

  function EntryEvents(o: SampleOpt, minimal: bool): seq<Event> {
    if minimal && o.required && Formats(o) then OptEvents(o) else []
  }

  function EntriesEvents(opts: seq<SampleOpt>, minimal: bool): seq<Event> {
    if opts == [] then []
    else EntriesEvents(opts[..|opts| - 1], minimal) + EntryEvents(opts[|opts| - 1], minimal)
  }

  function NamespacesEvents(nss: seq<(string, seq<SampleOpt>)>, minimal: bool): seq<Event> {
    if nss == [] then []
    else NamespacesEvents(nss[..|nss| - 1], minimal) + EntriesEvents(AdvancedLast(nss[|nss| - 1].1), minimal)
  }

  function SampleEvents(gs: seq<Group>, minimal: bool): seq<Event> {
    if gs == [] then []
    else
      var g := gs[|gs| - 1];
      SampleEvents(gs[..|gs| - 1], minimal) + [NewSection(g.name)] + NamespacesEvents(NamespacesByName(g), minimal)
  }

  // What a file with these lines tells.
  ghost predicate Prints(lines: seq<string>, es: seq<Event>, fit: bool) {
    Tells(Physical(lines), es, fit)
  }

  lemma PrintsAppend(a: seq<string>, ea: seq<Event>, fa: bool, b: seq<string>, eb: seq<Event>, fb: bool)
    requires Prints(a, ea, fa) && Prints(b, eb, fb)
    ensures Prints(a + b, ea + eb, fa && fb)
  {
    hide Tells, Physical;
    PhysicalAppend(a, b);
    TellsAppend(Physical(a), ea, fa, Physical(b), eb, fb);
  }

  lemma RemarksPrint(lines: seq<string>)
    requires AllRemarks(lines)
    ensures Prints(lines, [], true)
  {
    hide LineSays, Says;
    forall l | l in lines ensures OneLine(l) && LineSays(l) == Some([]) {
      assert Remark(l);
      RemarkSays(l);
    }
    PhysicalOneLine(lines);
    QuietSays(lines);
    FitTells(lines, []);
  }

  // Remarks before or after lines change nothing.
  lemma PrintsAround(a: seq<string>, b: seq<string>, es: seq<Event>, fit: bool)
    ensures AllRemarks(a) && Prints(b, es, fit) ==> Prints(a + b, es, fit)
    ensures Prints(a, es, fit) && AllRemarks(b) ==> Prints(a + b, es, fit)
  {
    hide Prints, Remark;
    assert [] + es == es && es + [] == es;
    if AllRemarks(a) && Prints(b, es, fit) {
      RemarksPrint(a);
      PrintsAppend(a, [], true, b, es, fit);
    }
    if Prints(a, es, fit) && AllRemarks(b) {
      RemarksPrint(b);
      PrintsAppend(a, es, fit, b, [], true);
    }
  }

  // A line that says something prints it.
  lemma LinePrints(line: string, es: seq<Event>)
    requires OneLine(line) && LineSays(line) == Some(es)
    ensures Prints([line], es, true)
  {
    hide LineSays;
    SaysOne(line);
    PhysicalOneLine([line]);
    FitTells([line], es);
  }

  lemma {:induction false} DefaultsPrint(dest: string, defaults: seq<string>)
    requires PlainDest(dest) && AllOneLine(defaults)
    ensures Prints(DefaultLines(dest, defaults, true), DefaultEvents(dest, defaults), true)
  {
    hide Prints, LineSays, Unquote, Strip;
    if defaults == [] {
      RemarksPrint([]);
      assert DefaultLines(dest, defaults, true) == [];
    } else {
      var init, d := defaults[..|defaults| - 1], defaults[|defaults| - 1];
      DefaultsPrint(dest, init);
      assert OneLine(d);
      DefaultLineSays(dest, d);
      LineOneLine(dest, d);
      var own := [Assignment(dest, [Unquote(Strip(d))])];
      LinePrints(DefaultLine(dest, d, true), own);
      PrintsAppend(DefaultLines(dest, init, true), DefaultEvents(dest, init), true, [DefaultLine(dest, d, true)], own,
                   true);
      assert DefaultLines(dest, defaults, true) == DefaultLines(dest, init, true) + [DefaultLine(dest, d, true)];
      assert DefaultEvents(dest, defaults) == DefaultEvents(dest, init) + own;
    }
  }

  lemma LineOneLine(dest: string, default: string)
    requires OneLine(dest) && OneLine(default)
    ensures OneLine(DefaultLine(dest, default, true)) && Remark(DefaultLine(dest, default, false))
  {
  }

  lemma DefaultsOneLine(d: Default)
    requires OneLineDefault(d)
    ensures AllOneLine(FormatDefaults(d))
  {
    assert OneLine("<None>");
    match d
    case Single(_, _) =>
    case Multi(values, samples) =>
      QuotedOneLine(values);
      if samples.Some? { QuotedOneLine(samples.value); }
  }

  lemma QuotedOneLine(vs: seq<string>)
    requires AllOneLine(vs)
    ensures AllOneLine(QuoteAll(vs))
  {
    forall i | 0 <= i < |vs| ensures OneLine(QuoteAll(vs)[i]) {
      assert OneLine(vs[i]);
    }
  }

  lemma CommentedDefaults(dest: string, defaults: seq<string>)
    requires OneLine(dest) && AllOneLine(defaults)
    ensures AllRemarks(DefaultLines(dest, defaults, false))
  {
    forall i | 0 <= i < |defaults| ensures Remark(DefaultLines(dest, defaults, false)[i]) {
      assert OneLine(defaults[i]);
      LineOneLine(dest, defaults[i]);
    }
  }

  lemma OptPrints(y: Layout, o: SampleOpt, groupName: string, minimal: bool)
    requires Indents(y) && Printable(o) && OneLine(groupName) && Formats(o)
    ensures Prints(OptLines(y, o, groupName, minimal), if minimal then OptEvents(o) else [], OptFits(y, o))
  {
    hide Remarks, FormatDefaults, DefaultLines, Prints, Indents, OneLineDefault, OptFits, Unquote, Strip, PlainDest;
    var ds := FormatDefaults(o.default);
    DefaultsOneLine(o.default);
    RemarksTell(y, o, groupName);
    var es := if minimal then OptEvents(o) else [];
    if minimal {
      DefaultsPrint(o.dest, ds);
    } else {
      DestOneLine(o.dest);
      CommentedDefaults(o.dest, ds);
      RemarksPrint(DefaultLines(o.dest, ds, false));
    }
    PrintsAppend(Remarks(y, o, groupName), [], OptFits(y, o), DefaultLines(o.dest, ds, minimal), es, true);
    assert [] + es == es;
  }

  lemma DestOneLine(dest: string)
    requires PlainDest(dest)
    ensures OneLine(dest)
  {
  }

  lemma EntryPrints(y: Layout, o: SampleOpt, groupName: string, minimal: bool)
    requires Indents(y) && Printable(o) && OneLine(groupName)
    ensures Prints(EntryLines(y, o, groupName, minimal), EntryEvents(o, minimal), EntryFits(y, o, minimal))
  {
    hide OptLines, FailureLines, OptEvents, OptFits, Indents, Prints, PlainDest;
    if minimal && !o.required {
      RemarksPrint([]);
    } else if Formats(o) {
      OptPrints(y, o, groupName, minimal);
      PrintsAround([""], OptLines(y, o, groupName, minimal), if minimal then OptEvents(o) else [], OptFits(y, o));
    } else {
      DestOneLine(o.dest);
      PlainLines(o);
      RemarksPrint(FailureLines(o));
      PrintsAround([""], FailureLines(o), [], true);
    }
  }

  lemma {:induction false} EntriesPrint(y: Layout, opts: seq<SampleOpt>, groupName: string, minimal: bool)
    requires Indents(y) && (forall o :: o in opts ==> Printable(o)) && OneLine(groupName)
    ensures Prints(EntriesLines(y, opts, groupName, minimal), EntriesEvents(opts, minimal),
                   forall o :: o in opts ==> EntryFits(y, o, minimal))
  {
    hide EntryLines, EntryEvents, EntryFits, Printable, Indents, OneLine, Prints;
    if opts == [] {
      RemarksPrint([]);
    } else {
      var init, o := opts[..|opts| - 1], opts[|opts| - 1];
      EntriesPrint(y, init, groupName, minimal);
      EntryPrints(y, o, groupName, minimal);
      PrintsAppend(EntriesLines(y, init, groupName, minimal), EntriesEvents(init, minimal),
                   forall o' :: o' in init ==> EntryFits(y, o', minimal),
                   EntryLines(y, o, groupName, minimal), EntryEvents(o, minimal), EntryFits(y, o, minimal));
      assert opts == init + [o];
    }
  }

  lemma {:induction false} WithAdvancedFrom(opts: seq<SampleOpt>, advanced: bool)
    ensures forall o :: o in WithAdvanced(opts, advanced) <==> o in opts && o.advanced == advanced
  {
    if opts != [] {
      WithAdvancedFrom(opts[..|opts| - 1], advanced);
    }
  }

  lemma NamespacePrints(y: Layout, ns: (string, seq<SampleOpt>), groupName: string, minimal: bool)
    requires Indents(y) && PrintableNamespace(ns) && OneLine(groupName)
    ensures Prints(NamespaceLines(y, ns, groupName, minimal), EntriesEvents(AdvancedLast(ns.1), minimal),
                   NamespaceFits(y, ns, minimal))
  {
    hide EntriesLines, EntriesEvents, EntryFits, Printable, Indents, Prints;
    WithAdvancedFrom(ns.1, false);
    WithAdvancedFrom(ns.1, true);
    var opts := AdvancedLast(ns.1);
    assert forall o :: o in opts <==> o in ns.1;
    EntriesPrint(y, opts, groupName, minimal);
    var intro := ["", "#", "# From " + ns.0, "#"];
    PrintsAround(intro, EntriesLines(y, opts, groupName, minimal), EntriesEvents(opts, minimal),
                 NamespaceFits(y, ns, minimal));
  }

  lemma {:induction false} NamespacesPrint(y: Layout, nss: seq<(string, seq<SampleOpt>)>, groupName: string,
                                           minimal: bool)
    requires Indents(y) && (forall ns :: ns in nss ==> PrintableNamespace(ns)) && OneLine(groupName)
    ensures Prints(NamespacesLines(y, nss, groupName, minimal), NamespacesEvents(nss, minimal),
                   forall ns :: ns in nss ==> NamespaceFits(y, ns, minimal))
  {
    hide NamespaceLines, EntriesEvents, NamespaceFits, PrintableNamespace, Indents, OneLine, Prints, AdvancedLast;
    if nss == [] {
      RemarksPrint([]);
    } else {
      var init, ns := nss[..|nss| - 1], nss[|nss| - 1];
      NamespacesPrint(y, init, groupName, minimal);
      NamespacePrints(y, ns, groupName, minimal);
      PrintsAppend(NamespacesLines(y, init, groupName, minimal), NamespacesEvents(init, minimal),
                   forall n :: n in init ==> NamespaceFits(y, n, minimal),
                   NamespaceLines(y, ns, groupName, minimal), EntriesEvents(AdvancedLast(ns.1), minimal),
                   NamespaceFits(y, ns, minimal));
      assert nss == init + [ns];
    }
  }

  lemma HeaderPrints(y: Layout, g: Group)
    requires Indents(y) && PrintableGroup(g)
    ensures Prints(HeaderLines(y, g), [NewSection(g.name)], g.help != "" ==> HelpFits(y, g.help))
  {
    hide HelpLines, LineSays, Indents, Prints, HelpFits;
    var head := ["[" + g.name + "]"];
    HeaderSays(g.name);
    LinePrints(head[0], [NewSection(g.name)]);
    if g.help != "" {
      HelpTells(y, g.help);
      PrintsAppend(head, [NewSection(g.name)], true, HelpLines(y, g.help), [], HelpFits(y, g.help));
      assert [NewSection(g.name)] + [] == [NewSection(g.name)];
    } else {
      assert head + [] == head;
    }
  }

  lemma ByNameMembers(g: Group)
    ensures forall ns :: ns in NamespacesByName(g) <==> ns in g.namespaces
  {
    hide Sorted;
    SortedMembers(g.namespaces, (ns: (string, seq<SampleOpt>)) => ns.0);
  }

  lemma GroupPrints(y: Layout, g: Group, minimal: bool)
    requires Indents(y) && PrintableGroup(g)
    ensures Prints(GroupLines(y, g, minimal), [NewSection(g.name)] + NamespacesEvents(NamespacesByName(g), minimal),
                   GroupFits(y, g, minimal))
  {
    hide HeaderLines, NamespacesLines, NamespacesByName, NamespacesEvents, Indents, Prints, PrintableNamespace,
      NamespaceFits, HelpFits;
    HeaderPrints(y, g);
    ByNameMembers(g);
    NamespacesPrint(y, NamespacesByName(g), g.name, minimal);
    PrintsAppend(HeaderLines(y, g), [NewSection(g.name)], g.help != "" ==> HelpFits(y, g.help),
                 NamespacesLines(y, NamespacesByName(g), g.name, minimal),
                 NamespacesEvents(NamespacesByName(g), minimal),
                 forall ns :: ns in NamespacesByName(g) ==> NamespaceFits(y, ns, minimal));
  }

  predicate SampleFits(y: Layout, gs: seq<Group>, minimal: bool) {
    forall g :: g in gs ==> GroupFits(y, g, minimal)
  }

  lemma {:induction false} SamplePrints(y: Layout, gs: seq<Group>, minimal: bool)
    requires Indents(y) && forall g :: g in gs ==> PrintableGroup(g)
    ensures Prints(SampleLines(y, gs, minimal), SampleEvents(gs, minimal), SampleFits(y, gs, minimal))
  {
    hide GroupLines, NamespacesEvents, Indents, Prints, PrintableGroup, GroupFits;
    if gs == [] {
      RemarksPrint([]);
    } else {
      var init, g := gs[..|gs| - 1], gs[|gs| - 1];
      SamplePrints(y, init, minimal);
      var gap: seq<string> := if |gs| > 1 then ["", ""] else [];
      PrintsAround(SampleLines(y, init, minimal), gap, SampleEvents(init, minimal), SampleFits(y, init, minimal));
      GroupPrints(y, g, minimal);
      var own := [NewSection(g.name)] + NamespacesEvents(NamespacesByName(g), minimal);
      PrintsAppend(SampleLines(y, init, minimal) + gap, SampleEvents(init, minimal), SampleFits(y, init, minimal),
                   GroupLines(y, g, minimal), own, GroupFits(y, g, minimal));
      assert SampleEvents(init, minimal) + own == SampleEvents(gs, minimal);
      assert gs == init + [g];
    }
  }

  /* ---------- printing, then parsing ---------- */

  // What the parser reads in the printed file.
  function ReadBack(y: Layout, gs: seq<Group>, minimal: bool): seq<Line> {
    ClassifyAll(FileLines(LinesText(SampleLines(y, gs, minimal))))
  }

  /** A printed sample is accepted and, comments aside, read as its section headers and, if it is minimal, one
      assignment for every default of every required option, in the order printed: exactly when no printed help without
      wrapping has a line after its first that is neither blank nor a comment. Otherwise it is refused, or says more. */
  lemma SampleParses(y: Layout, gs: seq<Group>, minimal: bool)
    requires Indents(y) && forall g :: g in gs ==> PrintableGroup(g)
    ensures SampleFits(y, gs, minimal) <==>
      (&& Accepts(ReadBack(y, gs, minimal))
       && forall bs :: Reads(ReadBack(y, gs, minimal), bs) ==> Kept(AllEvents(bs)) == SampleEvents(gs, minimal))
  {
    hide Tells, SampleLines, SampleEvents, SampleFits, Indents, PrintableGroup, Reads, Accepts, AllEvents, Kept;
    SamplePrints(y, gs, minimal);
    LinesComeBack(SampleLines(y, gs, minimal));
    TellsVerdict(Physical(SampleLines(y, gs, minimal)), SampleEvents(gs, minimal), SampleFits(y, gs, minimal));
  }

  // Wrapped help always fits, and so does help of one line.
  lemma HelpFitsWhen(y: Layout, text: string)
    ensures y.width > 0 || OneLine(text) ==> HelpFits(y, text)
  {
    hide LineSays;
    if OneLine(text) {
      SplitNone("# " + text, '\n');
      FirstIsComment(text);
    }
  }

  // A group with one option that need not be given, whose help has a second line.
  function TwoLines(second: string): Group {
    Group("DEFAULT", "", [("ns", [TwoLineOpt(second)])])
  }

  function TwoLineOpt(second: string): SampleOpt {
    SampleOpt("a", Some("see" + "\n" + second), "t", None, None, [], false, [], None, false, false, Single(None, None))
  }

  // The second line stands in the sample as it is, followed by the type.
  lemma SecondLineStands(y: Layout, second: string)
    requires y.width == 0 && OneLine(second) && LineSays(second + " (t)") != Some([])
    ensures !OptFits(y, TwoLineOpt(second))
  {
    hide Split, LineSays;
    var o, line := TwoLineOpt(second), second + " (t)";
    assert "# " + HelpText(o) == "# see" + ['\n'] + line by {
      assert HelpText(o) == "" + ("see" + "\n" + second) + " (" + "t" + ")";
    }
    SplitConcat("# see", line, '\n');
    SplitNone(line, '\n');
    assert line in Split("# " + HelpText(o), '\n');
  }

  /** So a second line that is neither blank nor a comment leaks: a sample without assignments of its own is refused or
      read as saying more than its section. */
  lemma UnwrappedHelpLeaks(y: Layout, second: string)
    requires Indents(y) && y.width == 0 && OneLine(second) && LineSays(second + " (t)") != Some([])
    requires PrintableGroup(TwoLines(second))
    ensures !(&& Accepts(ReadBack(y, [TwoLines(second)], false))
              && forall bs :: Reads(ReadBack(y, [TwoLines(second)], false), bs) ==>
                   Kept(AllEvents(bs)) == SampleEvents([TwoLines(second)], false))
  {
    hide Accepts, Reads, Kept, AllEvents, LineSays, OptFits, TwoLineOpt, PrintableGroup, SampleEvents;
    var g, o := TwoLines(second), TwoLineOpt(second);
    SecondLineStands(y, second);
    NotRequired(second);
    assert o in g.namespaces[0].1 && !EntryFits(y, o, false);
    assert g.namespaces[0] in g.namespaces && !NamespaceFits(y, g.namespaces[0], false);
    assert g in [g] && !GroupFits(y, g, false);
    SampleParses(y, [g], false);
  }

  lemma NotRequired(second: string)
    ensures Formats(TwoLineOpt(second))
  {
  }

  // Such a line is one that looks like an assignment.
  lemma AssignmentInHelp()
    ensures LineSays("x =" + " 1" + " (t)") == Some([Assignment("x", ["1 (t)"])])
    ensures OneLine("x =" + " 1") && PrintableGroup(TwoLines("x =" + " 1"))
  {
    hide Unquote, Strip, LineSays;
    DefaultLineSays("x", "1 (t)");
    assert DefaultLine("x", "1 (t)", true) == "x =" + " 1" + " (t)";
    StripIsStripped("1 (t)");
    NotQuoted();
  }

  // So a help text with the line "x = 1" does leak.
  lemma AssignmentLeaks(y: Layout)
    requires Indents(y) && y.width == 0
    ensures var gs := [TwoLines("x =" + " 1")];
      !(&& Accepts(ReadBack(y, gs, false))
        && forall bs :: Reads(ReadBack(y, gs, false), bs) ==> Kept(AllEvents(bs)) == SampleEvents(gs, false))
  {
    hide Accepts, Reads, Kept, AllEvents, LineSays, PrintableGroup, SampleEvents, TwoLines, ReadBack;
    AssignmentInHelp();
    UnwrappedHelpLeaks(y, "x =" + " 1");
  }

  lemma NotQuoted()
    ensures Unquote("1 (t)") == "1 (t)"
  {
  }

  lemma {:induction false} NoEntryEvents(opts: seq<SampleOpt>)
    ensures EntriesEvents(opts, false) == []
  {
    if opts != [] {
      NoEntryEvents(opts[..|opts| - 1]);
    }
  }

  lemma {:induction false} NoNamespaceEvents(nss: seq<(string, seq<SampleOpt>)>)
    ensures NamespacesEvents(nss, false) == []
  {
    if nss != [] {
      NoNamespaceEvents(nss[..|nss| - 1]);
      NoEntryEvents(AdvancedLast(nss[|nss| - 1].1));
    }
  }

  // A sample that is not minimal assigns nothing.
  lemma {:induction false} FullSampleAssignsNothing(gs: seq<Group>)
    ensures forall e :: e in SampleEvents(gs, false) ==> e.NewSection?
    ensures |SampleEvents(gs, false)| == |gs|
  {
    if gs != [] {
      FullSampleAssignsNothing(gs[..|gs| - 1]);
      NoNamespaceEvents(NamespacesByName(gs[|gs| - 1]));
    }
  }

  /* ---------- the values that come back ---------- */

  // Without outer white space, and between two quotes of one kind: printed as it is, read without its quotes.
  predicate LosesQuotes(v: string) {
    Stripped(v) && Quoted(v)
  }

  lemma ValueComesBackIff(v: string)
    ensures Unquote(Strip(QuoteSpaces(v))) == v <==> !LosesQuotes(v)
  {
    StripIsStripped(v);
    if Strip(v) != v {
      var q := "\"" + v + "\"";
      StripIsStripped(q);
      assert q[1..|q| - 1] == v;
    }
  }

  function Assigned(dest: string, values: seq<string>): (r: seq<Event>)
    ensures |r| == |values|
  {
    seq(|values|, i requires 0 <= i < |values| => Assignment(dest, [values[i]]))
  }

  // A string default comes back exactly when it does not lose quotes, however much white space surrounds it.
  lemma StringDefaultIff(o: SampleOpt)
    requires o.default.Single? && o.default.sample.None? && o.default.value.Some?
    ensures OptEvents(o) == Assigned(o.dest, [o.default.value.value]) <==> !LosesQuotes(o.default.value.value)
  {
    hide QuoteSpaces, Unquote, Strip, LosesQuotes;
    var v := o.default.value.value;
    ValueComesBackIff(v);
    assert OptEvents(o) == [Assignment(o.dest, [Unquote(Strip(QuoteSpaces(v)))])];
    assert Assigned(o.dest, [v]) == [Assignment(o.dest, [v])];
  }

  // So does a list of defaults, all of them and in order.
  lemma MultiDefaultIff(o: SampleOpt)
    requires o.default.Multi? && o.default.samples.None? && o.default.values != []
    ensures OptEvents(o) == Assigned(o.dest, o.default.values)
       <==> forall v :: v in o.default.values ==> !LosesQuotes(v)
  {
    hide QuoteSpaces, Unquote, Strip, LosesQuotes;
    var vs := o.default.values;
    var got, want := OptEvents(o), Assigned(o.dest, vs);
    forall i | 0 <= i < |vs| ensures got[i] == want[i] <==> !LosesQuotes(vs[i]) {
      ValueComesBackIff(vs[i]);
      assert got[i].value == [Unquote(Strip(QuoteSpaces(vs[i])))] && want[i].value == [vs[i]];
    }
    assert got == want <==> forall i :: 0 <= i < |vs| ==> got[i] == want[i];
    assert (forall v :: v in vs ==> !LosesQuotes(v)) <==> forall i :: 0 <= i < |vs| ==> !LosesQuotes(vs[i]);
  }

  // Without a default the option comes back with a text: "<None>", or one empty value.
  lemma NoDefaultComesBack(o: SampleOpt)
    ensures o.default == Single(None, None) ==> OptEvents(o) == Assigned(o.dest, ["<None>"])
    ensures o.default == Multi([], None) ==> OptEvents(o) == Assigned(o.dest, [""])
  {
    StripIsStripped("<None>");
    StripIsStripped("");
  }
}
