/** The sample-file printer of `oslo_config/generator.py` and `format_defaults` of `oslo_config/types.py`. */
module Generator {
  import opened Wrappers
  import opened Text
  import opened Sorting

  // What is given for a deprecated name; empty for None.
  datatype Former = Former(group: string, name: string)

  datatype Removal = Removal(since: string, reason: string)

  // The declared default and the sample default of a string and of a multi-valued string option.
  datatype Default =
    | Single(value: Option<string>, sample: Option<string>)
    | Multi(values: seq<string>, samples: Option<seq<string>>)

  // An option as the generator sees it; minimum and maximum are already decimal text.
  datatype SampleOpt = SampleOpt(
    dest: string, help: Option<string>, typeName: string, minimum: Option<string>, maximum: Option<string>,
    choices: seq<Option<string>>, mutable: bool, formers: seq<Former>, removal: Option<Removal>,
    advanced: bool, required: bool, default: Default)

  // Namespaces with their options, in the order they are written; help is empty unless there is a group object.
  datatype Group = Group(name: string, help: string, namespaces: seq<(string, seq<SampleOpt>)>)

  // `wrap` is `textwrap.wrap` with the indents "# "; a width of 0 is no wrapping.
  datatype Layout = Layout(width: nat, wrap: (string, nat) -> seq<string>)

  /* ---------- text and lines ---------- */

  // Lines as they are written, each with its newline.
  function LinesText(lines: seq<string>): string {
    if lines == [] then "" else LinesText(lines[..|lines| - 1]) + lines[|lines| - 1] + "\n"
  }

  // The lines of a file, without their newlines; also `splitlines` for text whose only separator is a line feed.
  function FileLines(text: string): seq<string> {
    var pieces := Split(text, '\n');
    if pieces[|pieces| - 1] == "" then pieces[..|pieces| - 1] else pieces
  }

  predicate OneLine(s: string) {
    '\n' !in s
  }

  predicate AllOneLine(lines: seq<string>) {
    forall l :: l in lines ==> OneLine(l)
  }

  lemma {:induction false} LinesTextAppend(a: seq<string>, b: seq<string>)
    ensures LinesText(a + b) == LinesText(a) + LinesText(b)
  {
    if b == [] {
      assert a + b == a;
    } else {
      var init, l := b[..|b| - 1], b[|b| - 1];
      LinesTextAppend(a, init);
      assert (a + b)[..|a + b| - 1] == a + init;
    }
  }

  // The lines a file has when lines are written that may hold line feeds themselves.
  function Physical(lines: seq<string>): seq<string> {
    if lines == [] then [] else Physical(lines[..|lines| - 1]) + Split(lines[|lines| - 1], '\n')
  }

  lemma {:induction false} PhysicalAppend(a: seq<string>, b: seq<string>)
    ensures Physical(a + b) == Physical(a) + Physical(b)
  {
    hide Split;
    if b == [] {
      assert a + b == a;
    } else {
      var init, l := b[..|b| - 1], b[|b| - 1];
      PhysicalAppend(a, init);
      assert (a + b)[..|a + b| - 1] == a + init;
    }
  }

  lemma {:induction false} PhysicalOneLine(lines: seq<string>)
    requires AllOneLine(lines)
    ensures Physical(lines) == lines
  {
    hide Split;
    if lines != [] {
      var init, l := lines[..|lines| - 1], lines[|lines| - 1];
      assert OneLine(l);
      PhysicalOneLine(init);
      SplitNone(l, '\n');
    }
  }

  lemma {:induction false} SplitLines(lines: seq<string>)
    ensures Split(LinesText(lines), '\n') == Physical(lines) + [""]
  {
    hide Split;
    SplitNone("", '\n');
    if lines != [] {
      var init, l := lines[..|lines| - 1], lines[|lines| - 1];
      SplitLines(init);
      LineAdded(LinesText(init), l);
      SplitConcat(LinesText(init) + l, "", '\n');
      assert LinesText(lines) == LinesText(init) + l + ['\n'] + "";
      TextEnds(init);
      if init == [] {
        assert LinesText(init) + l == l && Physical(init) == [];
      } else {
        var text := LinesText(init)[..|LinesText(init)| - 1];
        assert LinesText(init) == text + ['\n'] + "";
        SplitConcat(text, "", '\n');
        assert Split(text, '\n') == Physical(init) by {
          assert (Split(text, '\n') + [""])[..|Split(text, '\n')|] == (Physical(init) + [""])[..|Physical(init)|];
        }
        SplitConcat(text, l, '\n');
        assert LinesText(init) + l == text + ['\n'] + l;
      }
    }
  }

  lemma LineAdded(text: string, l: string)
    ensures text + l + "\n" == text + l + ['\n'] + ""
  {
  }

  lemma TextEnds(lines: seq<string>)
    ensures lines != [] ==> LinesText(lines) != "" && LinesText(lines)[|LinesText(lines)| - 1] == '\n'
  {
  }

  // Reading the file gives back the lines that were written, cut at their line feeds.
  lemma LinesComeBack(lines: seq<string>)
    ensures FileLines(LinesText(lines)) == Physical(lines)
    ensures AllOneLine(lines) ==> FileLines(LinesText(lines)) == lines
  {
    hide Split;
    SplitLines(lines);
    assert (Physical(lines) + [""])[..|Physical(lines)|] == Physical(lines);
    if AllOneLine(lines) {
      PhysicalOneLine(lines);
    }
  }

  /** What follows the last line feed is a line too, unless it is empty. */
  lemma LastLine(lines: seq<string>, l: string)
    requires OneLine(l)
    ensures FileLines(LinesText(lines) + l) == Physical(lines) + (if l == "" then [] else [l])
  {
    hide Split;
    SplitLines(lines);
    SplitNone(l, '\n');
    if lines == [] {
      assert LinesText(lines) + l == l && Physical(lines) == [];
    } else {
      TextEnds(lines);
      var text := LinesText(lines)[..|LinesText(lines)| - 1];
      assert LinesText(lines) == text + ['\n'] + "";
      SplitNone("", '\n');
      SplitConcat(text, "", '\n');
      assert (Split(text, '\n') + [""])[..|Split(text, '\n')|] == (Physical(lines) + [""])[..|Physical(lines)|];
      SplitConcat(text, l, '\n');
      assert LinesText(lines) + l == text + ['\n'] + l;
    }
    assert (Physical(lines) + [l])[..|Physical(lines)|] == Physical(lines);
  }

  lemma FileLinesOneLine(text: string)
    ensures AllOneLine(FileLines(text))
  {
    SplitPieces(text, '\n');
  }

  /* ---------- fixed remarks ---------- */

  const MUTABLE_NOTE := "# Note: This option " + "can be changed " + "without restarting."
  const REMOVAL_SINCE := "# This option is " + "deprecated for " + "removal since "
  const REMOVAL := "# This option is " + "deprecated for " + "removal."
  const MAY_BE_IGNORED := "# Its value may be " + "silently ignored " + "in the future."
  const ADVANCED_1 := "# Advanced Option: " + "intended for " + "advanced users " + "and not used"
  const ADVANCED_2 := "# by the majority " + "of users, and might " + "have a significant"
  const ADVANCED_3 := "# effect on " + "stability and/or " + "performance."
  const FAILED := "# Warning: Failed " + "to format sample " + "for "
  const NO_STARTSWITH := "# 'NoneType' object " + "has no attribute " + "'startswith'"

  /* ---------- the lines of an option ---------- */

  // `quote_trailing_and_leading_space`
  function QuoteSpaces(v: string): string {
    if Strip(v) != v then "\"" + v + "\"" else v
  }

  function QuoteAll(vs: seq<string>): (r: seq<string>)
    ensures |r| == |vs|
  {
    seq(|vs|, i requires 0 <= i < |vs| => QuoteSpaces(vs[i]))
  }

  // `format_defaults` of String and of MultiString.
  function FormatDefaults(d: Default): seq<string> {
    match d
    case Single(value, sample) =>
      [if sample.Some? then sample.value else if value.None? then "<None>" else QuoteSpaces(value.value)]
    case Multi(values, samples) =>
      if samples.Some? then QuoteAll(samples.value) else if values == [] then [""] else QuoteAll(values)
  }

  function DefaultLine(dest: string, default: string, minimal: bool): string {
    (if minimal then "" else "#") + dest + " =" + (if default == "" then "" else " " + default)
  }

  function DefaultLines(dest: string, defaults: seq<string>, minimal: bool): (r: seq<string>)
    ensures |r| == |defaults|
  {
    seq(|defaults|, i requires 0 <= i < |defaults| => DefaultLine(dest, defaults[i], minimal))
  }

  function HelpLine(y: Layout, line: string): seq<string> {
    var wrapped := y.wrap(line, y.width);
    if wrapped == [] || wrapped == [""] then ["#"] else wrapped
  }

  function HelpEach(y: Layout, lines: seq<string>): seq<string> {
    if lines == [] then [] else HelpEach(y, lines[..|lines| - 1]) + HelpLine(y, lines[|lines| - 1])
  }

  // `_format_help`
  function HelpLines(y: Layout, text: string): seq<string> {
    if y.width > 0 then HelpEach(y, FileLines(text)) else ["# " + text]
  }

  predicate StartsWith(s: string, prefix: string) {
    prefix <= s
  }

  function HelpText(o: SampleOpt): string
    requires o.help.Some? || o.removal.None?
  {
    var prefix := if o.removal.Some? && !StartsWith(o.help.value, "DEPRECATED") then "DEPRECATED: " else "";
    if o.help.Some? && o.help.value != "" then prefix + o.help.value + " (" + o.typeName + ")"
    else "(" + o.typeName + ")"
  }

  function ChoiceText(c: Option<string>): string {
    if c.None? then "<None>" else if c.value == "" then "''" else c.value
  }

  function ChoiceTexts(cs: seq<Option<string>>): string {
    if cs == [] then ""
    else if |cs| == 1 then ChoiceText(cs[0])
    else ChoiceTexts(cs[..|cs| - 1]) + ", " + ChoiceText(cs[|cs| - 1])
  }

  function LimitLines(o: SampleOpt): seq<string> {
    (if o.minimum.Some? then ["# Minimum value: " + o.minimum.value] else [])
    + (if o.maximum.Some? then ["# Maximum value: " + o.maximum.value] else [])
    + (if o.choices != [] then ["# Allowed values: " + ChoiceTexts(o.choices)] else [])
    + (if o.mutable then [MUTABLE_NOTE] else [])
  }

  function FormerLine(o: SampleOpt, d: Former, groupName: string): string {
    "# Deprecated group/name - [" + (if d.group != "" then d.group else groupName) + "]/"
    + (if d.name != "" then d.name else o.dest)
  }

  function FormerLines(o: SampleOpt, groupName: string): (r: seq<string>)
    ensures |r| == |o.formers|
  {
    seq(|o.formers|, i requires 0 <= i < |o.formers| => FormerLine(o, o.formers[i], groupName))
  }

  function RemovalHead(r: Removal): seq<string> {
    [if r.since != "" then REMOVAL_SINCE + r.since + "." else REMOVAL, MAY_BE_IGNORED]
  }

  function RemovalLines(y: Layout, removal: Option<Removal>): seq<string> {
    match removal
    case None => []
    case Some(r) => RemovalHead(r) + (if r.reason != "" then HelpLines(y, "Reason: " + r.reason) else [])
  }

  function AdvancedLines(o: SampleOpt): seq<string> {
    if !o.advanced then []
    else [ADVANCED_1,
          ADVANCED_2,
          ADVANCED_3]
  }

  // Everything an option prints before its defaults.
  function Remarks(y: Layout, o: SampleOpt, groupName: string): seq<string>
    requires o.help.Some? || o.removal.None?
  {
    HelpLines(y, HelpText(o)) + LimitLines(o) + FormerLines(o, groupName)
    + RemovalLines(y, o.removal) + AdvancedLines(o)
  }

  function OptLines(y: Layout, o: SampleOpt, groupName: string, minimal: bool): seq<string>
    requires o.help.Some? || o.removal.None?
  {
    Remarks(y, o, groupName) + DefaultLines(o.dest, FormatDefaults(o.default), minimal)
  }

  /** An option whose formatting fails, because it is to be removed and has no help, leaves a warning. */
  lemma FailureIs(o: SampleOpt)
    ensures FailureLines(o) == ["# Warning: Failed " + "to format sample " + "for " + o.dest,
                                "# 'NoneType' object " + "has no attribute " + "'startswith'"]
    ensures Formats(o) <==> !(o.help == None && o.removal != None)
  {
  }

  /** Choices stand in their order with a comma and a blank between them, a missing one and an empty one spelled out. */
  lemma {:induction false} ChoicesText(cs: seq<Option<string>>, c: Option<string>)
    ensures ChoiceTexts(cs + [c]) ==
      (if cs == [] then "" else ChoiceTexts(cs) + ", ")
      + (match c case None => "<None>" case Some(s) => if s == "" then "''" else s)
  {
    var all := cs + [c];
    assert all[..|all| - 1] == cs && all[|all| - 1] == c;
    assert cs == [] ==> all[0] == c && "" + ChoiceText(c) == ChoiceText(c);
  }

  /** The help of an option ends with the name of its type, and begins with a prefix if the option is to be removed and
      the help does not say so itself. */
  lemma HelpIs(o: SampleOpt)
    requires o.help.Some? || o.removal.None?
    ensures o.help == None || o.help == Some("") ==> HelpText(o) == "(" + o.typeName + ")"
    ensures o.help != None && o.help != Some("") && (o.removal == None || "DEPRECATED" <= o.help.value) ==>
      HelpText(o) == o.help.value + " (" + o.typeName + ")"
    ensures o.help != None && o.help != Some("") && o.removal != None && !("DEPRECATED" <= o.help.value) ==>
      HelpText(o) == "DEPRECATED: " + o.help.value + " (" + o.typeName + ")"
  {
    assert o.help.Some? ==> "" + o.help.value == o.help.value;
  }

  /** Then come its least and its greatest value, its choices, and that it can be changed at run time. */
  lemma LimitsAre(o: SampleOpt)
    ensures LimitLines(o) ==
      (if o.minimum == None then [] else ["# Minimum value: " + o.minimum.value])
      + (if o.maximum == None then [] else ["# Maximum value: " + o.maximum.value])
      + (if o.choices == [] then [] else ["# Allowed values: " + ChoiceTexts(o.choices)])
      + (if o.mutable then ["# Note: This option " + "can be changed " + "without restarting."] else [])
  {
    hide ChoiceTexts;
  }

  /** Then its former names, the option's own for what they leave out. */
  lemma FormersAre(o: SampleOpt, groupName: string, i: nat)
    requires i < |o.formers|
    ensures var d := o.formers[i];
      FormerLines(o, groupName)[i]
      == "# Deprecated group/name - [" + (if d.group == "" then groupName else d.group) + "]/"
         + (if d.name == "" then o.dest else d.name)
  {
  }

  /** Then that it is to be removed, since when and for what reason. */
  lemma RemovalIs(y: Layout, since: string, reason: string)
    ensures RemovalLines(y, None) == []
    ensures RemovalLines(y, Some(Removal(since, reason))) ==
      [if since == "" then "# This option is " + "deprecated for " + "removal."
       else "# This option is " + "deprecated for " + "removal since " + since + ".",
       "# Its value may be " + "silently ignored " + "in the future."]
      + (if reason == "" then [] else HelpLines(y, "Reason: " + reason))
  {
    hide HelpLines;
  }

  /** Then that it is for advanced users. */
  lemma AdvancedIs(o: SampleOpt)
    ensures AdvancedLines(o) ==
      if !o.advanced then []
      else ["# Advanced Option: " + "intended for " + "advanced users " + "and not used",
            "# by the majority " + "of users, and might " + "have a significant",
            "# effect on " + "stability and/or " + "performance."]
  {
  }

  /** A default is printed as the sample default if there is one, quoted where white space would be lost; for want of
      any it is the text "<None>", or one empty value. */
  lemma DefaultsInFull(d: Default)
    ensures d.Single? ==>
      FormatDefaults(d) == [match (d.sample, d.value)
                            case (Some(s), _) => s
                            case (None, None) => "<None>"
                            case (None, Some(v)) => if Strip(v) == v then v else "\"" + v + "\""]
    ensures d.Multi? ==>
      var vs := match d.samples case Some(ss) => ss case None => if d.values == [] then [""] else d.values;
      FormatDefaults(d) ==
        seq(|vs|, i requires 0 <= i < |vs| => if Strip(vs[i]) == vs[i] then vs[i] else "\"" + vs[i] + "\"")
  {
    hide Strip;
    EmptyStripped();
  }

  lemma EmptyStripped()
    ensures Strip("") == ""
  {
  }

  // What stands for an option whose formatting raised.
  function FailureLines(o: SampleOpt): seq<string> {
    [FAILED + o.dest, NO_STARTSWITH]
  }

  predicate Formats(o: SampleOpt) {
    o.help.Some? || o.removal.None?
  }

  function EntryLines(y: Layout, o: SampleOpt, groupName: string, minimal: bool): seq<string> {
    if minimal && !o.required then []
    else [""] + (if Formats(o) then OptLines(y, o, groupName, minimal) else FailureLines(o))
  }

  function EntriesLines(y: Layout, opts: seq<SampleOpt>, groupName: string, minimal: bool): seq<string> {
    if opts == [] then []
    else EntriesLines(y, opts[..|opts| - 1], groupName, minimal) + EntryLines(y, opts[|opts| - 1], groupName, minimal)
  }

  // `sorted(opts, key=operator.attrgetter('advanced'))`, which keeps the order among equals.
  function WithAdvanced(opts: seq<SampleOpt>, advanced: bool): seq<SampleOpt> {
    if opts == [] then []
    else
      WithAdvanced(opts[..|opts| - 1], advanced)
      + (if opts[|opts| - 1].advanced == advanced then [opts[|opts| - 1]] else [])
  }

  function AdvancedLast(opts: seq<SampleOpt>): seq<SampleOpt> {
    WithAdvanced(opts, false) + WithAdvanced(opts, true)
  }

  lemma OneMoreOption(opts: seq<SampleOpt>, o: SampleOpt, advanced: bool)
    ensures WithAdvanced(opts + [o], advanced)
      == WithAdvanced(opts, advanced) + (if o.advanced == advanced then [o] else [])
  {
    assert (opts + [o])[..|opts|] == opts;
  }

  lemma NoOptions()
    ensures forall advanced :: WithAdvanced([], advanced) == []
  {
  }

  lemma {:induction false} AdvancedAre(opts: seq<SampleOpt>, advanced: bool)
    ensures forall i :: 0 <= i < |WithAdvanced(opts, advanced)| ==> WithAdvanced(opts, advanced)[i].advanced == advanced
    ensures forall o :: o in WithAdvanced(opts, advanced) <==> o in opts && o.advanced == advanced
    ensures WithAdvanced(WithAdvanced(opts, advanced), advanced) == WithAdvanced(opts, advanced)
    ensures WithAdvanced(WithAdvanced(opts, advanced), !advanced) == []
  {
    hide WithAdvanced;
    if opts == [] {
      NoOptions();
    } else {
      var init, last := opts[..|opts| - 1], opts[|opts| - 1];
      assert opts == init + [last];
      AdvancedAre(init, advanced);
      OneMoreOption(init, last, advanced);
      OneMoreOption(WithAdvanced(init, advanced), last, advanced);
      OneMoreOption(WithAdvanced(init, advanced), last, !advanced);
      assert WithAdvanced(init, advanced) + [] == WithAdvanced(init, advanced);
    }
  }

  lemma {:induction false} AdvancedConcat(a: seq<SampleOpt>, b: seq<SampleOpt>, advanced: bool)
    ensures WithAdvanced(a + b, advanced) == WithAdvanced(a, advanced) + WithAdvanced(b, advanced)
  {
    if b == [] {
      assert a + b == a;
    } else {
      assert (a + b)[..|a + b| - 1] == a + b[..|b| - 1];
      AdvancedConcat(a, b[..|b| - 1], advanced);
    }
  }

  /** Options that are not advanced come first, those that are last, and both keep the order they had. */
  lemma AdvancedOrder(opts: seq<SampleOpt>)
    ensures var r := AdvancedLast(opts);
      && (forall i, j :: 0 <= i < j < |r| && r[i].advanced ==> r[j].advanced)
      && (forall o :: o in r <==> o in opts)
      && WithAdvanced(r, false) == WithAdvanced(opts, false) && WithAdvanced(r, true) == WithAdvanced(opts, true)
  {
    hide WithAdvanced;
    AdvancedAre(opts, false);
    AdvancedAre(opts, true);
    var a, b := WithAdvanced(opts, false), WithAdvanced(opts, true);
    AdvancedConcat(a, b, false);
    AdvancedConcat(a, b, true);
    assert a + [] == a && [] + b == b;
    forall o ensures o in a + b <==> o in opts {
      assert o in a + b <==> o in a || o in b;
    }
  }

  function NamespacesByName(g: Group): seq<(string, seq<SampleOpt>)> {
    Sorted(g.namespaces, (ns: (string, seq<SampleOpt>)) => ns.0)
  }

  // DEFAULT first, the other groups by name.
  function GroupsByName(default: Group, others: seq<Group>): seq<Group> {
    [default] + Sorted(others, (g: Group) => g.name)
  }

  /** The default group comes first, and all others are there once each, by name. */
  lemma GroupsInOrder(default: Group, others: seq<Group>)
    ensures var r := GroupsByName(default, others);
      && |r| == |others| + 1 && r[0] == default && multiset(r[1..]) == multiset(others)
      && (forall i, j :: 1 <= i < j < |r| ==> NotAfter(r[i].name, r[j].name))
  {
    hide NotAfter, Sorted;
    var name := (g: Group) => g.name;
    SortedByName(others, name, "");
    SortedMembers(others, name);
    var r := GroupsByName(default, others);
    assert r[1..] == Sorted(others, name);
    forall i, j | 1 <= i < j < |r| ensures NotAfter(r[i].name, r[j].name) {
      assert r[i] == Sorted(others, name)[i - 1] && r[j] == Sorted(others, name)[j - 1];
      assert NotAfter(name(Sorted(others, name)[i - 1]), name(Sorted(others, name)[j - 1]));
    }
  }

  /** Namespaces are all there once each, by name. */
  lemma NamespacesInOrder(g: Group)
    ensures multiset(NamespacesByName(g)) == multiset(g.namespaces)
    ensures forall i, j :: 0 <= i < j < |NamespacesByName(g)| ==>
      NotAfter(NamespacesByName(g)[i].0, NamespacesByName(g)[j].0)
  {
    hide NotAfter, Sorted;
    SortedByName(g.namespaces, (ns: (string, seq<SampleOpt>)) => ns.0, "");
  }

  function NamespaceLines(y: Layout, ns: (string, seq<SampleOpt>), groupName: string, minimal: bool): seq<string> {
    ["", "#", "# From " + ns.0, "#"] + EntriesLines(y, AdvancedLast(ns.1), groupName, minimal)
  }

  function NamespacesLines(y: Layout, nss: seq<(string, seq<SampleOpt>)>, groupName: string,
                           minimal: bool): seq<string> {
    if nss == [] then []
    else
      NamespacesLines(y, nss[..|nss| - 1], groupName, minimal)
      + NamespaceLines(y, nss[|nss| - 1], groupName, minimal)
  }

  function HeaderLines(y: Layout, g: Group): seq<string> {
    ["[" + g.name + "]"] + (if g.help != "" then HelpLines(y, g.help) else [])
  }

  function GroupLines(y: Layout, g: Group, minimal: bool): seq<string> {
    HeaderLines(y, g) + NamespacesLines(y, NamespacesByName(g), g.name, minimal)
  }

  // The whole file: two blank lines before every group but the first.
  function SampleLines(y: Layout, gs: seq<Group>, minimal: bool): seq<string> {
    if gs == [] then []
    else
      SampleLines(y, gs[..|gs| - 1], minimal) + (if |gs| > 1 then ["", ""] else [])
      + GroupLines(y, gs[|gs| - 1], minimal)
  }

  /* ---------- the printer ---------- */

  class OptFormatter {
    const layout: Layout
    var output: string

    constructor (layout: Layout)
      ensures this.layout == layout && output == ""
    {
      this.layout, output := layout, "";
    }

    method FormatHelp(text: string) returns (lines: seq<string>)
      ensures lines == HelpLines(layout, text)
    {
      if layout.width > 0 {
        var all := FileLines(text);
        var i := 0;
        lines := [];
        while i < |all|
          invariant 0 <= i <= |all| && lines == HelpEach(layout, all[..i])
        {
          assert all[..i + 1][..i] == all[..i];
          var wrapped := layout.wrap(all[i], layout.width);
          lines := lines + (if wrapped == [] || wrapped == [""] then ["#"] else wrapped);
          i := i + 1;
        }
        assert all[..|all|] == all;
      } else {
        lines := ["# " + text];
      }
    }

    method WriteLines(lines: seq<string>)
      modifies this`output
      ensures output == old(output) + LinesText(lines)
    {
      output := output + LinesText(lines);
    }

    method FormatGroup(g: Group)
      modifies this`output
      ensures output == old(output) + LinesText(HeaderLines(layout, g))
    {
      var lines := ["[" + g.name + "]"];
      if g.help != "" {
        var help := FormatHelp(g.help);
        lines := lines + help;
      }
      WriteLines(lines);
    }

    method Format(o: SampleOpt, groupName: string, minimal: bool)
      requires Formats(o)
      modifies this`output
      ensures output == old(output) + LinesText(OptLines(layout, o, groupName, minimal))
    {
      hide LinesText, HelpText, HelpLines, LimitLines, FormerLines, RemovalLines, AdvancedLines, FormatDefaults;
      var lines := FormatHelp(HelpText(o));
      lines := lines + LimitLines(o);
      var i := 0;
      ghost var start := lines;
      while i < |o.formers|
        invariant 0 <= i <= |o.formers| && output == old(output)
        invariant lines == start + FormerLines(o, groupName)[..i]
      {
        FormerAt(o, groupName, i);
        lines := lines + [FormerLine(o, o.formers[i], groupName)];
        i := i + 1;
      }
      var removal := FormatRemoval(o.removal);
      lines := lines + removal + AdvancedLines(o);
      assert lines == Remarks(layout, o, groupName);
      var defaults := FormatDefaults(o.default);
      i, start := 0, lines;
      while i < |defaults|
        invariant 0 <= i <= |defaults| && output == old(output)
        invariant lines == start + DefaultLines(o.dest, defaults, minimal)[..i]
      {
        var text := defaults[i];
        if text != "" {
          text := " " + text;
        }
        lines := lines + [if minimal then o.dest + " =" + text else "#" + o.dest + " =" + text];
        DefaultAt(o.dest, defaults, minimal, i);
        i := i + 1;
      }
      assert DefaultLines(o.dest, defaults, minimal)[..|defaults|] == DefaultLines(o.dest, defaults, minimal);
      WriteLines(lines);
    }

    method FormatRemoval(removal: Option<Removal>) returns (lines: seq<string>)
      ensures lines == RemovalLines(layout, removal)
    {
      hide HelpLines;
      lines := [];
      if removal.Some? {
        if removal.value.since != "" {
          lines := lines + [REMOVAL_SINCE + removal.value.since + "."];
        } else {
          lines := lines + [REMOVAL];
        }
        lines := lines + [MAY_BE_IGNORED];
        if removal.value.reason != "" {
          var reason := FormatHelp("Reason: " + removal.value.reason);
          lines := lines + reason;
        }
      }
    }

    method OutputOpts(g: Group, minimal: bool)
      modifies this`output
      ensures output == old(output) + LinesText(GroupLines(layout, g, minimal))
    {
      hide LinesText, HeaderLines, NamespaceLines, NamespacesByName;
      FormatGroup(g);
      ghost var start := HeaderLines(layout, g);
      var nss := NamespacesByName(g);
      var i := 0;
      assert start + [] == start;
      while i < |nss|
        invariant 0 <= i <= |nss|
        invariant output == old(output) + LinesText(start + NamespacesLines(layout, nss[..i], g.name, minimal))
      {
        OutputNamespace(nss[i], g.name, minimal);
        ghost var before := NamespacesLines(layout, nss[..i], g.name, minimal);
        ghost var own := NamespaceLines(layout, nss[i], g.name, minimal);
        LinesTextAppend(start + before, own);
        assert start + before + own == start + (before + own);
        assert nss[..i + 1][..i] == nss[..i];
        i := i + 1;
      }
      assert nss[..|nss|] == nss;
    }

    method OutputNamespace(ns: (string, seq<SampleOpt>), groupName: string, minimal: bool)
      modifies this`output
      ensures output == old(output) + LinesText(NamespaceLines(layout, ns, groupName, minimal))
    {
      hide LinesText, EntriesLines, AdvancedLast;
      WriteLines(["", "#", "# From " + ns.0, "#"]);
      OutputEntries(AdvancedLast(ns.1), groupName, minimal);
      LinesTextAppend(["", "#", "# From " + ns.0, "#"], EntriesLines(layout, AdvancedLast(ns.1), groupName, minimal));
    }

    method OutputEntries(opts: seq<SampleOpt>, groupName: string, minimal: bool)
      modifies this`output
      ensures output == old(output) + LinesText(EntriesLines(layout, opts, groupName, minimal))
    {
      hide EntryLines, LinesText;
      EmptyText();
      var i := 0;
      while i < |opts|
        invariant 0 <= i <= |opts|
        invariant output == old(output) + LinesText(EntriesLines(layout, opts[..i], groupName, minimal))
      {
        OutputEntry(opts[i], groupName, minimal);
        LinesTextAppend(EntriesLines(layout, opts[..i], groupName, minimal),
                        EntryLines(layout, opts[i], groupName, minimal));
        assert opts[..i + 1][..i] == opts[..i];
        i := i + 1;
      }
      assert opts[..|opts|] == opts;
    }

    // A sample of one option, or the warning that it could not be formatted.
    method OutputEntry(o: SampleOpt, groupName: string, minimal: bool)
      modifies this`output
      ensures output == old(output) + LinesText(EntryLines(layout, o, groupName, minimal))
    {
      hide OptLines, FailureLines, LinesText;
      EmptyText();
      if minimal && !o.required {
      } else {
        WriteLines([""]);
        if Formats(o) {
          Format(o, groupName, minimal);
          LinesTextAppend([""], OptLines(layout, o, groupName, minimal));
        } else {
          WriteLines(FailureLines(o));
          LinesTextAppend([""], FailureLines(o));
        }
      }
    }

    // The output of `generate`: DEFAULT first, then the other groups by name.
    method Generate(default: Group, others: seq<Group>, minimal: bool)
      modifies this`output
      ensures output == old(output) + LinesText(SampleLines(layout, GroupsByName(default, others), minimal))
    {
      hide LinesText, GroupLines, GroupsByName;
      var gs := GroupsByName(default, others);
      LinesTextAppend([], []);
      EmptyText();
      var i := 0;
      while i < |gs|
        invariant 0 <= i <= |gs|
        invariant output == old(output) + LinesText(SampleLines(layout, gs[..i], minimal))
      {
        ghost var before := SampleLines(layout, gs[..i], minimal);
        ghost var gap: seq<string> := if i > 0 then ["", ""] else [];
        if i > 0 {
          WriteLines(["", ""]);
          LinesTextAppend(before, ["", ""]);
        }
        assert before + [] == before;
        OutputOpts(gs[i], minimal);
        LinesTextAppend(before + gap, GroupLines(layout, gs[i], minimal));
        assert gs[..i + 1][..i] == gs[..i];
        i := i + 1;
      }
      assert gs[..|gs|] == gs;
    }
  }

  lemma EmptyText()
    ensures LinesText([]) == ""
  {
  }

  lemma FormerAt(o: SampleOpt, groupName: string, i: nat)
    requires i < |o.formers|
    ensures FormerLines(o, groupName)[..i + 1]
      == FormerLines(o, groupName)[..i] + [FormerLine(o, o.formers[i], groupName)]
  {
  }

  lemma DefaultAt(dest: string, defaults: seq<string>, minimal: bool, i: nat)
    requires i < |defaults|
    ensures DefaultLines(dest, defaults, minimal)[..i + 1]
         == DefaultLines(dest, defaults, minimal)[..i] + [DefaultLine(dest, defaults[i], minimal)]
    ensures DefaultLine(dest, defaults[i], true) == dest + " =" + (if defaults[i] == "" then "" else " " + defaults[i])
    ensures DefaultLine(dest, defaults[i], false)
      == "#" + dest + " =" + (if defaults[i] == "" then "" else " " + defaults[i])
  {
  }
}
