/** Parsed configuration files and the namespace that looks options up in them (`oslo_config/cfg.py`). */
module ConfigFiles {
  import opened Wrappers
  import opened Text
  import opened IniParser

  // section name -> key -> the values assigned to it, in order
  type Sections = map<string, map<string, seq<string>>>

  // One assignment of a file.
  datatype Entry = Entry(section: string, key: string, value: string)

  // A file is the list of its assignments, in the order they were parsed.
  type File = seq<Entry>

  type Name = (string, string)

  function Normalize(section: string): string {
    if section == "DEFAULT" then section else Lower(section)
  }

  function NormalizeAll(f: File): (r: File)
    ensures |r| == |f|
  {
    seq(|f|, i requires 0 <= i < |f| => f[i].(section := Normalize(f[i].section)))
  }

  // Section names are the same whatever their case, but DEFAULT is only ever itself.
  predicate SameSection(a: string, b: string) {
    a == b || (a != "DEFAULT" && b != "DEFAULT" && Lower(a) == Lower(b))
  }

  lemma NormalizeIff(a: string, b: string)
    ensures Normalize(a) == Normalize(b) <==> SameSection(a, b)
  {
    assert "DEFAULT"[0] == 'D';
    assert a != "" ==> Lower(a)[0] == LowerChar(a[0]) != 'D';
    assert b != "" ==> Lower(b)[0] == LowerChar(b[0]) != 'D';
  }

  /* ---------- replaying assignments ---------- */

  // The values the file assigns to exactly this section and key, in order.
  function Matching(f: File, n: Name): seq<string> {
    if f == [] then []
    else
      var e := f[|f| - 1];
      Matching(f[..|f| - 1], n) + (if e.section == n.0 && e.key == n.1 then [e.value] else [])
  }

  // The same up to the case of the section.
  function Assigned(f: File, n: Name): seq<string> {
    if f == [] then []
    else
      var e := f[|f| - 1];
      Assigned(f[..|f| - 1], n) + (if SameSection(e.section, n.0) && e.key == n.1 then [e.value] else [])
  }

  lemma {:induction false} MatchingIgnoresCase(f: File, n: Name)
    ensures Matching(NormalizeAll(f), (Normalize(n.0), n.1)) == Assigned(f, n)
  {
    if f != [] {
      var m := |f| - 1;
      MatchingIgnoresCase(f[..m], n);
      NormalizeIff(f[m].section, n.0);
      assert NormalizeAll(f)[..m] == NormalizeAll(f[..m]);
    }
  }

  /* ---------- the section maps of a file ---------- */

  function Values(m: Sections, n: Name): seq<string> {
    if n.0 in m && n.1 in m[n.0] then m[n.0][n.1] else []
  }

  ghost predicate NoEmptyValues(m: Sections) {
    forall s, k :: s in m && k in m[s] ==> m[s][k] != []
  }

  // The maps hold what a replay of the file finds.
  ghost predicate Represents(m: Sections, f: File) {
    NoEmptyValues(m) && forall s, k :: Values(m, (s, k)) == Matching(f, (s, k))
  }

  function AddSection(m: Sections, s: string): Sections {
    if s in m then m else m[s := map[]]
  }

  function Append(m: Sections, s: string, key: string, value: string): Sections
    requires s in m
  {
    m[s := m[s][key := Values(m, (s, key)) + [value]]]
  }

  lemma SectionRepresents(m: Sections, f: File, s: string)
    requires Represents(m, f)
    ensures Represents(AddSection(m, s), f)
  {
    assert forall s', k' :: Values(AddSection(m, s), (s', k')) == Values(m, (s', k'));
  }

  lemma AppendRepresents(m: Sections, f: File, s: string, key: string, value: string)
    requires Represents(m, f) && s in m
    ensures s in Append(m, s, key, value)
    ensures Represents(Append(m, s, key, value), f + [Entry(s, key, value)])
  {
    var m', f' := Append(m, s, key, value), f + [Entry(s, key, value)];
    assert f'[..|f'| - 1] == f;
    forall s', k' ensures Values(m', (s', k')) == Matching(f', (s', k')) {
      assert Values(m, (s', k')) == Matching(f, (s', k'));
    }
  }

  lemma NormalizeMore(f: File, e: Entry)
    ensures NormalizeAll(f + [e]) == NormalizeAll(f) + [e.(section := Normalize(e.section))]
  {
  }

  // The section an event list leaves open.
  function CurrentSection(events: seq<Event>): Option<string> {
    if events == [] then None
    else if events[|events| - 1].NewSection? then Some(events[|events| - 1].name)
    else CurrentSection(events[..|events| - 1])
  }

  // Every assignment comes after a section header.
  predicate Sectioned(events: seq<Event>) {
    events == [] ||
    (var init := events[..|events| - 1];
     Sectioned(init) && (events[|events| - 1].Assignment? ==> CurrentSection(init).Some?))
  }

  function FileOf(events: seq<Event>): File
    requires Sectioned(events)
  {
    if events == [] then []
    else
      var init, e := events[..|events| - 1], events[|events| - 1];
      if e.Assignment? then FileOf(init) + [Entry(CurrentSection(init).value, e.key, Join(e.value, '\n'))]
      else FileOf(init)
  }

  // The text of a file that reads as blocks with every assignment in a section.
  ghost predicate ReadsAs(lines: seq<string>, bs: seq<Block>) {
    Reads(ClassifyAll(lines), bs) && Sectioned(AllEvents(bs))
  }

  ghost predicate Readable(lines: seq<string>) {
    exists bs :: ReadsAs(lines, bs)
  }

  ghost function Content(lines: seq<string>): File
    requires Readable(lines)
  {
    var bs :| ReadsAs(lines, bs);
    FileOf(AllEvents(bs))
  }

  datatype ReadError = BadSyntax(error: ParseError) | NoSection(lineno: nat)

  class ConfigParser {
    var section: Option<string>
    var sections: Sections
    var normalized: Sections
    var seen: seq<Event>                 // the events that led here

    ghost predicate Valid()
      reads this
    {
      && Sectioned(seen) && section == CurrentSection(seen)
      && Represents(sections, FileOf(seen)) && Represents(normalized, NormalizeAll(FileOf(seen)))
      && (section.Some? ==> section.value in sections && Normalize(section.value) in normalized)
    }

    constructor ()
      ensures Valid() && seen == []
    {
      section, sections, normalized, seen := None, map[], map[], [];
    }

    method StartSection(name: string)
      requires Valid()
      modifies this
      ensures Valid() && seen == old(seen) + [NewSection(name)]
    {
      hide Represents, Normalize, NormalizeAll;
      SectionRepresents(sections, FileOf(seen), name);
      SectionRepresents(normalized, NormalizeAll(FileOf(seen)), Normalize(name));
      section := Some(name);
      sections := AddSection(sections, name);
      normalized := AddSection(normalized, Normalize(name));
      seen := seen + [NewSection(name)];
      assert seen[..|seen| - 1] == old(seen);
    }

    // Refused, and without effect, before the first section.
    method Assign(key: string, value: seq<string>) returns (ok: bool)
      requires Valid()
      modifies this
      ensures Valid()
      ensures ok <==> CurrentSection(old(seen)).Some?
      ensures seen == if ok then old(seen) + [Assignment(key, value)] else old(seen)
    {
      hide Represents, Normalize, NormalizeAll, Append, Join;
      if section.None? {
        return false;
      }
      var joined := Join(value, '\n');
      ghost var f := FileOf(seen);
      AppendRepresents(sections, f, section.value, key, joined);
      AppendRepresents(normalized, NormalizeAll(f), Normalize(section.value), key, joined);
      NormalizeMore(f, Entry(section.value, key, joined));
      sections := Append(sections, section.value, key, joined);
      normalized := Append(normalized, Normalize(section.value), key, joined);
      seen := seen + [Assignment(key, value)];
      assert seen[..|seen| - 1] == old(seen);
      return true;
    }

    method Skip(text: string)
      requires Valid()
      modifies this`seen
      ensures Valid() && seen == old(seen) + [Comment(text)]
    {
      seen := seen + [Comment(text)];
      assert seen[..|seen| - 1] == old(seen);
    }

    // A file that can be read leaves its assignments in both section maps.
    method ParseLines(lines: seq<string>) returns (err: Option<ReadError>)
      requires Valid() && seen == []
      modifies this
      ensures Valid()
      ensures err.None? <==> Readable(lines)
      ensures err.None? ==> FileOf(seen) == Content(lines)
    {
      hide ClassifyAll, Represents, Normalize, NormalizeAll, FileOf;
      var parser := new BaseParser();
      var bad := parser.Parse(lines);
      if bad.Some? {
        return Some(BadSyntax(bad.value));
      }
      ghost var all := ClassifyAll(lines);
      ghost var bs :| Reads(all, bs);
      forall bs' | Reads(all, bs') ensures bs' == bs {
        ReadingUnique(all, bs', bs);
      }
      var events := parser.events;
      assert events == [] + AllEvents(bs);
      var i := 0;
      while i < |events|
        invariant 0 <= i <= |events|
        invariant Valid() && seen == events[..i]
        modifies this
      {
        assert events[..i + 1] == events[..i] + [events[i]];
        match events[i] {
          case NewSection(name) => StartSection(name);
          case Comment(text) => Skip(text);
          case Assignment(key, value) =>
            var ok := Assign(key, value);
            if !ok {
              NotSectioned(events, i);
              return Some(NoSection(parser.lineno));
            }
        }
        i := i + 1;
      }
      assert events[..|events|] == events;
      assert ReadsAs(lines, bs);
      return None;
    }
  }

  lemma {:induction false} NotSectioned(events: seq<Event>, i: nat)
    requires i < |events| && events[i].Assignment? && CurrentSection(events[..i]).None?
    ensures !Sectioned(events)
    decreases |events|
  {
    var init := events[..|events| - 1];
    if i < |events| - 1 {
      assert init[..i] == events[..i];
      NotSectioned(init, i);
    } else {
      assert events[..i] == init;
    }
  }

  /* ---------- several files ---------- */

  // The values of the first name the file defines.
  function FirstPresent(f: File, names: seq<Name>): seq<string> {
    if names == [] then []
    else if Matching(f, names[0]) != [] then Matching(f, names[0])
    else FirstPresent(f, names[1..])
  }

  // The newest file that defines any of the names answers; files are listed oldest first.
  function Latest(files: seq<File>, names: seq<Name>): Option<seq<string>> {
    if files == [] then None
    else
      var v := FirstPresent(files[|files| - 1], names);
      if v != [] then Some(v) else Latest(files[..|files| - 1], names)
  }

  // All values a file gives any of the names, later names before earlier ones.
  function InFile(f: File, names: seq<Name>): seq<string> {
    if names == [] then [] else Matching(f, names[|names| - 1]) + InFile(f, names[..|names| - 1])
  }

  // The values of every file, oldest file first.
  function Collected(files: seq<File>, names: seq<Name>): seq<string> {
    if files == [] then [] else Collected(files[..|files| - 1], names) + InFile(files[|files| - 1], names)
  }

  function NormalizeNames(names: seq<Name>): (r: seq<Name>)
    ensures |r| == |names|
  {
    seq(|names|, i requires 0 <= i < |names| => (Normalize(names[i].0), names[i].1))
  }

  function NormalizeFiles(files: seq<File>): (r: seq<File>)
    ensures |r| == |files|
  {
    seq(|files|, i requires 0 <= i < |files| => NormalizeAll(files[i]))
  }

  lemma NoFiles(names: seq<Name>)
    ensures Latest([], names).None? && Collected([], names) == []
  {
  }

  // One step of the search, from the newer files to file k - 1.
  lemma StepToOlderFile(files: seq<File>, k: nat, names: seq<Name>)
    requires 0 < k <= |files|
    ensures Collected(files[k - 1..], names) == InFile(files[k - 1], names) + Collected(files[k..], names)
    ensures Latest(files[..k], names) ==
            if FirstPresent(files[k - 1], names) != [] then Some(FirstPresent(files[k - 1], names))
            else Latest(files[..k - 1], names)
  {
    assert files[k - 1..] == [files[k - 1]] + files[k..];
    CollectedCons(files[k - 1], files[k..], names);
    assert files[..k][..k - 1] == files[..k - 1];
  }

  lemma {:induction false} CollectedCons(f: File, files: seq<File>, names: seq<Name>)
    ensures Collected([f] + files, names) == InFile(f, names) + Collected(files, names)
  {
    var all := [f] + files;
    if files == [] {
      assert all[..0] == [];
    } else {
      CollectedCons(f, files[..|files| - 1], names);
      assert all[..|all| - 1] == [f] + files[..|files| - 1];
    }
  }

  function Concat(files: seq<File>): File {
    if files == [] then [] else Concat(files[..|files| - 1]) + files[|files| - 1]
  }

  lemma {:induction false} MatchingConcat(f: File, g: File, n: Name)
    ensures Matching(f + g, n) == Matching(f, n) + Matching(g, n)
  {
    if g == [] {
      assert f + g == f;
    } else {
      MatchingConcat(f, g[..|g| - 1], n);
      assert (f + g)[..|f + g| - 1] == f + g[..|g| - 1];
    }
  }

  // v is the list of some file, all the later ones having none.
  predicate AnswersFor(v: Option<seq<string>>, all: seq<string>) {
    match v
    case None => all == []
    case Some(vs) => vs != [] && all != [] && vs[|vs| - 1] == all[|all| - 1]
  }

  lemma {:induction false} OneNameReplay(files: seq<File>, names: seq<Name>)
    requires |names| == 1
    ensures Collected(files, names) == Matching(Concat(files), names[0])
    ensures AnswersFor(Latest(files, names), Matching(Concat(files), names[0]))
  {
    hide Matching, InFile, FirstPresent;
    if files == [] {
      NoMatch(names[0]);
    } else {
      var k := |files| - 1;
      OneNameReplay(files[..k], names);
      MatchingConcat(Concat(files[..k]), files[k], names[0]);
      OneName(files[k], names);
    }
  }

  lemma OneName(f: File, names: seq<Name>)
    requires |names| == 1
    ensures InFile(f, names) == FirstPresent(f, names) == Matching(f, names[0])
  {
    hide Matching;
    assert names[..0] == [] && names[1..] == [];
    assert InFile(f, names) == Matching(f, names[0]) + InFile(f, []);
  }

  lemma NoMatch(n: Name)
    ensures Matching([], n) == []
  {
  }

  lemma {:induction false} NormalizeConcat(files: seq<File>)
    ensures Concat(NormalizeFiles(files)) == NormalizeAll(Concat(files))
  {
    var norm := NormalizeFiles(files);
    if files != [] {
      var k := |files| - 1;
      NormalizeConcat(files[..k]);
      assert norm[..k] == NormalizeFiles(files[..k]);
      assert NormalizeAll(Concat(files[..k]) + files[k]) == NormalizeAll(Concat(files[..k])) + NormalizeAll(files[k]);
    }
  }

  // With one name the search is a replay of all files in parse order, whatever the case of the section:
  // the whole list of assignments, or a list that ends with the last of them.
  lemma SingleNameReplay(files: seq<File>, n: Name)
    ensures Collected(NormalizeFiles(files), NormalizeNames([n])) == Assigned(Concat(files), n)
    ensures AnswersFor(Latest(NormalizeFiles(files), NormalizeNames([n])), Assigned(Concat(files), n))
  {
    OneNameReplay(NormalizeFiles(files), NormalizeNames([n]));
    NormalizeConcat(files);
    MatchingIgnoresCase(Concat(files), n);
  }

  /* ---------- the namespace ---------- */

  // A raw option value: one string, or the list of a multi-valued option.
  datatype Raw = One(s: string) | Many(ss: seq<string>)

  // An attribute set from the command line: option `dest` of a group.
  type OptName = (Option<string>, string)

  // What a namespace holds, files oldest first.
  datatype View = View(files: seq<File>, cli: map<string, Raw>)

  predicate IsEmpty(r: Raw) {
    match r
    case One(s) => s == ""
    case Many(ss) => ss == []
  }

  // The attribute of the namespace in which a value given on the command line is kept.
  function Attribute(name: OptName): string {
    if name.0.None? then name.1 else name.0.value + "_" + name.1
  }

  function CliLookup(cli: map<string, Raw>, names: seq<OptName>, positional: bool): Option<Raw> {
    if names == [] then None
    else if Attribute(names[0]) in cli && !(positional && IsEmpty(cli[Attribute(names[0])])) then
      Some(cli[Attribute(names[0])])
    else CliLookup(cli, names[1..], positional)
  }

  function FileNames(names: seq<OptName>): (r: seq<Name>)
    ensures |r| == |names|
  {
    seq(|names|, i requires 0 <= i < |names| =>
      (if names[i].0.Some? then names[i].0.value else "DEFAULT", names[i].1))
  }

  function FileLookup(files: seq<File>, names: seq<OptName>, multi: bool): Option<Raw> {
    var fs, ns := NormalizeFiles(files), NormalizeNames(FileNames(names));
    if multi then
      var all := Collected(fs, ns);
      if all == [] then None else Some(Many(all))
    else
      var found := Latest(fs, ns);
      if found.Some? && found.value != [] then Some(One(found.value[|found.value| - 1])) else None
  }

  // Attributes set from the command line come first, then the files.
  function Lookup(view: View, names: seq<OptName>, multi: bool, positional: bool): Option<Raw> {
    var c := CliLookup(view.cli, names, positional);
    if c.Some? then c else FileLookup(view.files, names, multi)
  }

  class Namespace {
    var parsed: seq<Sections>
    var normalized: seq<Sections>
    var cli: map<string, Raw>
    var filesNotFound: seq<string>
    var files: seq<File>                 // what the maps say, oldest file first

    ghost predicate Valid()
      reads this
    {
      && |parsed| == |normalized| == |files|
      && (forall i :: 0 <= i < |files| ==>
            && Represents(parsed[i], files[|files| - 1 - i])
            && Represents(normalized[i], NormalizeAll(files[|files| - 1 - i])))
    }

    function Holds(): View
      reads this
    {
      View(files, cli)
    }

    constructor ()
      ensures Valid() && Holds() == View([], map[]) && filesNotFound == []
    {
      parsed, normalized, cli, filesNotFound, files := [], [], map[], [], [];
    }

    method AddParsedConfigFile(sections: Sections, norm: Sections, f: File)
      requires Valid() && Represents(sections, f) && Represents(norm, NormalizeAll(f))
      modifies this`parsed, this`normalized, this`files
      ensures Valid() && Holds() == View(old(files) + [f], cli)
    {
      hide Represents, NormalizeAll;
      parsed := [sections] + parsed;
      normalized := [norm] + normalized;
      files := files + [f];
    }

    method GetCliValue(names: seq<OptName>, positional: bool) returns (r: Option<Raw>)
      ensures r == CliLookup(cli, names, positional)
    {
      for i := 0 to |names|
        invariant CliLookup(cli, names, positional) == CliLookup(cli, names[i..], positional)
      {
        assert names[i..][1..] == names[i + 1..];
        var name := if names[i].0.None? then names[i].1 else names[i].0.value + "_" + names[i].1;
        if name in cli {
          var value := cli[name];
          if positional && IsEmpty(value) {
            continue;
          }
          return Some(value);
        }
      }
      return None;
    }

    // The nested search, newest file first, with its early exit.
    method GetFileValue(names: seq<Name>, multi: bool, useNormalized: bool) returns (r: Option<seq<string>>)
      requires Valid()
      ensures var fs := if useNormalized then NormalizeFiles(files) else files;
              var ns := if useNormalized then NormalizeNames(names) else names;
              && (multi ==> r == if Collected(fs, ns) == [] then None else Some(Collected(fs, ns)))
              && (!multi ==> r == Latest(fs, ns) && (r.Some? ==> r.value != []))
    {
      hide Represents, Collected, Latest, NormalizeAll, NormalizeNames;
      var ns := if useNormalized then NormalizeNames(names) else names;
      var maps := if useNormalized then normalized else parsed;
      ghost var fs := if useNormalized then NormalizeFiles(files) else files;
      r := Search(maps, ns, multi, fs);
    }

    static method Search(maps: seq<Sections>, names: seq<Name>, multi: bool, ghost fs: seq<File>)
      returns (r: Option<seq<string>>)
      requires |maps| == |fs| && forall i :: 0 <= i < |fs| ==> Represents(maps[i], fs[|fs| - 1 - i])
      ensures multi ==> r == if Collected(fs, names) == [] then None else Some(Collected(fs, names))
      ensures !multi ==> r == Latest(fs, names) && (r.Some? ==> r.value != [])
    {
      hide Represents, InFile, FirstPresent, Latest, Collected;
      var rvalue: seq<string> := [];
      ghost var n := |fs|;
      NoFiles(names);
      assert fs[n..] == [] && fs[..n] == fs;
      for i := 0 to |maps|
        invariant rvalue == if multi then Collected(fs[n - i..], names) else []
        invariant !multi ==> Latest(fs, names) == Latest(fs[..n - i], names)
      {
        ghost var f := fs[n - 1 - i];
        StepToOlderFile(fs, n - i, names);
        var found: Option<seq<string>>;
        found, rvalue := SearchFile(maps[i], names, multi, rvalue, f);
        if found.Some? {
          return found;
        }
      }
      assert fs[0..] == fs && fs[..0] == [];
      if multi && rvalue != [] {
        return Some(rvalue);
      }
      return None;
    }

    // The inner loop, over the names.
    static method SearchFile(sections: Sections, names: seq<Name>, multi: bool, rvalue: seq<string>, ghost f: File)
      returns (found: Option<seq<string>>, rvalue': seq<string>)
      requires Represents(sections, f)
      ensures multi ==> found.None? && rvalue' == InFile(f, names) + rvalue
      ensures !multi ==> rvalue' == rvalue
      ensures !multi ==> found == if FirstPresent(f, names) == [] then None else Some(FirstPresent(f, names))
    {
      rvalue' := rvalue;
      for j := 0 to |names|
        invariant rvalue' == if multi then InFile(f, names[..j]) + rvalue else rvalue
        invariant !multi ==> FirstPresent(f, names) == FirstPresent(f, names[j..])
      {
        assert names[..j + 1][..j] == names[..j] && names[j..][1..] == names[j + 1..];
        var (section, name) := names[j];
        assert Values(sections, (section, name)) == Matching(f, (section, name));
        if section !in sections {
          continue;
        }
        if name in sections[section] {
          var val := sections[section][name];
          if multi {
            rvalue' := val + rvalue';
          } else {
            return Some(val), rvalue';
          }
        }
      }
      assert names[..|names|] == names;
      found := None;
    }

    method GetValue(names: seq<OptName>, multi: bool, positional: bool) returns (r: Option<Raw>)
      requires Valid()
      ensures r == Lookup(Holds(), names, multi, positional)
    {
      r := GetCliValue(names, positional);
      if r.None? {
        var values := GetFileValue(FileNames(names), multi, true);
        if values.Some? {
          r := Some(if multi then Many(values.value) else One(values.value[|values.value| - 1]));
        }
      }
    }
  }
}
