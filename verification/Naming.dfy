/** Under which names `Opt._get_from_namespace` of `oslo_config/cfg.py` finds an option's value. */
module Naming {
  import opened Wrappers
  import opened ConfigFiles
  import opened Options

  // The section and the key that a deprecated entry stands for: what it leaves out is the option's own.
  function EntryName(opt: Opt, group: Option<string>, d: DeprecatedOpt): Name {
    match (d.group, d.name)
    case (Some(g), Some(n)) => (if g == "" then SectionOf(group) else g, if n == "" then opt.dest else n)
    case (Some(g), None) => (if g == "" then SectionOf(group) else g, opt.dest)
    case (None, Some(n)) => (SectionOf(group), if n == "" then opt.dest else n)
    case (None, None) => (SectionOf(group), opt.dest)
  }

  function SectionOf(group: Option<string>): string {
    match group
    case None => "DEFAULT"
    case Some(g) => g
  }

  // An entry that says nothing.
  predicate Empty(d: DeprecatedOpt) {
    (d.name == None || d.name == Some("")) && (d.group == None || d.group == Some(""))
  }

  // The name at position j: the own one, then one for each entry.
  function NameAt(opt: Opt, group: Option<string>, j: nat): Name
    requires j <= |opt.deprecated|
  {
    if j == 0 then (SectionOf(group), opt.dest) else EntryName(opt, group, opt.deprecated[j - 1])
  }

  predicate Counts(opt: Opt, j: nat)
    requires j <= |opt.deprecated|
  {
    j == 0 || !Empty(opt.deprecated[j - 1])
  }

  // A file has nothing under the names before position j.
  predicate NothingBefore(opt: Opt, group: Option<string>, f: File, j: nat)
    requires j <= |opt.deprecated| + 1
  {
    forall i :: 0 <= i < j && Counts(opt, i) ==> Assigned(f, NameAt(opt, group, i)) == []
  }

  // The names as the search in files uses them, from position j + 1 on.
  function Rest(opt: Opt, group: Option<string>, j: nat): seq<Name>
    requires j <= |opt.deprecated|
  {
    NormalizeNames(FileNames(DeprecatedNames(opt, group, opt.deprecated[j..])))
  }

  lemma RestStep(opt: Opt, group: Option<string>, j: nat)
    requires j < |opt.deprecated|
    ensures Rest(opt, group, j) ==
      (if Empty(opt.deprecated[j]) then []
       else [(Normalize(EntryName(opt, group, opt.deprecated[j]).0), EntryName(opt, group, opt.deprecated[j]).1)])
      + Rest(opt, group, j + 1)
  {
    hide Normalize;
    var ds, d := opt.deprecated[j..], opt.deprecated[j];
    assert ds[0] == d && ds[1..] == opt.deprecated[j + 1..];
    var own := if Empty(d) then [] else
                 [(if Falsy(d.group) then group else d.group, if Falsy(d.name) then opt.dest else d.name.value)];
    assert DeprecatedNames(opt, group, ds) == own + DeprecatedNames(opt, group, ds[1..]);
  }

  lemma {:induction false} FirstFrom(opt: Opt, group: Option<string>, f: File, j: nat, k: nat)
    requires j <= k <= |opt.deprecated| && (k < |opt.deprecated| ==> !Empty(opt.deprecated[k]))
    requires forall i :: j <= i < k && !Empty(opt.deprecated[i]) ==>
      Assigned(f, EntryName(opt, group, opt.deprecated[i])) == []
    requires k < |opt.deprecated| ==> Assigned(f, EntryName(opt, group, opt.deprecated[k])) != []
    ensures FirstPresent(NormalizeAll(f), Rest(opt, group, j)) ==
      if k < |opt.deprecated| then Assigned(f, EntryName(opt, group, opt.deprecated[k])) else []
    decreases k - j
  {
    hide Matching, Assigned, EntryName, NormalizeAll, Normalize, Empty;
    if j == |opt.deprecated| {
      assert Rest(opt, group, j) == [];
    } else {
      RestStep(opt, group, j);
      var name := EntryName(opt, group, opt.deprecated[j]);
      hide Rest;
      MatchingIgnoresCase(f, name);
      var own := [(Normalize(name.0), name.1)];
      assert (own + Rest(opt, group, j + 1))[1..] == Rest(opt, group, j + 1);
      if j < k {
        FirstFrom(opt, group, f, j + 1, k);
        assert [] + Rest(opt, group, j + 1) == Rest(opt, group, j + 1);
      }
    }
  }

  lemma OwnNameFirst(opt: Opt, group: Option<string>)
    ensures NormalizeNames(FileNames(NamesOf(opt, group)))
         == [(Normalize(SectionOf(group)), opt.dest)] + Rest(opt, group, 0)
  {
    hide Normalize;
    assert opt.deprecated[0..] == opt.deprecated;
  }

  lemma OneFile(f: File, names: seq<Name>)
    ensures Latest([NormalizeAll(f)], names)
         == if FirstPresent(NormalizeAll(f), names) == [] then None else Some(FirstPresent(NormalizeAll(f), names))
  {
    hide FirstPresent, NormalizeAll;
    assert [NormalizeAll(f)][..0] == [];
    assert Latest([], names) == None;
  }

  /** In one file, an option with one value has the last value under the first of its names that the file assigns: its
      own name, then those of the deprecated entries in their order, an entry that leaves out the group or the name
      standing for the option's own, and an empty one for nothing. Without any it has no value. */
  lemma ValueInFile(opt: Opt, group: Option<string>, f: File, k: nat)
    requires !opt.multi && k <= |opt.deprecated| + 1 && NothingBefore(opt, group, f, k)
    requires k <= |opt.deprecated| ==> Counts(opt, k) && Assigned(f, NameAt(opt, group, k)) != []
    ensures GetFromNamespace(opt, View([f], map[]), group) ==
      if k > |opt.deprecated| then None
      else
        var vs := Assigned(f, NameAt(opt, group, k));
        Some(One(vs[|vs| - 1]))
  {
    hide Matching, Assigned, NormalizeAll, Normalize, EntryName, FirstPresent, Latest;
    var name, names := (SectionOf(group), opt.dest), NormalizeNames(FileNames(NamesOf(opt, group)));
    OwnNameFirst(opt, group);
    MatchingIgnoresCase(f, name);
    assert names[0] == (Normalize(name.0), name.1) && names[1..] == Rest(opt, group, 0);
    OneFile(f, names);
    FirstOfNames(NormalizeAll(f), names);
    assert NormalizeFiles([f]) == [NormalizeAll(f)];
    assert Counts(opt, 0) && NameAt(opt, group, 0) == name;
    if k > 0 {
      forall i | 0 <= i < k - 1 && !Empty(opt.deprecated[i])
        ensures Assigned(f, EntryName(opt, group, opt.deprecated[i])) == []
      {
        assert Counts(opt, i + 1) && NameAt(opt, group, i + 1) == EntryName(opt, group, opt.deprecated[i]);
      }
      FirstFrom(opt, group, f, 0, k - 1);
    }
    NoneOnCommandLine(NamesOf(opt, group), opt.positional);
  }

  lemma FirstOfNames(f: File, names: seq<Name>)
    requires names != []
    ensures FirstPresent(f, names) ==
      if Matching(f, names[0]) != [] then Matching(f, names[0]) else FirstPresent(f, names[1..])
  {
    hide Matching;
  }

  lemma {:induction false} NoneOnCommandLine(names: seq<OptName>, positional: bool)
    ensures CliLookup(map[], names, positional) == None
  {
    if names != [] {
      NoneOnCommandLine(names[1..], positional);
    }
  }

  /* ---------- several values ---------- */

  lemma {:induction false} AllFrom(opt: Opt, group: Option<string>, f: File, j: nat)
    requires j <= |opt.deprecated|
    ensures InFile(NormalizeAll(f), Rest(opt, group, j)) == FromEntries(opt, group, f, j)
    decreases |opt.deprecated| - j
  {
    hide Matching, Assigned, EntryName, NormalizeAll, Normalize, Empty;
    if j == |opt.deprecated| {
      assert Rest(opt, group, j) == [];
    } else {
      RestStep(opt, group, j);
      var name := EntryName(opt, group, opt.deprecated[j]);
      hide Rest;
      MatchingIgnoresCase(f, name);
      AllFrom(opt, group, f, j + 1);
      var rest := Rest(opt, group, j + 1);
      if Empty(opt.deprecated[j]) {
        assert [] + rest == rest;
      } else {
        InFileCons(NormalizeAll(f), (Normalize(name.0), name.1), rest);
      }
    }
  }

  lemma {:induction false} InFileCons(f: File, name: Name, names: seq<Name>)
    ensures InFile(f, [name] + names) == InFile(f, names) + Matching(f, name)
  {
    hide Matching;
    var all := [name] + names;
    if names == [] {
      assert all == [name] && all[..0] == [];
      assert InFile(f, all[..0]) == [] && InFile(f, names) == [];
      assert Matching(f, name) + [] == [] + Matching(f, name);
    } else {
      var n := |names| - 1;
      assert all[..|all| - 1] == [name] + names[..n] && all[|all| - 1] == names[n];
      InFileCons(f, name, names[..n]);
    }
  }

  // What a file has under the names of the entries from position j on, those of later entries first.
  function FromEntries(opt: Opt, group: Option<string>, f: File, j: nat): seq<string>
    requires j <= |opt.deprecated|
    decreases |opt.deprecated| - j
  {
    if j == |opt.deprecated| then []
    else
      var rest := FromEntries(opt, group, f, j + 1);
      if Empty(opt.deprecated[j]) then rest else rest + Assigned(f, EntryName(opt, group, opt.deprecated[j]))
  }

  lemma CollectedOne(f: File, names: seq<Name>)
    ensures Collected([f], names) == InFile(f, names)
  {
    hide InFile;
    assert [f][..0] == [];
    assert Collected([f][..0], names) == [];
  }

  /** A multi-valued option has all values that a file assigns under any of its names, those under its own name last. */
  lemma ValuesInFile(opt: Opt, group: Option<string>, f: File)
    requires opt.multi
    ensures GetFromNamespace(opt, View([f], map[]), group) ==
      var all := FromEntries(opt, group, f, 0) + Assigned(f, (SectionOf(group), opt.dest));
      if all == [] then None else Some(Many(all))
  {
    hide Matching, Assigned, NormalizeAll, Normalize, EntryName;
    var name, names := (SectionOf(group), opt.dest), NormalizeNames(FileNames(NamesOf(opt, group)));
    OwnNameFirst(opt, group);
    MatchingIgnoresCase(f, name);
    AllFrom(opt, group, f, 0);
    InFileCons(NormalizeAll(f), (Normalize(name.0), name.1), Rest(opt, group, 0));
    hide InFile, Rest;
    assert NormalizeFiles([f]) == [NormalizeAll(f)];
    CollectedOne(NormalizeAll(f), names);
    hide Collected, NormalizeNames, FileNames, NormalizeFiles, NamesOf;
    NoneOnCommandLine(NamesOf(opt, group), opt.positional);
  }

  /* ---------- the command line before files ---------- */

  // Where argparse keeps what is given under a name.
  function DestAt(name: OptName): string {
    match name.0
    case None => name.1
    case Some(g) => g + "_" + name.1
  }

  // A name has a value that counts: any, or for a positional option one that is not empty.
  predicate GivenAs(cli: map<string, Raw>, name: OptName, positional: bool) {
    DestAt(name) in cli && (positional ==> cli[DestAt(name)] != One("") && cli[DestAt(name)] != Many([]))
  }

  lemma {:induction false} FirstGiven(cli: map<string, Raw>, names: seq<OptName>, positional: bool, i: nat)
    requires i <= |names| && forall j :: 0 <= j < i ==> !GivenAs(cli, names[j], positional)
    requires i < |names| ==> GivenAs(cli, names[i], positional)
    ensures CliLookup(cli, names, positional) == if i < |names| then Some(cli[DestAt(names[i])]) else None
  {
    if names != [] && i > 0 {
      assert !GivenAs(cli, names[0], positional);
      FirstGiven(cli, names[1..], positional, i - 1);
    }
  }

  /** A value under the first of the option's names that has one on the command line comes before what the files say,
      and the files decide where none of its names has one. */
  lemma CommandLineFirst(opt: Opt, view: View, group: Option<string>, i: nat)
    requires var names := NamesOf(opt, group);
      && i <= |names| && (forall j :: 0 <= j < i ==> !GivenAs(view.cli, names[j], opt.positional))
      && (i < |names| ==> GivenAs(view.cli, names[i], opt.positional))
    ensures var names := NamesOf(opt, group);
      GetFromNamespace(opt, view, group) ==
        if i < |names| then Some(view.cli[DestAt(names[i])]) else GetFromNamespace(opt, view.(cli := map[]), group)
  {
    hide FileLookup;
    FirstGiven(view.cli, NamesOf(opt, group), opt.positional, i);
    NoneOnCommandLine(NamesOf(opt, group), opt.positional);
  }

  /** The names of an option are its own and those of its entries that say something. */
  lemma {:induction false} NamesExactly(opt: Opt, group: Option<string>, name: OptName)
    ensures name in NamesOf(opt, group) <==>
      name == (group, opt.dest) || exists d :: d in opt.deprecated && !Empty(d) && name == EntryKey(opt, group, d)
  {
    EntriesExactly(opt, group, opt.deprecated, name);
  }

  function EntryKey(opt: Opt, group: Option<string>, d: DeprecatedOpt): OptName {
    (if d.group == None || d.group == Some("") then group else d.group,
     match d.name case None => opt.dest case Some(n) => if n == "" then opt.dest else n)
  }

  lemma {:induction false} EntriesExactly(opt: Opt, group: Option<string>, ds: seq<DeprecatedOpt>, name: OptName)
    ensures name in DeprecatedNames(opt, group, ds) <==>
      exists d :: d in ds && !Empty(d) && name == EntryKey(opt, group, d)
  {
    if ds != [] {
      EntriesExactly(opt, group, ds[1..], name);
      var d := ds[0];
      var own := if Falsy(d.name) && Falsy(d.group) then [] else
                   [(if Falsy(d.group) then group else d.group, if Falsy(d.name) then opt.dest else d.name.value)];
      assert own == if Empty(d) then [] else [EntryKey(opt, group, d)];
      assert DeprecatedNames(opt, group, ds) == own + DeprecatedNames(opt, group, ds[1..]);
      forall e ensures e in ds <==> e == d || e in ds[1..] {
        assert ds == [d] + ds[1..];
      }
    }
  }

  /** An option of DEFAULT and one of a group can be kept in one place, and then each finds the other's value. */
  lemma PlaceShared(g: string, n: string, value: Raw, cli: map<string, Raw>)
    ensures CliLookup(cli[g + "_" + n := value], [(Some(g), n)], false)
         == CliLookup(cli[g + "_" + n := value], [(None, g + "_" + n)], false) == Some(value)
  {
  }
}
