/** How `_parse_config_files` of `oslo_config/cfg.py` gathers default files, `--config-file`,
    `--config-dir` and option arguments into one namespace. */
module CommandLine {
  import opened Wrappers
  import opened ConfigFiles
  import opened Options

  // Where argparse keeps the value of an option.
  function Key(o: CliOpt): string {
    Attribute((o.group, o.opt.dest))
  }

  datatype Source = NotFound(path: string) | Found(lines: seq<string>)

  datatype Arg = SetArg(key: string, value: string) | ConfigFileArg(source: Source) | ConfigDirArg(sources: seq<Source>)

  datatype Failure = BadFile(error: ReadError) | UnknownArgument(key: string)

  // What can set a value, one by one in the order in which it is met.
  datatype Item = ArgItem(key: string, value: string) | FileItem(file: File)

  ghost predicate ReadableSource(s: Source) {
    s.Found? ==> Readable(s.lines)
  }

  ghost function SourceItems(sources: seq<Source>): seq<Item>
    requires forall s :: s in sources ==> ReadableSource(s)
  {
    if sources == [] then []
    else
      var s := sources[|sources| - 1];
      assert ReadableSource(s);
      SourceItems(sources[..|sources| - 1]) + (if s.Found? then [FileItem(Content(s.lines))] else [])
  }

  function SourcesOf(a: Arg): seq<Source> {
    match a
    case SetArg(_, _) => []
    case ConfigFileArg(s) => [s]
    case ConfigDirArg(ss) => ss
  }

  ghost predicate ReadableArg(a: Arg) {
    forall s :: s in SourcesOf(a) ==> ReadableSource(s)
  }

  ghost function ArgItems(a: Arg): seq<Item>
    requires ReadableArg(a)
  {
    if a.SetArg? then [ArgItem(a.key, a.value)] else SourceItems(SourcesOf(a))
  }

  // The arguments left to right, every file and directory expanded in place.
  ghost function AllItems(args: seq<Arg>): seq<Item>
    requires forall a :: a in args ==> ReadableArg(a)
  {
    if args == [] then []
    else
      var a := args[|args| - 1];
      assert ReadableArg(a);
      AllItems(args[..|args| - 1]) + ArgItems(a)
  }

  predicate GivesConfigFile(args: seq<Arg>) {
    exists i :: 0 <= i < |args| && args[i].ConfigFileArg?
  }

  ghost predicate AllReadable(defaults: seq<Source>, args: seq<Arg>) {
    && (!GivesConfigFile(args) ==> forall s :: s in defaults ==> ReadableSource(s))
    && (forall a :: a in args ==> ReadableArg(a))
  }

  // The default files come first, unless a `--config-file` is given.
  ghost function Items(defaults: seq<Source>, args: seq<Arg>): seq<Item>
    requires AllReadable(defaults, args)
  {
    (if GivesConfigFile(args) then [] else SourceItems(defaults)) + AllItems(args)
  }

  // The paths of the files that could not be opened, in the order they were tried.
  function NotFoundIn(sources: seq<Source>): seq<string> {
    if sources == [] then []
    else
      NotFoundIn(sources[..|sources| - 1])
      + (if sources[|sources| - 1].NotFound? then [sources[|sources| - 1].path] else [])
  }

  function NotFoundInArgs(args: seq<Arg>): seq<string> {
    if args == [] then []
    else NotFoundInArgs(args[..|args| - 1]) + NotFoundIn(SourcesOf(args[|args| - 1]))
  }

  function AllNotFound(defaults: seq<Source>, args: seq<Arg>): seq<string> {
    (if GivesConfigFile(args) then [] else NotFoundIn(defaults)) + NotFoundInArgs(args)
  }

  // An argument that sets an option sets a registered one.
  predicate KnownArg(opts: seq<CliOpt>, a: Arg) {
    a.SetArg? ==> exists i :: 0 <= i < |opts| && Key(opts[i]) == a.key
  }

  lemma NotFoundOne(sources: seq<Source>, i: nat)
    requires i < |sources|
    ensures NotFoundIn(sources[..i + 1])
         == NotFoundIn(sources[..i]) + (if sources[i].NotFound? then [sources[i].path] else [])
    ensures NotFoundIn([sources[i]]) == if sources[i].NotFound? then [sources[i].path] else []
  {
    assert sources[..i + 1][..i] == sources[..i];
    assert [sources[i]][..0] == [];
  }

  lemma NotFoundOneArg(args: seq<Arg>, i: nat)
    requires i < |args|
    ensures NotFoundInArgs(args[..i + 1]) == NotFoundInArgs(args[..i]) + NotFoundIn(SourcesOf(args[i]))
  {
    assert args[..i + 1][..i] == args[..i];
  }

  function FilesOf(items: seq<Item>): seq<File> {
    if items == [] then []
    else
      var rest, last := FilesOf(items[..|items| - 1]), items[|items| - 1];
      if last.FileItem? then rest + [last.file] else rest
  }

  /* ---------- the last source wins ---------- */

  // What one source says about an option.
  function Contribution(o: CliOpt, item: Item): Option<Raw> {
    match item
    case ArgItem(key, value) =>
      if key != Key(o) then None else if o.opt.multi then Some(Many([value])) else Some(One(value))
    case FileItem(f) => FileLookup([f], NamesOf(o.opt, o.group), o.opt.multi)
  }

  // The last contribution, or for a multi-valued option all of them in order.
  function Final(o: CliOpt, items: seq<Item>): Option<Raw> {
    if items == [] then None
    else
      var before, c := Final(o, items[..|items| - 1]), Contribution(o, items[|items| - 1]);
      if c.None? then before
      else if o.opt.multi && before.Some? && before.value.Many? && c.value.Many? then
        Some(Many(before.value.ss + c.value.ss))
      else c
  }

  // The attributes hold exactly the final values of the options.
  ghost predicate Gathered(opts: seq<CliOpt>, cli: map<string, Raw>, items: seq<Item>) {
    forall o :: o in opts ==>
      var r := Final(o, items);
      (r.Some? <==> Key(o) in cli) && (r.Some? ==> cli[Key(o)] == r.value)
  }

  predicate DistinctKeys(opts: seq<CliOpt>) {
    forall i, j :: 0 <= i < j < |opts| ==> Key(opts[i]) != Key(opts[j])
  }

  lemma {:induction false} FinalShape(o: CliOpt, items: seq<Item>)
    ensures Final(o, items).Some? ==> (Final(o, items).value.Many? <==> o.opt.multi)
  {
    if items != [] {
      FinalShape(o, items[..|items| - 1]);
    }
  }

  // For an option with one value, some source is the last to set it and its value is final.
  lemma {:induction false} LastSourceWins(o: CliOpt, items: seq<Item>)
    requires !o.opt.multi
    ensures Final(o, items).None? <==> forall i :: 0 <= i < |items| ==> Contribution(o, items[i]).None?
    ensures Final(o, items).Some? ==>
      exists i :: 0 <= i < |items| && Final(o, items) == Contribution(o, items[i])
        && forall j :: i < j < |items| ==> Contribution(o, items[j]).None?
  {
    hide Contribution;
    if items != [] {
      var n := |items| - 1;
      LastSourceWins(o, items[..n]);
      if Contribution(o, items[n]).Some? {
        assert Final(o, items) == Contribution(o, items[n]);
      } else if Final(o, items).Some? {
        var i :| 0 <= i < n && Final(o, items[..n]) == Contribution(o, items[..n][i])
          && forall j :: i < j < n ==> Contribution(o, items[..n][j]).None?;
        assert Contribution(o, items[i]) == Contribution(o, items[..n][i]);
        forall j | i < j < |items| ensures Contribution(o, items[j]).None? {
          assert j < n ==> items[j] == items[..n][j];
        }
      } else {
        forall i | 0 <= i < |items| ensures Contribution(o, items[i]).None? {
          assert i < n ==> items[i] == items[..n][i];
        }
      }
    }
  }

  function Values(c: Option<Raw>): seq<string> {
    if c.Some? && c.value.Many? then c.value.ss else []
  }

  function AllValues(o: CliOpt, items: seq<Item>): seq<string> {
    if items == [] then [] else AllValues(o, items[..|items| - 1]) + Values(Contribution(o, items[|items| - 1]))
  }

  // A multi-valued option ends with the values of all sources in order.
  lemma {:induction false} AllSourcesInOrder(o: CliOpt, items: seq<Item>)
    requires o.opt.multi
    ensures Values(Final(o, items)) == AllValues(o, items)
    ensures Final(o, items).Some? ==> Final(o, items) == Some(Many(AllValues(o, items)))
    ensures Final(o, items).None? <==> forall i :: 0 <= i < |items| ==> Contribution(o, items[i]).None?
  {
    hide Contribution;
    if items != [] {
      var n := |items| - 1;
      var before, c := Final(o, items[..n]), Contribution(o, items[n]);
      AllSourcesInOrder(o, items[..n]);
      FinalShape(o, items[..n]);
      ContributionShape(o, items[n]);
      assert forall i :: 0 <= i < n ==> items[i] == items[..n][i];
      assert c.None? ==> Values(before) + Values(c) == Values(before);
    }
  }

  lemma ContributionShape(o: CliOpt, item: Item)
    ensures Contribution(o, item).Some? ==> (Contribution(o, item).value.Many? <==> o.opt.multi)
  {
  }

  /* ---------- final lookups ---------- */

  lemma {:induction false} NothingInFiles(files: seq<File>, names: seq<OptName>, multi: bool)
    requires forall f :: f in files ==> FileLookup([f], names, multi).None?
    ensures FileLookup(files, names, multi).None?
  {
    if files != [] {
      var n := |files| - 1;
      var norm, ns := NormalizeFiles(files), NormalizeNames(FileNames(names));
      NothingInFiles(files[..n], names, multi);
      assert files[n] in files && FileLookup([files[n]], names, multi).None?;
      assert NormalizeFiles([files[n]]) == [norm[n]];
      assert norm[..n] == NormalizeFiles(files[..n]);
      LookupOneFile(norm[n], ns);
      NeverEmpty(norm[..n], ns);
    }
  }

  lemma LookupOneFile(f: File, ns: seq<Name>)
    ensures Collected([f], ns) == InFile(f, ns)
    ensures Latest([f], ns) == if FirstPresent(f, ns) == [] then None else Some(FirstPresent(f, ns))
  {
    assert [f][..0] == [];
  }

  lemma {:induction false} NeverEmpty(files: seq<File>, ns: seq<Name>)
    ensures Latest(files, ns).Some? ==> Latest(files, ns).value != []
  {
    if files != [] {
      NeverEmpty(files[..|files| - 1], ns);
    }
  }

  lemma {:induction false} FilesAmong(items: seq<Item>)
    ensures forall f :: f in FilesOf(items) ==> exists i :: 0 <= i < |items| && items[i] == FileItem(f)
  {
    if items != [] {
      var n := |items| - 1;
      FilesAmong(items[..n]);
      forall f | f in FilesOf(items) ensures exists i :: 0 <= i < |items| && items[i] == FileItem(f) {
        if f in FilesOf(items[..n]) {
          var i :| 0 <= i < n && items[..n][i] == FileItem(f);
          assert items[i] == FileItem(f);
        } else {
          assert items[n] == FileItem(f);
        }
      }
    }
  }

  // Looking an option up finds its final value. Where no source sets it, only attributes under its
  // deprecated names are left, the files having nothing.
  lemma LookupIsFinal(opts: seq<CliOpt>, o: CliOpt, items: seq<Item>, view: View)
    requires o in opts && !o.opt.positional
    requires view.files == FilesOf(items) && Gathered(opts, view.cli, items)
    ensures GetFromNamespace(o.opt, view, o.group) ==
            if Final(o, items).Some? then Final(o, items)
            else CliLookup(view.cli, NamesOf(o.opt, o.group)[1..], false)
  {
    hide FileLookup;
    var names := NamesOf(o.opt, o.group);
    if Final(o, items).None? {
      if o.opt.multi { AllSourcesInOrder(o, items); } else { LastSourceWins(o, items); }
      FilesAmong(items);
      forall f | f in view.files ensures FileLookup([f], names, o.opt.multi).None? {
        var i :| 0 <= i < |items| && items[i] == FileItem(f);
        assert Contribution(o, items[i]).None?;
      }
      NothingInFiles(view.files, names, o.opt.multi);
    }
  }

  /* ---------- gathering ---------- */

  // An attribute takes a value, or is extended by the values for a multi-valued option.
  function Stored(cli: map<string, Raw>, o: CliOpt, values: seq<string>): map<string, Raw>
    requires |values| == 1 || o.opt.multi
  {
    var k := Key(o);
    if o.opt.multi then cli[k := Many((if k in cli && cli[k].Many? then cli[k].ss else []) + values)]
    else cli[k := One(values[0])]
  }

  class Gatherer {
    const opts: seq<CliOpt>
    const ns: Namespace
    ghost var items: seq<Item>

    ghost predicate Valid()
      reads this, ns
    {
      && DistinctKeys(opts) && (forall o :: o in opts ==> !o.opt.positional)
      && ns.Valid() && ns.files == FilesOf(items) && Gathered(opts, ns.cli, items)
    }

    constructor (opts: seq<CliOpt>)
      requires DistinctKeys(opts) && forall o :: o in opts ==> !o.opt.positional
      ensures Valid() && items == [] && this.opts == opts && fresh(ns) && ns.filesNotFound == []
    {
      this.opts := opts;
      this.ns := new Namespace();
      this.items := [];
    }

    // Values a new file has for command-line options count as if given at that point.
    method ParseCliOptsFromConfigFile(sections: Sections, norm: Sections, f: File)
      requires DistinctKeys(opts) && ns.Valid() && Gathered(opts, ns.cli, items)
      requires forall o :: o in opts ==> !o.opt.positional
      requires Represents(sections, f) && Represents(norm, NormalizeAll(f))
      modifies ns`cli
      ensures Gathered(opts, ns.cli, items + [FileItem(f)])
    {
      hide Represents, NormalizeAll;
      var single := new Namespace();
      single.AddParsedConfigFile(sections, norm, f);
      ghost var items' := items + [FileItem(f)];
      assert items'[..|items'| - 1] == items && [] + [f] == [f];
      for i := 0 to |opts|
        invariant single.Valid() && single.Holds() == View([f], map[])
        invariant Gathered(opts[..i], ns.cli, items') && Gathered(opts[i..], ns.cli, items)
      {
        var o := opts[i];
        assert o in opts && o in opts[i..];
        ghost var cli0 := ns.cli;
        var value := single.GetValue(NamesOf(o.opt, o.group), o.opt.multi, o.opt.positional);
        FileContribution(o, f, value);
        FinalShape(o, items);
        if value.Some? {
          ns.cli := Stored(ns.cli, o, if o.opt.multi then value.value.ss else [value.value.s]);
        }
        OptionDone(opts, i, cli0, ns.cli, items, FileItem(f));
      }
      assert opts[..|opts|] == opts;
    }

    method ParseFile(source: Source) returns (err: Option<Failure>)
      requires Valid()
      modifies this, ns
      ensures err.None? <==> ReadableSource(source)
      ensures err.None? ==> Valid() && items == old(items) + SourceItems([source])
      ensures err.None? ==>
        ns.filesNotFound == old(ns.filesNotFound) + if source.NotFound? then [source.path] else []
      ensures err.Some? ==> err.value.BadFile?
    {
      hide Gathered, DistinctKeys, Represents, NormalizeAll, Readable, Content, FilesOf;
      OneSource(source);
      match source {
        case NotFound(path) =>
          ns.filesNotFound := ns.filesNotFound + [path];
          return None;
        case Found(lines) =>
          var parser := new ConfigParser();
          var bad := parser.ParseLines(lines);
          if bad.Some? {
            return Some(BadFile(bad.value));
          }
          var f := FileOf(parser.seen);
          ns.AddParsedConfigFile(parser.sections, parser.normalized, f);
          ParseCliOptsFromConfigFile(parser.sections, parser.normalized, f);
          OneMoreFile(items, f);
          items := items + [FileItem(f)];
          return None;
      }
    }

    method ParseFiles(sources: seq<Source>) returns (err: Option<Failure>)
      requires Valid()
      modifies this, ns
      ensures err.None? <==> forall s :: s in sources ==> ReadableSource(s)
      ensures err.None? ==> Valid() && items == old(items) + SourceItems(sources)
      ensures err.None? ==> ns.filesNotFound == old(ns.filesNotFound) + NotFoundIn(sources)
      ensures err.Some? ==> err.value.BadFile?
    {
      hide Gathered, DistinctKeys, FilesOf, ReadableSource, SourceItems, NotFoundIn;
      NoSources();
      assert NotFoundIn([]) == [] by { NothingNotFound(); }
      for i := 0 to |sources|
        invariant forall s :: s in sources[..i] ==> ReadableSource(s)
        invariant Valid() && items == old(items) + SourceItems(sources[..i])
        invariant ns.filesNotFound == old(ns.filesNotFound) + NotFoundIn(sources[..i])
      {
        NotFoundOne(sources, i);
        err := ParseFile(sources[i]);
        assert sources[i] in sources;
        if err.Some? {
          return;
        }
        OneMoreSource(sources, i);
      }
      assert sources[..|sources|] == sources;
      return None;
    }

    method SetOption(key: string, value: string) returns (ok: bool)
      requires Valid()
      modifies this`items, ns`cli
      ensures ok <==> exists i :: 0 <= i < |opts| && Key(opts[i]) == key
      ensures ok ==> Valid() && items == old(items) + [ArgItem(key, value)]
    {
      for i := 0 to |opts|
        invariant forall j :: 0 <= j < i ==> Key(opts[j]) != key
        invariant Valid() && items == old(items)
      {
        if Key(opts[i]) == key {
          Store(i, value);
          return true;
        }
      }
      return false;
    }

    // An option argument: store, or append for a multi-valued option.
    method Store(i: nat, value: string)
      requires Valid() && i < |opts|
      modifies this`items, ns`cli
      ensures Valid() && items == old(items) + [ArgItem(Key(opts[i]), value)]
    {
      hide Gathered, FilesOf, DistinctKeys, Stored, Final, Represents, NormalizeAll;
      ghost var item := ArgItem(Key(opts[i]), value);
      FinalShape(opts[i], items);
      ArgumentDone(opts, i, ns.cli, items, value);
      OneMoreArgument(items, item);
      ns.cli := Stored(ns.cli, opts[i], [value]);
      items := items + [item];
    }

    method ParseArg(arg: Arg) returns (err: Option<Failure>)
      requires Valid()
      modifies this, ns
      ensures err.None? <==> ReadableArg(arg) && KnownArg(opts, arg)
      ensures err.None? ==> Valid() && items == old(items) + ArgItems(arg)
      ensures err.None? ==> ns.filesNotFound == old(ns.filesNotFound) + NotFoundIn(SourcesOf(arg))
    {
      hide Gathered, DistinctKeys, FilesOf;
      NothingNotFound();
      match arg {
        case SetArg(key, value) =>
          var ok := SetOption(key, value);
          if !ok {
            return Some(UnknownArgument(key));
          }
          return None;
        case ConfigFileArg(source) =>
          NotFoundOne([source], 0);
          err := ParseFile(source);
        case ConfigDirArg(sources) =>
          err := ParseFiles(sources);
      }
    }
  }

  lemma OneMoreFile(items: seq<Item>, f: File)
    ensures FilesOf(items + [FileItem(f)]) == FilesOf(items) + [f]
  {
    assert (items + [FileItem(f)])[..|items|] == items;
  }

  lemma OneMoreArgument(items: seq<Item>, item: Item)
    requires item.ArgItem?
    ensures FilesOf(items + [item]) == FilesOf(items)
  {
    assert (items + [item])[..|items|] == items;
  }

  lemma NoArgs()
    ensures AllItems([]) == []
  {
  }

  lemma OneMoreArg(args: seq<Arg>, i: nat)
    requires i < |args| && (forall a :: a in args[..i + 1] ==> ReadableArg(a))
    ensures forall a :: a in args[..i] ==> ReadableArg(a)
    ensures ReadableArg(args[i]) && AllItems(args[..i + 1]) == AllItems(args[..i]) + ArgItems(args[i])
  {
    hide ReadableArg, ArgItems;
    assert args[..i + 1][..i] == args[..i] && args[..i + 1] == args[..i] + [args[i]];
    assert args[i] in args[..i + 1];
  }

  lemma NothingNotFound()
    ensures NotFoundIn([]) == [] && NotFoundInArgs([]) == []
  {
  }

  lemma NoSources()
    ensures SourceItems([]) == []
  {
  }

  lemma OneMoreSource(sources: seq<Source>, i: nat)
    requires i < |sources| && ReadableSource(sources[i])
    requires forall s :: s in sources[..i] ==> ReadableSource(s)
    ensures forall s :: s in sources[..i + 1] ==> ReadableSource(s)
    ensures SourceItems(sources[..i + 1]) == SourceItems(sources[..i]) + SourceItems([sources[i]])
  {
    hide Readable, Content;
    assert sources[..i + 1] == sources[..i] + [sources[i]];
    assert sources[..i + 1][..i] == sources[..i];
    OneSource(sources[i]);
  }

  lemma OneSource(s: Source)
    ensures ReadableSource(s) ==>
      SourceItems([s]) == if s.Found? then [FileItem(Content(s.lines))] else []
  {
    assert [s][..0] == [];
  }

  lemma FileContribution(o: CliOpt, f: File, value: Option<Raw>)
    requires value == Lookup(View([f], map[]), NamesOf(o.opt, o.group), o.opt.multi, o.opt.positional)
    ensures value == Contribution(o, FileItem(f))
    ensures value.Some? ==> (value.value.Many? <==> o.opt.multi)
  {
    hide FileLookup;
    NoCli(NamesOf(o.opt, o.group), o.opt.positional);
    FinalShape(o, [FileItem(f)]);
    assert [FileItem(f)][..0] == [];
    assert Final(o, [FileItem(f)]) == Contribution(o, FileItem(f));
  }

  lemma {:induction false} NoCli(names: seq<OptName>, positional: bool)
    ensures CliLookup(map[], names, positional).None?
  {
    if names != [] {
      NoCli(names[1..], positional);
    }
  }

  // One option takes in one more source while the others keep what they have.
  lemma OptionDone(opts: seq<CliOpt>, i: nat, cli: map<string, Raw>, cli': map<string, Raw>, items: seq<Item>,
                   item: Item)
    requires i < |opts| && DistinctKeys(opts)
    requires Gathered(opts[..i], cli, items + [item]) && Gathered(opts[i..], cli, items)
    requires var o, c := opts[i], Contribution(opts[i], item);
             && (c.Some? ==> (c.value.Many? <==> o.opt.multi))
             && cli' == if c.None? then cli else Stored(cli, o, if o.opt.multi then c.value.ss else [c.value.s])
    requires Final(opts[i], items).Some? ==> (Final(opts[i], items).value.Many? <==> opts[i].opt.multi)
    ensures Gathered(opts[..i + 1], cli', items + [item]) && Gathered(opts[i + 1..], cli', items)
  {
    hide Contribution;
    var o := opts[i];
    assert o in opts[i..];
    assert (items + [item])[..|items|] == items;
    forall o' | o' in opts[..i + 1]
      ensures var r := Final(o', items + [item]);
              (r.Some? <==> Key(o') in cli') && (r.Some? ==> cli'[Key(o')] == r.value)
    {
      var j :| 0 <= j <= i && opts[j] == o';
      if j < i {
        assert o' in opts[..i] && Key(opts[j]) != Key(opts[i]);
      }
    }
    forall o' | o' in opts[i + 1..]
      ensures var r := Final(o', items);
              (r.Some? <==> Key(o') in cli') && (r.Some? ==> cli'[Key(o')] == r.value)
    {
      var j :| i < j < |opts| && opts[j] == o';
      assert o' in opts[i..] && Key(opts[i]) != Key(opts[j]);
    }
  }

  // An argument reaches one option; to every other it says nothing.
  lemma ArgumentDone(opts: seq<CliOpt>, i: nat, cli: map<string, Raw>, items: seq<Item>, value: string)
    requires i < |opts| && DistinctKeys(opts)
    requires Gathered(opts, cli, items)
    requires Final(opts[i], items).Some? ==> (Final(opts[i], items).value.Many? <==> opts[i].opt.multi)
    ensures Gathered(opts, Stored(cli, opts[i], [value]), items + [ArgItem(Key(opts[i]), value)])
  {
    var items', cli' := items + [ArgItem(Key(opts[i]), value)], Stored(cli, opts[i], [value]);
    assert items'[..|items|] == items;
    forall o | o in opts
      ensures var r := Final(o, items');
              (r.Some? <==> Key(o) in cli') && (r.Some? ==> cli'[Key(o)] == r.value)
    {
      var j :| 0 <= j < |opts| && opts[j] == o;
      assert j != i ==> Key(opts[j]) != Key(opts[i]);
    }
  }

  // The namespace of a parse that succeeds: it has the files in order, answers every command-line option by its final
  // value, and remembers the files that were not found.
  ghost predicate Gathers(opts: seq<CliOpt>, defaults: seq<Source>, args: seq<Arg>, view: View, missing: seq<string>) {
    && AllReadable(defaults, args) && (forall a :: a in args ==> KnownArg(opts, a))
    && missing == AllNotFound(defaults, args)
    && view.files == FilesOf(Items(defaults, args))
    && forall o :: o in opts ==>
         GetFromNamespace(o.opt, view, o.group) ==
           if Final(o, Items(defaults, args)).Some? then Final(o, Items(defaults, args))
           else CliLookup(view.cli, NamesOf(o.opt, o.group)[1..], false)
  }

  // `_parse_config_files`, up to the validation of what it has gathered.
  method ParseConfigFiles(opts: seq<CliOpt>, defaults: seq<Source>, args: seq<Arg>)
    returns (ns: Namespace, err: Option<Failure>)
    requires DistinctKeys(opts) && forall o :: o in opts ==> !o.opt.positional
    ensures fresh(ns)
    ensures err.None? <==> AllReadable(defaults, args) && forall a :: a in args ==> KnownArg(opts, a)
    ensures err.None? ==> ns.Valid() && Gathers(opts, defaults, args, ns.Holds(), ns.filesNotFound)
  {
    hide Gathered, DistinctKeys, FilesOf, GetFromNamespace, Final, ReadableSource, ReadableArg, ArgItems, AllItems,
      KnownArg, NotFoundIn, NotFoundInArgs;
    NoArgs();
    NothingNotFound();
    var g := new Gatherer(opts);
    ns := g.ns;
    if !GivesConfigFile(args) {
      err := g.ParseFiles(defaults);
      if err.Some? { return; }
    }
    ghost var start := g.items;
    ghost var missing := if GivesConfigFile(args) then [] else NotFoundIn(defaults);
    assert start == if GivesConfigFile(args) then [] else SourceItems(defaults);
    for i := 0 to |args|
      invariant forall a :: a in args[..i] ==> ReadableArg(a) && KnownArg(opts, a)
      invariant ns.filesNotFound == missing + NotFoundInArgs(args[..i]) && g.opts == opts && g.ns == ns
      invariant g.Valid() && fresh(g) && fresh(g.ns) && g.items == start + AllItems(args[..i])
    {
      assert args[i] in args;
      NotFoundOneArg(args, i);
      err := g.ParseArg(args[i]);
      if err.Some? { return; }
      assert args[..i + 1] == args[..i] + [args[i]];
      OneMoreArg(args, i);
    }
    assert args[..|args|] == args;
    ghost var items := Items(defaults, args);
    assert g.items == items;
    forall o | o in opts
      ensures GetFromNamespace(o.opt, ns.Holds(), o.group) ==
                if Final(o, items).Some? then Final(o, items)
                else CliLookup(ns.cli, NamesOf(o.opt, o.group)[1..], false)
    {
      LookupIsFinal(opts, o, items, ns.Holds());
    }
    err := None;
  }
}
