/** What one more argument does to the values that `_parse_config_files` of `oslo_config/cfg.py` gathers. */
module Arguments {
  import opened Wrappers
  import opened ConfigFiles
  import opened Options
  import opened Naming
  import opened CommandLine

  // A value given after another one takes its place, or for a multi-valued option its turn.
  function Joined(o: CliOpt, before: Option<Raw>, c: Option<Raw>): Option<Raw> {
    match (before, c)
    case (_, None) => before
    case (Some(Many(xs)), Some(Many(ys))) => if o.opt.multi then Some(Many(xs + ys)) else c
    case _ => c
  }

  lemma {:induction false} FinalConcat(o: CliOpt, a: seq<Item>, b: seq<Item>)
    ensures Final(o, a + b) == Joined(o, Final(o, a), Final(o, b))
  {
    hide Contribution;
    if b == [] {
      assert a + b == a;
    } else {
      var init, last := b[..|b| - 1], b[|b| - 1];
      assert (a + b)[..|a + b| - 1] == a + init && (a + b)[|a + b| - 1] == last;
      FinalConcat(o, a, init);
      FinalShape(o, a);
      FinalShape(o, init);
      FinalShape(o, b);
      var x, y, z := Final(o, a), Final(o, init), Contribution(o, last);
      ContributionShape(o, last);
      if o.opt.multi && x.Some? && y.Some? && z.Some? {
        assert x.value.ss + y.value.ss + z.value.ss == x.value.ss + (y.value.ss + z.value.ss);
      }
    }
  }

  lemma FinalOne(o: CliOpt, item: Item)
    ensures Final(o, [item]) == Contribution(o, item) && Final(o, []) == None
  {
    hide Contribution;
    assert [item][..0] == [];
  }

  lemma ItemsMore(defaults: seq<Source>, args: seq<Arg>, a: Arg)
    requires AllReadable(defaults, args) && ReadableArg(a) && (a.ConfigFileArg? ==> GivesConfigFile(args))
    ensures AllReadable(defaults, args + [a])
    ensures Items(defaults, args + [a]) == Items(defaults, args) + ArgItems(a)
  {
    hide ReadableArg, ArgItems, ReadableSource;
    var args' := args + [a];
    assert args'[..|args|] == args && args'[|args|] == a;
    if i :| 0 <= i < |args| && args[i].ConfigFileArg? {
      assert args'[i].ConfigFileArg?;
    }
    if j :| 0 <= j < |args'| && args'[j].ConfigFileArg? {
      assert j < |args| ==> args[j].ConfigFileArg?;
    }
    forall x | x in args' ensures ReadableArg(x) {
      assert x in args || x == a;
    }
    assert AllItems(args') == AllItems(args) + ArgItems(a);
    assert Items(defaults, args') == Items(defaults, args) + ArgItems(a);
  }

  function DestOf(o: CliOpt): string {
    DestAt((o.group, o.opt.dest))
  }

  /** An option that is set on the command line has that value, after all values it has so far if it has many; the other
      options have what they had. */
  lemma SetLast(defaults: seq<Source>, args: seq<Arg>, o: CliOpt, dest: string, value: string)
    requires AllReadable(defaults, args)
    ensures AllReadable(defaults, args + [SetArg(dest, value)])
    ensures var before, after :=
      Final(o, Items(defaults, args)), Final(o, Items(defaults, args + [SetArg(dest, value)]));
      if dest != DestOf(o) then after == before
      else if !o.opt.multi then after == Some(One(value))
      else after == Some(Many((if before.Some? && before.value.Many? then before.value.ss else []) + [value]))
  {
    hide Items, AllReadable, Contribution, Final, DestOf, ReadableArg;
    SetReadable(dest, value);
    ItemsMore(defaults, args, SetArg(dest, value));
    FinalConcat(o, Items(defaults, args), [ArgItem(dest, value)]);
    FinalOne(o, ArgItem(dest, value));
    FinalShape(o, Items(defaults, args));
    ArgumentSays(o, dest, value);
    assert o.opt.multi ==> [] + [value] == [value];
  }

  lemma SetReadable(dest: string, value: string)
    ensures ReadableArg(SetArg(dest, value)) && ArgItems(SetArg(dest, value)) == [ArgItem(dest, value)]
  {
  }

  lemma ArgumentSays(o: CliOpt, dest: string, value: string)
    ensures Contribution(o, ArgItem(dest, value)) ==
      if dest != DestOf(o) then None else if o.opt.multi then Some(Many([value])) else Some(One(value))
  {
  }

  // What a file by itself has for an option.
  ghost function InLines(o: CliOpt, lines: seq<string>): Option<Raw>
    requires Readable(lines)
  {
    GetFromNamespace(o.opt, View([Content(lines)], map[]), o.group)
  }

  lemma FileSays(o: CliOpt, lines: seq<string>)
    requires Readable(lines)
    ensures Contribution(o, FileItem(Content(lines))) == InLines(o, lines)
  {
    hide FileLookup, Readable, Content;
    NoCli(NamesOf(o.opt, o.group), o.opt.positional);
  }

  /** So it has a value that a further `--config-file` has for it. */
  lemma FileLast(defaults: seq<Source>, args: seq<Arg>, o: CliOpt, lines: seq<string>)
    requires AllReadable(defaults, args) && Readable(lines) && exists i :: 0 <= i < |args| && args[i].ConfigFileArg?
    ensures AllReadable(defaults, args + [ConfigFileArg(Found(lines))])
    ensures Final(o, Items(defaults, args + [ConfigFileArg(Found(lines))]))
         == Joined(o, Final(o, Items(defaults, args)), InLines(o, lines))
  {
    hide Items, AllReadable, Contribution, Readable, Content, InLines;
    var a := ConfigFileArg(Found(lines));
    assert forall s :: s in SourcesOf(a) ==> s == Found(lines);
    ItemsMore(defaults, args, a);
    OneSource(Found(lines));
    assert SourcesOf(a) == [Found(lines)];
    FinalConcat(o, Items(defaults, args), [FileItem(Content(lines))]);
    FinalOne(o, FileItem(Content(lines)));
    FileSays(o, lines);
  }

  /** Or the last file of a `--config-dir`, the files of which are read in order. */
  lemma DirectoryLast(defaults: seq<Source>, args: seq<Arg>, o: CliOpt, sources: seq<Source>, lines: seq<string>)
    requires AllReadable(defaults, args + [ConfigDirArg(sources)]) && Readable(lines)
    ensures AllReadable(defaults, args + [ConfigDirArg(sources + [Found(lines)])])
    ensures Final(o, Items(defaults, args + [ConfigDirArg(sources + [Found(lines)])]))
         == Joined(o, Final(o, Items(defaults, args + [ConfigDirArg(sources)])), InLines(o, lines))
  {
    hide Contribution, Readable, Content, InLines;
    var a, a', more := ConfigDirArg(sources), ConfigDirArg(sources + [Found(lines)]), sources + [Found(lines)];
    var before, after := args + [a], args + [a'];
    FewerReadable(defaults, args, a);
    forall s | s in more ensures ReadableSource(s) {
      assert s in sources || s == Found(lines);
    }
    ItemsMore(defaults, args, a);
    ItemsMore(defaults, args, a');
    hide Items, AllReadable;
    assert more[..|sources|] == sources && more[|sources|] == Found(lines);
    assert ArgItems(a') == ArgItems(a) + [FileItem(Content(lines))];
    assert Items(defaults, after) == Items(defaults, before) + [FileItem(Content(lines))];
    FinalConcat(o, Items(defaults, before), [FileItem(Content(lines))]);
    FinalOne(o, FileItem(Content(lines)));
    FileSays(o, lines);
  }

  lemma FewerReadable(defaults: seq<Source>, args: seq<Arg>, a: Arg)
    requires AllReadable(defaults, args + [a]) && !a.ConfigFileArg?
    ensures AllReadable(defaults, args) && ReadableArg(a)
  {
    hide ReadableArg, ReadableSource;
    var args' := args + [a];
    assert a in args' && forall x :: x in args ==> x in args';
    if j :| 0 <= j < |args'| && args'[j].ConfigFileArg? {
      assert args[j].ConfigFileArg?;
    }
  }

  /** The default files come before all arguments if no `--config-file` is among these, and are not read otherwise. */
  lemma DefaultsFirst(defaults: seq<Source>, args: seq<Arg>, o: CliOpt)
    requires AllReadable(defaults, args)
    ensures AllReadable([], args)
    ensures (exists a :: a in args && a.ConfigFileArg?) ==> Items(defaults, args) == Items([], args)
    ensures (forall a :: a in args ==> !a.ConfigFileArg?) ==>
      && AllReadable(defaults, [])
      && Final(o, Items(defaults, args)) == Joined(o, Final(o, Items(defaults, [])), Final(o, Items([], args)))
  {
    hide ReadableArg, ReadableSource, Contribution, Final;
    if GivesConfigFile(args) {
      assert Items(defaults, args) == Items([], args);
    } else {
      assert [] + AllItems(args) == AllItems(args);
      assert SourceItems(defaults) + [] == SourceItems(defaults);
      FinalConcat(o, SourceItems(defaults), AllItems(args));
    }
  }

  lemma SourcesSay(o: CliOpt, sources: seq<Source>, lines: seq<string>)
    requires (forall s :: s in sources ==> ReadableSource(s)) && Readable(lines)
    ensures AllReadable(sources + [Found(lines)], []) && AllReadable(sources, [])
    ensures Final(o, Items(sources + [Found(lines)], [])) == Joined(o, Final(o, Items(sources, [])), InLines(o, lines))
    ensures AllReadable([], []) && Final(o, Items([], [])) == None
  {
    hide Contribution, Readable, Content, InLines;
    var more := sources + [Found(lines)];
    assert more[..|sources|] == sources && more[|sources|] == Found(lines);
    assert Items(more, []) == Items(sources, []) + [FileItem(Content(lines))];
    FinalConcat(o, Items(sources, []), [FileItem(Content(lines))]);
    FinalOne(o, FileItem(Content(lines)));
    FileSays(o, lines);
  }

  /** All files that are tried, and found, have to be readable. */
  lemma ReadableIff(defaults: seq<Source>, args: seq<Arg>)
    ensures AllReadable(defaults, args) <==>
      && (forall lines :: ConfigFileArg(Found(lines)) in args ==> Readable(lines))
      && (forall sources, lines :: ConfigDirArg(sources) in args && Found(lines) in sources ==> Readable(lines))
      && ((forall a :: a in args ==> !a.ConfigFileArg?) ==>
            forall lines :: Found(lines) in defaults ==> Readable(lines))
  {
    hide Readable;
    if && (forall lines :: ConfigFileArg(Found(lines)) in args ==> Readable(lines))
       && (forall sources, lines :: ConfigDirArg(sources) in args && Found(lines) in sources ==> Readable(lines)) {
      forall a | a in args ensures ReadableArg(a) {
        forall s | s in SourcesOf(a) && s.Found? ensures Readable(s.lines) {
          assert s == Found(s.lines);
          assert a.ConfigFileArg? ==> a == ConfigFileArg(Found(s.lines));
          assert a.ConfigDirArg? ==> a == ConfigDirArg(a.sources);
        }
      }
    }
    if AllReadable(defaults, args) {
      forall lines | ConfigFileArg(Found(lines)) in args ensures Readable(lines) {
        assert ReadableArg(ConfigFileArg(Found(lines))) && Found(lines) in SourcesOf(ConfigFileArg(Found(lines)));
      }
      forall sources, lines | ConfigDirArg(sources) in args && Found(lines) in sources ensures Readable(lines) {
        assert ReadableArg(ConfigDirArg(sources)) && Found(lines) in SourcesOf(ConfigDirArg(sources));
      }
    }
  }

  lemma {:induction false} NotFoundAmong(sources: seq<Source>, path: string)
    ensures path in NotFoundIn(sources) <==> NotFound(path) in sources
  {
    if sources != [] {
      var init, last := sources[..|sources| - 1], sources[|sources| - 1];
      NotFoundAmong(init, path);
      assert sources == init + [last];
    }
  }

  lemma {:induction false} NotFoundInArguments(args: seq<Arg>, path: string)
    ensures path in NotFoundInArgs(args) <==> exists a :: a in args && NotFound(path) in SourcesOf(a)
  {
    if args != [] {
      var init, last := args[..|args| - 1], args[|args| - 1];
      NotFoundInArguments(init, path);
      NotFoundAmong(SourcesOf(last), path);
      assert args == init + [last];
    }
  }

  /** A path is reported exactly when it was tried and not found. */
  lemma MissingIff(defaults: seq<Source>, args: seq<Arg>, path: string)
    ensures path in AllNotFound(defaults, args) <==>
      || ConfigFileArg(NotFound(path)) in args
      || (exists sources :: ConfigDirArg(sources) in args && NotFound(path) in sources)
      || (NotFound(path) in defaults && forall a :: a in args ==> !a.ConfigFileArg?)
  {
    hide NotFoundIn, NotFoundInArgs;
    NotFoundAmong(defaults, path);
    NotFoundInArguments(args, path);
    if a :| a in args && NotFound(path) in SourcesOf(a) {
      assert a.ConfigFileArg? ==> a == ConfigFileArg(NotFound(path));
      assert a.ConfigDirArg? ==> a == ConfigDirArg(a.sources);
    }
    if ConfigFileArg(NotFound(path)) in args {
      assert NotFound(path) in SourcesOf(ConfigFileArg(NotFound(path)));
    }
    if sources :| ConfigDirArg(sources) in args && NotFound(path) in sources {
      assert NotFound(path) in SourcesOf(ConfigDirArg(sources));
    }
  }

  // Options are told apart by where argparse keeps them.
  lemma DistinctMore(opts: seq<CliOpt>, o: CliOpt)
    ensures DistinctKeys([])
    ensures DistinctKeys(opts + [o]) <==> DistinctKeys(opts) && forall e :: e in opts ==> DestOf(e) != DestOf(o)
  {
    var more := opts + [o];
    if DistinctKeys(opts) && forall e :: e in opts ==> DestOf(e) != DestOf(o) {
      forall i, j | 0 <= i < j < |more| ensures Key(more[i]) != Key(more[j]) {
        assert more[i] == opts[i] && opts[i] in opts;
        assert j < |opts| ==> Key(opts[i]) != Key(opts[j]);
      }
    }
    if DistinctKeys(more) {
      forall i, j | 0 <= i < j < |opts| ensures Key(opts[i]) != Key(opts[j]) {
        assert Key(more[i]) != Key(more[j]);
      }
      forall e | e in opts ensures DestOf(e) != DestOf(o) {
        var i :| 0 <= i < |opts| && opts[i] == e;
        assert Key(more[i]) != Key(more[|opts|]);
      }
    }
  }

  /** An argument that sets an option has to set one that there is. */
  lemma KnownIff(opts: seq<CliOpt>, a: Arg)
    ensures KnownArg(opts, a) <==> (a.SetArg? ==> exists o :: o in opts && DestOf(o) == a.key)
  {
    if a.SetArg? && exists o :: o in opts && DestOf(o) == a.key {
      var o :| o in opts && DestOf(o) == a.key;
      var i :| 0 <= i < |opts| && opts[i] == o;
      assert Key(opts[i]) == a.key;
    }
    if a.SetArg? && exists i :: 0 <= i < |opts| && Key(opts[i]) == a.key {
      var i :| 0 <= i < |opts| && Key(opts[i]) == a.key;
      assert opts[i] in opts && DestOf(opts[i]) == a.key;
    }
  }
}
