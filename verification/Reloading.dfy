/** Reloading and mutation from the arguments and the text of the files on: `_parse_config_files` of
    `oslo_config/cfg.py` followed by what `ConfigOpts` does with the namespace. */
module Reloading {
  import opened Wrappers
  import opened ConfigFiles
  import opened Options
  import opened Template
  import opened Registry
  import opened Storing
  import opened ConfigEngine
  import opened Layers
  import CommandLine

  // What parsing the same arguments gives now.
  ghost predicate Gathered(opts: seq<CliOpt>, defaults: seq<CommandLine.Source>, args: seq<CommandLine.Arg>,
                           files: Parsed) {
    match files
    case Unparsed =>
      !(CommandLine.AllReadable(defaults, args) && forall a :: a in args ==> CommandLine.KnownArg(opts, a))
    case Parsed(view, missing) => CommandLine.Gathers(opts, defaults, args, view, missing)
  }

  // Options argparse takes: no two of one name, and none positional.
  ghost predicate Parseable(opts: seq<CliOpt>) {
    CommandLine.DistinctKeys(opts) && forall o :: o in opts ==> !o.opt.positional
  }

  method ParseAgain(opts: seq<CliOpt>, defaults: seq<CommandLine.Source>, args: seq<CommandLine.Arg>)
    returns (files: Parsed)
    requires Parseable(opts)
    ensures Gathered(opts, defaults, args, files)
  {
    hide CommandLine.Gathers, CommandLine.KnownArg, CommandLine.AllReadable, CommandLine.DistinctKeys;
    var ns, err := CommandLine.ParseConfigFiles(opts, defaults, args);
    files := if err.Some? then Unparsed else Parsed(ns.Holds(), ns.filesNotFound);
  }

  /** From arguments and files to the installed namespace: it is replaced exactly when everything can be read and is
      known, no file is missing, and the values of command-line options and required options are good; the cache is
      right then. */
  method ReloadFrom(c: ConfigOpts, defaults: seq<CommandLine.Source>, args: seq<CommandLine.Arg>, depth: nat)
    returns (r: Result<bool, Error>, ghost files: Parsed)
    requires Parseable(c.cliOpts)
    modifies c
    ensures Gathered(c.cliOpts, defaults, args, files)
    ensures r == Ok(true) ==> files.Parsed? && c.Reg() == old(c.Reg()).(namespace := Some(files.view)) && c.Coherent()
    ensures r != Ok(true) ==> c.Reg() == old(c.Reg())
    ensures files.Unparsed? ==> r == Ok(false)
    ensures files.Parsed? && PlainIn(old(c.Reg()), Some(files.view)) ==>
      (r == Ok(true) <==> Accepted(old(c.Reg()), files, depth))
  {
    hide Gathered, Accepted, PlainIn, Loads, LoadStores, Wrote, Alike, Denotes;
    var now := ParseAgain(c.cliOpts, defaults, args);
    files := now;
    ghost var looked;
    r, looked := c.ReloadConfigFiles(now, depth);
  }

  method MutateFrom(c: ConfigOpts, defaults: seq<CommandLine.Source>, args: seq<CommandLine.Arg>, depth: nat)
    returns (r: Result<Diff, LoadError>, ghost files: Parsed)
    requires Parseable(c.cliOpts) && c.namespace.Some?
    modifies c
    ensures Gathered(c.cliOpts, defaults, args, files)
    ensures r.Ok? ==> files.Parsed? && c.Reg() == old(c.Reg()).(mutableNs := Some(files.view))
    ensures r.Err? ==> c.Reg() == old(c.Reg())
    ensures files.Parsed? && PlainIn(old(c.Reg()), Some(files.view)) ==>
      (r.Ok? <==> Accepted(old(c.Reg()), files, depth))
  {
    hide Gathered, Accepted, PlainIn, Loads, LoadStores, Wrote, Alike, Denotes, IsDiff, IsMutable, RequiredKeys,
      AllKeys;
    var now := ParseAgain(c.cliOpts, defaults, args);
    files := now;
    ghost var looked;
    r, looked := c.MutateConfigFiles(now, depth);
  }

  /** Once the namespace is installed, a command-line option with one value that nothing overrides looks up to what the
      last source to set it says, converted. */
  lemma LastSourceIsLookedUp(reg: Registry, defaults: seq<CommandLine.Source>, args: seq<CommandLine.Arg>,
                             files: Parsed,
                             o: CliOpt, info: Info, s: string, d: nat)
    requires files.Parsed? && Gathered(reg.cliOpts, defaults, args, files) && reg.namespace == Some(files.view)
    requires reg.mutableNs.None? && o in reg.cliOpts && !o.opt.multi && d > 0
    requires FindInfo(reg, Key(o.group, o.opt.dest)) == Ok(info) && info.opt == o.opt && info.override.None?
    requires !(o.group.None? && o.opt.dest in reg.groups)
    requires CommandLine.Final(o, CommandLine.Items(defaults, args)) == Some(One(s)) && Plain(s)
    ensures Eval(reg, Key(o.group, o.opt.dest), None, d) == Typed(reg.types, o.opt, Str(s), BadFileValue)
  {
    hide CommandLine.Final, CommandLine.AllReadable, CommandLine.FilesOf, Eval, GetFromNamespace, FindInfo;
    LayersInOrder(reg, Key(o.group, o.opt.dest), info, None, d, s);
  }
}
