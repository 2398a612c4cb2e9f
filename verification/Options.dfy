/** Option declarations (`Opt` and its subclasses in `oslo_config/cfg.py`) and the values options take. */
module Options {
  import opened Wrappers
  import opened ConfigFiles

  // A Python value: None, a string, a value of a type without strings inside, a list, or the
  // attribute view of a whole group.
  datatype Val = NoneVal | Str(text: string) | Other(code: int) | Lst(items: seq<Val>) | GroupAttr(group: string)

  datatype DeprecatedOpt = DeprecatedOpt(name: Option<string>, group: Option<string>)

  datatype Opt = Opt(
    name: string,
    dest: string,
    typ: nat,                            // which conversion the option's type applies
    default: Val,
    multi: bool,
    positional: bool,
    mutable: bool,
    required: bool,
    deprecated: seq<DeprecatedOpt>)

  // An entry of the list of command-line options.
  datatype CliOpt = CliOpt(opt: Opt, group: Option<string>)

  // An absent or empty string counts as false.
  predicate Falsy(s: Option<string>) {
    s.None? || s.value == ""
  }

  function DeprecatedNames(opt: Opt, group: Option<string>, ds: seq<DeprecatedOpt>): seq<OptName> {
    if ds == [] then []
    else
      var d := ds[0];
      (if Falsy(d.name) && Falsy(d.group) then []
       else [(if Falsy(d.group) then group else d.group, if Falsy(d.name) then opt.dest else d.name.value)])
      + DeprecatedNames(opt, group, ds[1..])
  }

  // The names an option is looked up under, its own first.
  function NamesOf(opt: Opt, group: Option<string>): (r: seq<OptName>)
    ensures |r| > 0 && r[0] == (group, opt.dest)
  {
    [(group, opt.dest)] + DeprecatedNames(opt, group, opt.deprecated)
  }

  // `Opt._get_from_namespace`, with None for its KeyError.
  function GetFromNamespace(opt: Opt, view: View, group: Option<string>): Option<Raw> {
    Lookup(view, NamesOf(opt, group), opt.multi, opt.positional)
  }
}
