/** Which options a lookup in `oslo_config/cfg.py` comes to look up, and what a new group does to a lookup that comes by
    its name. */
module Visiting {
  import opened Wrappers
  import opened ConfigFiles
  import opened Options
  import opened Template
  import opened Registry

  // Looking k up, to a depth of d, looks m up: k itself, or what the references on the way to the answer or to the
  // first error lead to.
  predicate Visits(reg: Registry, k: Key, ns: Option<View>, d: nat, m: Key)
    decreases d, 0
  {
    d > 0 &&
    (k == m ||
     match PlanOf(reg, k, ns)
     case Done(_) => false
     case Substitute(v, g, n, _) => VisitsIn(reg, v, g, n, d - 1, m))
  }

  predicate VisitsIn(reg: Registry, v: Val, group: Option<string>, ns: Option<View>, d: nat, m: Key)
    decreases d, 3, v
  {
    match v
    case Lst(items) => VisitsInAll(reg, items, group, ns, d, m)
    case Str(s) => VisitsInTokens(reg, TokensOf(s), group, ns, d, m)
    case _ => false
  }

  predicate VisitsInAll(reg: Registry, vs: seq<Val>, group: Option<string>, ns: Option<View>, d: nat, m: Key)
    decreases d, 3, vs
  {
    vs != [] &&
    (VisitsIn(reg, vs[0], group, ns, d, m) ||
     (Subst(reg, vs[0], group, ns, d).Ok? && VisitsInAll(reg, vs[1..], group, ns, d, m)))
  }

  predicate VisitsInTokens(reg: Registry, ts: seq<Token>, group: Option<string>, ns: Option<View>, d: nat, m: Key)
    decreases d, 2, |ts|
  {
    ts != [] &&
    ((ts[0].Reference? && VisitsByName(reg, ts[0].name, group, ns, d, m)) ||
     ((ts[0].Reference? ==> Resolve(reg, ts[0].name, group, ns, d).Ok?)
         && VisitsInTokens(reg, ts[1..], group, ns, d, m)))
  }

  predicate VisitsByName(reg: Registry, ref: string, group: Option<string>, ns: Option<View>, d: nat, m: Key)
    decreases d, 1
  {
    Visits(reg, FirstKey(ref, group), ns, d, m) ||
    (Eval(reg, FirstKey(ref, group), ns, d) == Err(NoSuchOpt) && Visits(reg, Key(None, ref), ns, d, m))
  }

  // A lookup that comes to an end looks m up.
  ghost predicate LooksUp(reg: Registry, k: Key, m: Key) {
    exists d: nat :: !Hit(Eval(reg, k, None, d)) && Visits(reg, k, None, d, m)
  }

  /* ---------- a new group ---------- */

  function WithGroup(reg: Registry, g: string): Registry {
    reg.(groups := reg.groups[g := map[]])
  }

  // The plan changes only for the group's own name, and for options in it.
  lemma PlanWithGroup(reg: Registry, g: string, k: Key, ns: Option<View>)
    requires g !in reg.groups && k != Key(None, g) && k.group != Some(g)
    ensures PlanOf(WithGroup(reg, g), k, ns) == PlanOf(reg, k, ns)
  {
    hide GetFromNamespace;
  }

  lemma InNewGroup(reg: Registry, g: string, k: Key, ns: Option<View>, d: nat)
    requires g !in reg.groups && k.group == Some(g)
    ensures PlanOf(reg, k, ns) == Done(Err(NoSuchGroup))
    ensures d > 0 ==> Eval(reg, k, ns, d) == Err(NoSuchGroup)
    ensures PlanOf(WithGroup(reg, g), Key(None, g), ns) == Done(Ok(GroupAttr(g)))
    ensures d > 0 ==> Eval(WithGroup(reg, g), Key(None, g), ns, d) == Ok(GroupAttr(g))
  {
  }

  predicate NoGroup<T>(o: Result<T, Error>) {
    o == Err(NoSuchGroup)
  }

  predicate BadGroup<T>(o: Result<T, Error>) {
    o == Err(GroupInTemplate)
  }

  // Without a visit to the group's name, an answer that is not about a missing group stays; with one, it becomes an
  // error, or at the very name the group.
  lemma {:induction false} EvalWithGroup(reg: Registry, g: string, k: Key, ns: Option<View>, d: nat)
    requires g !in reg.groups
    ensures !Visits(reg, k, ns, d, Key(None, g)) && !NoGroup(Eval(reg, k, ns, d)) ==>
              Eval(WithGroup(reg, g), k, ns, d) == Eval(reg, k, ns, d)
    ensures Visits(reg, k, ns, d, Key(None, g)) ==>
              if k == Key(None, g) then Eval(WithGroup(reg, g), k, ns, d) == Ok(GroupAttr(g))
              else BadGroup(Eval(WithGroup(reg, g), k, ns, d))
    decreases d, 0
  {
    hide PlanOf, Convert;
    if d > 0 {
      if k == Key(None, g) {
        InNewGroup(reg, g, Key(Some(g), ""), ns, d);
      } else if k.group == Some(g) {
        InNewGroup(reg, g, k, ns, d);
      } else {
        PlanWithGroup(reg, g, k, ns);
        match PlanOf(reg, k, ns)
        case Done(_) =>
        case Substitute(v, group, n, f) => SubstWithGroup(reg, g, v, group, n, d - 1);
      }
    }
  }

  lemma {:induction false} SubstWithGroup(reg: Registry, g: string, v: Val, group: Option<string>, ns: Option<View>,
                                          d: nat)
    requires g !in reg.groups
    ensures !VisitsIn(reg, v, group, ns, d, Key(None, g)) && !NoGroup(Subst(reg, v, group, ns, d)) ==>
              Subst(WithGroup(reg, g), v, group, ns, d) == Subst(reg, v, group, ns, d)
    ensures VisitsIn(reg, v, group, ns, d, Key(None, g)) ==> BadGroup(Subst(WithGroup(reg, g), v, group, ns, d))
    decreases d, 3, v
  {
    match v
    case Lst(items) => SubstAllWithGroup(reg, g, items, group, ns, d);
    case Str(s) => TokensWithGroup(reg, g, TokensOf(s), group, ns, d);
    case _ =>
  }

  lemma {:induction false} SubstAllWithGroup(reg: Registry, g: string, vs: seq<Val>, group: Option<string>,
                                             ns: Option<View>, d: nat)
    requires g !in reg.groups
    ensures !VisitsInAll(reg, vs, group, ns, d, Key(None, g)) && !NoGroup(SubstAll(reg, vs, group, ns, d)) ==>
              SubstAll(WithGroup(reg, g), vs, group, ns, d) == SubstAll(reg, vs, group, ns, d)
    ensures VisitsInAll(reg, vs, group, ns, d, Key(None, g)) ==> BadGroup(SubstAll(WithGroup(reg, g), vs, group, ns, d))
    decreases d, 3, vs
  {
    hide VisitsIn, Subst;
    if vs != [] {
      SubstWithGroup(reg, g, vs[0], group, ns, d);
      SubstAllWithGroup(reg, g, vs[1..], group, ns, d);
    }
  }

  lemma {:induction false} TokensWithGroup(reg: Registry, g: string, ts: seq<Token>, group: Option<string>,
                                           ns: Option<View>, d: nat)
    requires g !in reg.groups
    ensures !VisitsInTokens(reg, ts, group, ns, d, Key(None, g)) && !NoGroup(SubstTokens(reg, ts, group, ns, d)) ==>
              SubstTokens(WithGroup(reg, g), ts, group, ns, d) == SubstTokens(reg, ts, group, ns, d)
    ensures VisitsInTokens(reg, ts, group, ns, d, Key(None, g)) ==>
              BadGroup(SubstTokens(WithGroup(reg, g), ts, group, ns, d))
    decreases d, 2, |ts|
  {
    hide VisitsByName, Resolve;
    if ts != [] {
      if ts[0].Reference? {
        ResolveWithGroup(reg, g, ts[0].name, group, ns, d);
      }
      TokensWithGroup(reg, g, ts[1..], group, ns, d);
    }
  }

  lemma {:induction false} ResolveWithGroup(reg: Registry, g: string, ref: string, group: Option<string>,
                                            ns: Option<View>, d: nat)
    requires g !in reg.groups
    ensures !VisitsByName(reg, ref, group, ns, d, Key(None, g)) && !NoGroup(Resolve(reg, ref, group, ns, d)) ==>
              Resolve(WithGroup(reg, g), ref, group, ns, d) == Resolve(reg, ref, group, ns, d)
    ensures VisitsByName(reg, ref, group, ns, d, Key(None, g)) ==>
      BadGroup(Resolve(WithGroup(reg, g), ref, group, ns, d))
    decreases d, 1
  {
    hide Visits, Eval, FirstKey;
    EvalWithGroup(reg, g, FirstKey(ref, group), ns, d);
    EvalWithGroup(reg, g, Key(None, ref), ns, d);
  }
}
