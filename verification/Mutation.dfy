/** What runs of `mutate_config_files` (`oslo_config/cfg.py`) report and what they leave alone. */
module Mutation {
  import opened Wrappers
  import opened ConfigFiles
  import opened Options
  import opened Registry
  import opened Storing
  import opened ConfigEngine

  // Each diff belongs to a step from one namespace to the next.
  ghost predicate IsHistory(reg: Registry, views: seq<View>, diffs: seq<Diff>) {
    && |views| == |diffs| + 1
    && forall i :: 0 <= i < |diffs| ==> IsDiff(reg, AllKeys(reg), views[i], views[i + 1], diffs[i])
  }

  // The value an option has by the diffs alone: that of the last diff to mention it.
  function Replayed(start: Option<Raw>, diffs: seq<Diff>, d: DiffKey): Option<Raw> {
    if diffs == [] then start
    else if d in diffs[|diffs| - 1] then diffs[|diffs| - 1][d].1
    else Replayed(start, diffs[..|diffs| - 1], d)
  }

  lemma DiffExact(reg: Registry, before: View, after: View, diff: Diff, k: Key)
    requires DistinctNames(reg) && IsDiff(reg, AllKeys(reg), before, after, diff) && k in AllKeys(reg)
    ensures DiffKeyOf(reg, k) in diff <==> Differs(reg, k, before, after)
    ensures DiffKeyOf(reg, k) in diff ==> diff[DiffKeyOf(reg, k)] == (RawOf(reg, k, before), RawOf(reg, k, after))
  {
    hide GetFromNamespace, AllKeys, FindInfo;
    forall k' | k' in AllKeys(reg) ensures FindInfo(reg, k').Ok? {
      AllKeysFound(reg, k');
    }
  }

  // Replaying the diffs from the first namespace gives every mutable option its present value.
  lemma {:induction false} DiffsTelescope(reg: Registry, views: seq<View>, diffs: seq<Diff>, k: Key)
    requires DistinctNames(reg) && IsHistory(reg, views, diffs)
    requires k in AllKeys(reg) && InfoOf(reg, k).opt.mutable
    ensures Replayed(RawOf(reg, k, views[0]), diffs, DiffKeyOf(reg, k)) == RawOf(reg, k, views[|diffs|])
  {
    hide RawOf, DiffKeyOf, DistinctNames, IsDiff;
    if diffs != [] {
      var n := |diffs| - 1;
      forall i | 0 <= i < n ensures IsDiff(reg, AllKeys(reg), views[..n + 1][i], views[..n + 1][i + 1], diffs[..n][i]) {
        assert IsDiff(reg, AllKeys(reg), views[i], views[i + 1], diffs[i]);
      }
      DiffsTelescope(reg, views[..n + 1], diffs[..n], k);
      DiffExact(reg, views[n], views[n + 1], diffs[n], k);
    }
  }

  // Each step's old values are what the steps before it lead to, so diffs compose end to end.
  lemma DiffsChain(reg: Registry, views: seq<View>, diffs: seq<Diff>, k: Key)
    requires DistinctNames(reg) && IsHistory(reg, views, diffs) && diffs != []
    requires k in AllKeys(reg) && DiffKeyOf(reg, k) in diffs[|diffs| - 1]
    ensures var n := |diffs| - 1;
            diffs[n][DiffKeyOf(reg, k)].0 == Replayed(RawOf(reg, k, views[0]), diffs[..n], DiffKeyOf(reg, k))
  {
    hide RawOf, DiffKeyOf, DistinctNames, IsDiff;
    var n := |diffs| - 1;
    forall i | 0 <= i < n ensures IsDiff(reg, AllKeys(reg), views[..n + 1][i], views[..n + 1][i + 1], diffs[..n][i]) {
      assert IsDiff(reg, AllKeys(reg), views[i], views[i + 1], diffs[i]);
    }
    DiffExact(reg, views[n], views[n + 1], diffs[n], k);
    DiffsTelescope(reg, views[..n + 1], diffs[..n], k);
  }

  // Raw values do not depend on the namespaces that are installed.
  lemma SameDiffs(reg: Registry, reg': Registry, before: View, after: View, diff: Diff)
    requires reg' == reg.(mutableNs := reg'.mutableNs)
    ensures AllKeys(reg') == AllKeys(reg)
    ensures IsDiff(reg', AllKeys(reg'), before, after, diff) <==> IsDiff(reg, AllKeys(reg), before, after, diff)
  {
    hide GetFromNamespace;
    assert AllKeys(reg') == AllKeys(reg);
    forall k | k in AllKeys(reg)
      ensures InfoOf(reg', k) == InfoOf(reg, k) && DiffKeyOf(reg', k) == DiffKeyOf(reg, k)
      ensures forall v :: RawOf(reg', k, v) == RawOf(reg, k, v)
      ensures Differs(reg', k, before, after) <==> Differs(reg, k, before, after)
    {
    }
  }

  /** A run of mutations, those that fail included: the diffs of those that succeed lead from the namespace that was in
      effect at the start to the one that is in effect at the end. */
  method MutateAll(c: ConfigOpts, files: seq<Parsed>, depth: nat) returns (diffs: seq<Diff>,
                   ghost views: seq<View>)
    requires c.namespace.Some?
    modifies c
    ensures c.Reg() == old(c.Reg()).(mutableNs := c.mutableNs)
    ensures IsHistory(c.Reg(), views, diffs) && |diffs| <= |files|
    ensures DistinctNames(c.Reg()) ==>
      forall i, k :: 0 <= i < |diffs| && FindInfo(c.Reg(), k).Ok? ==>
        ReportedExactly(c.Reg(), k, views[i], views[i + 1], diffs[i])
    ensures views[0] == InEffect(old(c.mutableNs), c.namespace.value)
    ensures views[|diffs|] == InEffect(c.mutableNs, c.namespace.value)
  {
    hide IsDiff, Accepted, RequiredKeys, Loads, LoadStores, Wrote, PlainIn, Alike, Denotes, IsMutable, AllKeys,
      DistinctNames, ReportedExactly, FindInfo;
    diffs, views := [], [InEffect(c.mutableNs, c.namespace.value)];
    for i := 0 to |files|
      invariant c.Reg() == old(c.Reg()).(mutableNs := c.mutableNs)
      invariant IsHistory(c.Reg(), views, diffs) && |diffs| <= i
      invariant views[0] == InEffect(old(c.mutableNs), old(c.namespace).value)
      invariant views[|diffs|] == InEffect(c.mutableNs, old(c.namespace).value)
    {
      ghost var reg := c.Reg();
      var r, _ := c.MutateConfigFiles(files[i], depth);
      if r.Ok? {
        HistoryMore(reg, c.Reg(), views, diffs, files[i].view, r.value);
        diffs, views := diffs + [r.value], views + [files[i].view];
      }
    }
    if DistinctNames(c.Reg()) {
      forall i, k | 0 <= i < |diffs| && FindInfo(c.Reg(), k).Ok?
        ensures ReportedExactly(c.Reg(), k, views[i], views[i + 1], diffs[i])
      {
        DiffReports(c.Reg(), views[i], views[i + 1], diffs[i]);
      }
    }
  }

  function InEffect(mutableNs: Option<View>, namespace: View): View {
    if mutableNs.Some? then mutableNs.value else namespace
  }

  lemma HistoryMore(reg: Registry, reg': Registry, views: seq<View>, diffs: seq<Diff>, view: View, diff: Diff)
    requires reg' == reg.(mutableNs := reg'.mutableNs) && IsHistory(reg, views, diffs)
    requires IsDiff(reg', AllKeys(reg'), views[|diffs|], view, diff)
    ensures IsHistory(reg', views + [view], diffs + [diff])
  {
    hide IsDiff, AllKeys;
    forall i | 0 <= i < |diffs| + 1
      ensures IsDiff(reg', AllKeys(reg'), (views + [view])[i], (views + [view])[i + 1], (diffs + [diff])[i])
    {
      if i < |diffs| {
        assert IsDiff(reg, AllKeys(reg), views[i], views[i + 1], diffs[i]);
        SameDiffs(reg, reg', views[i], views[i + 1], diffs[i]);
      }
    }
  }

  /* ---------- immutable options ---------- */

  // No override and no set default is a template.
  ghost predicate PlainSettings(reg: Registry) {
    forall k :: k in AllKeys(reg) ==>
      var info := InfoOf(reg, k);
      && (info.override.Some? ==> References(info.override.value) == {})
      && (info.default.Some? ==> References(info.default.value) == {})
  }

  lemma SettingsPlain(reg: Registry, ns: Option<View>)
    requires PlainSettings(reg)
    ensures PlainIn(reg, ns)
  {
    hide GetFromNamespace, References;
    forall k: Key | PlanOf(reg, k, ns).Substitute? && PlanOf(reg, k, ns).finish.AsIs?
      ensures References(PlanOf(reg, k, ns).value) == {}
    {
      AllKeysFound(reg, k);
    }
  }

  // Then no lookup asks anything of the cache but the very option looked up.
  lemma SettingsUncached(reg: Registry, k: Key)
    requires PlainSettings(reg) && reg.namespace.Some?
    ensures Uncached(reg, k, None)
  {
    hide GetFromNamespace, References, PlainSettings;
    SettingsPlain(reg, None);
    if PlanOf(reg, k, None).Substitute? {
      SettingsPlain(reg, PlanOf(reg, k, None).ns);
    }
  }

  // However often the mutable namespace is replaced, an immutable option keeps its value, even one that refers to
  // mutable options, when no override or set default in use is a template.
  lemma ImmutableKeepsValue(reg: Registry, ns: Option<View>, k: Key, d: nat)
    requires reg.namespace.Some? && PlainIn(reg, reg.namespace)
    requires k in AllKeys(reg) && !InfoOf(reg, k).opt.mutable
    ensures Eval(reg.(mutableNs := ns), k, None, d) == Eval(reg, k, None, d)
  {
    hide PlanOf, Eval, PlainIn;
    var reg' := reg.(mutableNs := ns);
    AllKeysFound(reg, k);
    ImmutablePlan(reg, k);
    ImmutablePlan(reg', k);
    SamePlan(reg, k, None, reg.namespace);
    SamePlan(reg', k, None, reg.namespace);
    NamedEval(reg, reg', reg.namespace, k, d);
  }

  lemma ImmutablePlan(reg: Registry, k: Key)
    requires FindInfo(reg, k).Ok? && !FindInfo(reg, k).value.opt.mutable
    ensures PlanOf(reg, k, None) == PlanOf(reg, k, reg.namespace)
  {
    hide GetFromNamespace;
  }
}
