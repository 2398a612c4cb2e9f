/** What the lookups of `oslo_config/cfg.py` leave in the cache when they are asked for a namespace by name. */
module Storing {
  import opened Wrappers
  import opened ConfigFiles
  import opened Options
  import opened Template
  import opened Registry

  // An uncached lookup in ns finds v, given enough depth.
  ghost predicate Finds(reg: Registry, k: Key, ns: Option<View>, v: Val) {
    exists d: nat :: Eval(reg, k, ns, d) == Ok(v)
  }

  lemma FindsOnce(reg: Registry, k: Key, ns: Option<View>, v: Val, v': Val)
    requires Finds(reg, k, ns, v) && Finds(reg, k, ns, v')
    ensures v == v'
  {
    hide Eval;
    var d: nat :| Eval(reg, k, ns, d) == Ok(v);
    var e: nat :| Eval(reg, k, ns, e) == Ok(v');
    EvalMore(reg, k, ns, d, if d < e then e else d);
    EvalMore(reg, k, ns, e, if d < e then e else d);
  }

  // The value in ns, if there is one, is also the one found without asking for a namespace.
  ghost predicate Alike(reg: Registry, k: Key, ns: Option<View>) {
    forall v :: Finds(reg, k, ns, v) ==> Finds(reg, k, None, v)
  }

  /* ---------- lookups that do not read the cache ---------- */

  // No override or set default that a lookup in ns can come to use is a template.
  ghost predicate PlainIn(reg: Registry, ns: Option<View>) {
    forall k: Key :: PlanOf(reg, k, ns).Substitute? && PlanOf(reg, k, ns).finish.AsIs? ==>
                       References(PlanOf(reg, k, ns).value) == {}
  }

  // Every lookup that substituting v starts is for a namespace given by name.
  ghost predicate Independent(reg: Registry, v: Val, ns: Option<View>) {
    References(v) == {} || (ns.Some? && PlainIn(reg, ns))
  }

  // So is every lookup that looking k up starts.
  ghost predicate Uncached(reg: Registry, k: Key, ns: Option<View>) {
    PlanOf(reg, k, ns).Substitute? ==> Independent(reg, PlanOf(reg, k, ns).value, PlanOf(reg, k, ns).ns)
  }

  lemma PlainUncached(reg: Registry, k: Key, ns: Option<View>)
    requires ns.Some? && PlainIn(reg, ns)
    ensures Uncached(reg, k, ns)
  {
    hide References, GetFromNamespace;
    PlanNamespace(reg, k, ns);
  }

  // A plan keeps to the namespace it was made for, unless it takes a value as it is.
  lemma PlanNamespace(reg: Registry, k: Key, ns: Option<View>)
    ensures var p := PlanOf(reg, k, ns);
            p.Substitute? && ns.Some? && p.finish.Converted? ==> p.ns == ns
  {
    hide GetFromNamespace;
  }

  /* ---------- what is stored ---------- */

  // The options, k itself left out, whose values are stored on the way of looking k up to a depth of d: those whose
  // lookup gives a value, up to the first error.
  function Nested(reg: Registry, k: Key, ns: Option<View>, d: nat): set<Key>
    decreases d, 0
  {
    if d == 0 then {}
    else
      match PlanOf(reg, k, ns)
      case Done(_) => {}
      case Substitute(v, g, n, _) => StoredIn(reg, v, g, n, d - 1)
  }

  function Stored(reg: Registry, k: Key, ns: Option<View>, d: nat): set<Key>
    decreases d, 1
  {
    if Eval(reg, k, ns, d).Ok? then Nested(reg, k, ns, d) + {k} else Nested(reg, k, ns, d)
  }

  function StoredIn(reg: Registry, v: Val, group: Option<string>, ns: Option<View>, d: nat): set<Key>
    decreases d, 4, v
  {
    match v
    case Lst(items) => StoredInAll(reg, items, group, ns, d)
    case Str(s) => StoredInTokens(reg, TokensOf(s), group, ns, d)
    case _ => {}
  }

  function StoredInAll(reg: Registry, vs: seq<Val>, group: Option<string>, ns: Option<View>, d: nat): set<Key>
    decreases d, 4, vs
  {
    if vs == [] then {}
    else if Subst(reg, vs[0], group, ns, d).Err? then StoredIn(reg, vs[0], group, ns, d)
    else StoredIn(reg, vs[0], group, ns, d) + StoredInAll(reg, vs[1..], group, ns, d)
  }

  function StoredInTokens(reg: Registry, ts: seq<Token>, group: Option<string>, ns: Option<View>, d: nat): set<Key>
    decreases d, 3, |ts|
  {
    if ts == [] then {}
    else if ts[0].Literal? then StoredInTokens(reg, ts[1..], group, ns, d)
    else if Resolve(reg, ts[0].name, group, ns, d).Err? then StoredByName(reg, ts[0].name, group, ns, d)
    else StoredByName(reg, ts[0].name, group, ns, d) + StoredInTokens(reg, ts[1..], group, ns, d)
  }

  function StoredByName(reg: Registry, ref: string, group: Option<string>, ns: Option<View>, d: nat): set<Key>
    decreases d, 2
  {
    var first := Stored(reg, FirstKey(ref, group), ns, d);
    if Eval(reg, FirstKey(ref, group), ns, d) != Err(NoSuchOpt) then first
    else first + Stored(reg, Key(None, ref), ns, d)
  }

  /* ---------- caches before and after ---------- */

  // The cache has the values that these options have in ns, and is as it was everywhere else.
  ghost predicate Wrote(reg: Registry, ns: Option<View>, keys: set<Key>, before: map<Key, Val>, after: map<Key, Val>) {
    forall k :: if k in keys then k in after && Finds(reg, k, ns, after[k])
                else (k in after <==> k in before) && (k in after ==> after[k] == before[k])
  }

  lemma WroteNothing(reg: Registry, ns: Option<View>, cache: map<Key, Val>)
    ensures Wrote(reg, ns, {}, cache, cache)
  {
  }

  lemma WroteMore(reg: Registry, ns: Option<View>, keys: set<Key>, keys': set<Key>, before: map<Key, Val>,
                  mid: map<Key, Val>, after: map<Key, Val>)
    requires Wrote(reg, ns, keys, before, mid) && Wrote(reg, ns, keys', mid, after)
    ensures Wrote(reg, ns, keys + keys', before, after)
  {
    hide Finds;
  }

  lemma WroteOne(reg: Registry, ns: Option<View>, k: Key, v: Val, cache: map<Key, Val>)
    requires Finds(reg, k, ns, v)
    ensures Wrote(reg, ns, {k}, cache, cache[k := v])
  {
    hide Finds;
  }

  // The namespace in which looking k up looks others up.
  function NestedNs(reg: Registry, k: Key, ns: Option<View>): Option<View> {
    if PlanOf(reg, k, ns).Substitute? then PlanOf(reg, k, ns).ns else ns
  }

  ghost predicate WroteNested(reg: Registry, k: Key, ns: Option<View>, d: nat, before: map<Key, Val>,
                              after: map<Key, Val>) {
    Wrote(reg, NestedNs(reg, k, ns), Nested(reg, k, ns, d), before, after)
  }

  // The cache after k was looked up: first the nested lookups, then k itself if it has a value.
  ghost predicate Recorded(reg: Registry, k: Key, ns: Option<View>, d: nat, before: map<Key, Val>,
                           after: map<Key, Val>) {
    exists mid :: WroteNested(reg, k, ns, d, before, mid) && after == Put(mid, k, Eval(reg, k, ns, d))
  }

  function Put(cache: map<Key, Val>, k: Key, o: Outcome): map<Key, Val> {
    if o.Ok? then cache[k := o.value] else cache
  }

  // With a namespace given by name, all of it are values in that namespace.
  lemma RecordedWrote(reg: Registry, k: Key, ns: Option<View>, d: nat, before: map<Key, Val>, after: map<Key, Val>)
    requires ns.Some? && PlainIn(reg, ns) && Recorded(reg, k, ns, d, before, after)
    ensures Wrote(reg, ns, Stored(reg, k, ns, d), before, after)
  {
    hide PlanOf, Eval, Wrote, Nested, PlainIn;
    var mid :| WroteNested(reg, k, ns, d, before, mid) && after == Put(mid, k, Eval(reg, k, ns, d));
    NestedSame(reg, k, ns, d);
    WroteAny(reg, NestedNs(reg, k, ns), ns, Nested(reg, k, ns, d), before, mid);
    if Eval(reg, k, ns, d).Ok? {
      WroteOne(reg, ns, k, Eval(reg, k, ns, d).value, mid);
      WroteMore(reg, ns, Nested(reg, k, ns, d), {k}, before, mid, after);
    }
  }

  lemma NestedSame(reg: Registry, k: Key, ns: Option<View>, d: nat)
    requires ns.Some? && PlainIn(reg, ns)
    ensures NestedNs(reg, k, ns) == ns || Nested(reg, k, ns, d) == {}
  {
    hide PlanOf, References, StoredIn;
    PlanNamespace(reg, k, ns);
    var p := PlanOf(reg, k, ns);
    if d > 0 && p.Substitute? && p.finish.AsIs? {
      PlainStores(reg, p.value, p.group, p.ns, d - 1);
    }
  }

  lemma WroteAny(reg: Registry, ns: Option<View>, ns': Option<View>, keys: set<Key>, before: map<Key, Val>,
                 after: map<Key, Val>)
    requires Wrote(reg, ns, keys, before, after) && (ns == ns' || keys == {})
    ensures Wrote(reg, ns', keys, before, after)
  {
    hide Finds;
  }

  // Substituting a text without references stores nothing.
  lemma {:induction false} PlainStores(reg: Registry, v: Val, group: Option<string>, ns: Option<View>, d: nat)
    requires References(v) == {}
    ensures StoredIn(reg, v, group, ns, d) == {}
    decreases v
  {
    match v
    case Lst(items) =>
      forall i | 0 <= i < |items| ensures References(items[i]) == {} {
        assert forall r :: r in References(items[i]) ==> r in References(v);
      }
      PlainStoresAll(reg, items, group, ns, d);
    case Str(s) => PlainStoresTokens(reg, TokensOf(s), group, ns, d);
    case _ =>
  }

  lemma {:induction false} PlainStoresAll(reg: Registry, vs: seq<Val>, group: Option<string>, ns: Option<View>, d: nat)
    requires forall i :: 0 <= i < |vs| ==> References(vs[i]) == {}
    ensures StoredInAll(reg, vs, group, ns, d) == {}
    decreases vs
  {
    hide References, Subst;
    if vs != [] {
      PlainStores(reg, vs[0], group, ns, d);
      PlainStoresAll(reg, vs[1..], group, ns, d);
    }
  }

  lemma {:induction false} PlainStoresTokens(reg: Registry, ts: seq<Token>, group: Option<string>, ns: Option<View>,
                                             d: nat)
    requires ReferencesIn(ts) == {}
    ensures StoredInTokens(reg, ts, group, ns, d) == {}
    decreases |ts|
  {
    hide Resolve;
    if ts != [] {
      ReferencesListed(ts);
      PlainStoresTokens(reg, ts[1..], group, ns, d);
    }
  }

  // A cache written for ns is right exactly when every option written has its value there in effect as well.
  lemma WrittenCache(reg: Registry, reg': Registry, ns: Option<View>, keys: set<Key>, before: map<Key, Val>,
                     after: map<Key, Val>)
    requires Wrote(reg, ns, keys, before, after)
    requires forall k :: k in before && k !in keys ==> Finds(reg', k, None, before[k])
    requires forall k, v :: Finds(reg, k, ns, v) <==> Finds(reg', k, ns, v)
    ensures (forall k :: k in after ==> Finds(reg', k, None, after[k]))
       <==> forall k :: k in keys ==> Alike(reg', k, ns)
  {
    hide Finds;
    if forall k :: k in after ==> Finds(reg', k, None, after[k]) {
      forall k, v | k in keys && Finds(reg', k, ns, v) ensures Finds(reg', k, None, v) {
        FindsOnce(reg', k, ns, v, after[k]);
      }
    }
    if forall k :: k in keys ==> Alike(reg', k, ns) {
      forall k | k in after ensures Finds(reg', k, None, after[k]) {
        assert k in keys ==> Alike(reg', k, ns);
      }
    }
  }

  /* ---------- when values agree ---------- */

  // Lookups with the same plan have the same answers.
  lemma SamePlan(reg: Registry, k: Key, ns: Option<View>, ns': Option<View>)
    requires PlanOf(reg, k, ns) == PlanOf(reg, k, ns')
    ensures forall d: nat :: Eval(reg, k, ns, d) == Eval(reg, k, ns', d)
    ensures Alike(reg, k, ns) <== ns'.None?
  {
    hide PlanOf, Subst, Finished;
    forall d: nat ensures Eval(reg, k, ns, d) == Eval(reg, k, ns', d) {
    }
    if ns'.None? {
      forall v | Finds(reg, k, ns, v) ensures Finds(reg, k, None, v) {
        var d: nat :| Eval(reg, k, ns, d) == Ok(v);
        assert Eval(reg, k, None, d) == Ok(v);
      }
    }
  }

  // An option that reads ns when asked for no namespace has the value it has there.
  lemma ReadsAlike(reg: Registry, k: Key, ns: Option<View>)
    requires ns.Some? && FindInfo(reg, k).Ok? && Effective(reg, FindInfo(reg, k).value.opt, None) == ns
    ensures Alike(reg, k, ns)
  {
    assert PlanOf(reg, k, ns) == PlanOf(reg, k, None);
    SamePlan(reg, k, ns, None);
  }

  // Another registry that differs in what is installed only.
  ghost predicate SameOptions(reg: Registry, reg': Registry) {
    reg' == reg.(namespace := reg'.namespace, mutableNs := reg'.mutableNs, cliOpts := reg'.cliOpts)
  }

  lemma NamedPlan(reg: Registry, reg': Registry, k: Key, ns: Option<View>)
    requires ns.Some? && SameOptions(reg, reg')
    ensures PlanOf(reg', k, ns) == PlanOf(reg, k, ns)
  {
    hide GetFromNamespace;
  }

  lemma NamedNext(reg: Registry, k: Key, ns: Option<View>)
    requires ns.Some? && PlainIn(reg, ns)
    ensures forall m :: m in Next(reg, Node(k, ns)) ==> m.ns == ns
  {
    hide PlanOf, References, FirstKey;
    PlanNamespace(reg, k, ns);
  }

  // Lookups by name do not depend on the namespaces that are installed, where settings are plain.
  lemma NamedEval(reg: Registry, reg': Registry, ns: Option<View>, k: Key, d: nat)
    requires ns.Some? && PlainIn(reg, ns) && SameOptions(reg, reg')
    ensures Eval(reg', k, ns, d) == Eval(reg, k, ns, d)
  {
    hide Eval, References, PlanOf, PlainIn, Next;
    var good := (n: Node) => n.ns == ns;
    forall n | good(n)
      ensures PlanOf(reg, n.key, n.ns) == PlanOf(reg', n.key, n.ns)
      ensures forall m :: m in Next(reg, n) ==> good(m)
    {
      assert n == Node(n.key, ns);
      NamedPlan(reg, reg', n.key, ns);
      NamedNext(reg, n.key, ns);
    }
    SameEval(reg, reg', good, k, ns, d);
  }

  lemma NamedFinds(reg: Registry, reg': Registry, ns: Option<View>)
    requires ns.Some? && PlainIn(reg, ns) && SameOptions(reg, reg')
    ensures forall k, v :: Finds(reg, k, ns, v) <==> Finds(reg', k, ns, v)
  {
    hide Eval, PlainIn;
    forall k, d: nat ensures Eval(reg', k, ns, d) == Eval(reg, k, ns, d) {
      NamedEval(reg, reg', ns, k, d);
    }
  }

  // An option has in the namespace its lookup goes on to use the value it has anyway.
  lemma OwnNamespace(reg: Registry, k: Key)
    ensures Alike(reg, k, NestedNs(reg, k, None))
  {
    hide Alike, GetFromNamespace, RawVal;
    var ns := NestedNs(reg, k, None);
    assert PlanOf(reg, k, None).Substitute? && ns.Some? ==> PlanOf(reg, k, ns) == PlanOf(reg, k, None);
    if ns.Some? {
      SamePlan(reg, k, ns, None);
    } else {
      SamePlan(reg, k, None, None);
    }
  }

  /** A lookup that asks nothing of the cache keeps a right cache right exactly when every option it comes to look up
      has in the namespace it is asked for the value that is in effect. */
  lemma RecordedCache(reg: Registry, k: Key, d: nat, before: map<Key, Val>, after: map<Key, Val>)
    requires Recorded(reg, k, None, d, before, after)
    requires forall m :: m in before ==> Finds(reg, m, None, before[m])
    ensures (forall m :: m in after ==> Finds(reg, m, None, after[m]))
       <==> forall m :: m in Nested(reg, k, None, d) ==> Alike(reg, m, NestedNs(reg, k, None))
  {
    hide Nested, NestedNs, Alike, Eval, Wrote;
    var ns, keys := NestedNs(reg, k, None), Nested(reg, k, None, d);
    var mid :| WroteNested(reg, k, None, d, before, mid) && after == Put(mid, k, Eval(reg, k, None, d));
    WrittenCache(reg, reg, ns, keys, before, mid);
    if forall m :: m in after ==> Finds(reg, m, None, after[m]) {
      forall m | m in keys ensures Alike(reg, m, ns) {
        if m == k {
          OwnNamespace(reg, k);
        } else {
          WrittenAlike(reg, ns, keys, before, mid, m);
          assert m in mid && after[m] == mid[m];
        }
      }
    }
  }

  lemma WrittenAlike(reg: Registry, ns: Option<View>, keys: set<Key>, before: map<Key, Val>, after: map<Key, Val>,
                     k: Key)
    requires Wrote(reg, ns, keys, before, after) && k in keys
    ensures k in after && (Finds(reg, k, None, after[k]) ==> Alike(reg, k, ns))
  {
    hide Finds;
    forall v | Finds(reg, k, ns, v) ensures v == after[k] {
      FindsOnce(reg, k, ns, v, after[k]);
    }
  }

  /* ---------- lookups that cannot make a cache wrong ---------- */

  // Every good lookup has the answer it has without a namespace, and starts good lookups only.
  ghost predicate Steady(reg: Registry, good: Node -> bool) {
    forall n :: good(n) ==>
      && (forall d: nat :: Eval(reg, n.key, n.ns, d) == Eval(reg, n.key, None, d))
      && (forall m :: m in Next(reg, n) ==> good(m))
  }

  // Neither the lookup nor any that it can lead to finds in its namespace anything but what is in effect.
  ghost predicate Harmless(reg: Registry, k: Key, ns: Option<View>) {
    exists good: Node -> bool :: Steady(reg, good) && good(Node(k, ns))
  }

  ghost predicate HarmlessRefs(reg: Registry, refs: set<string>, group: Option<string>, ns: Option<View>) {
    exists good: Node -> bool :: Steady(reg, good) && AllGood(good, refs, group, ns)
  }

  lemma HarmlessEval(reg: Registry, k: Key, ns: Option<View>)
    requires Harmless(reg, k, ns)
    ensures forall d: nat :: Eval(reg, k, ns, d) == Eval(reg, k, None, d)
  {
    hide Eval, Next;
    var good: Node -> bool :| Steady(reg, good) && good(Node(k, ns));
    assert Node(k, ns).key == k && Node(k, ns).ns == ns;
  }

  lemma HarmlessNext(reg: Registry, k: Key, ns: Option<View>)
    requires Harmless(reg, k, ns)
    ensures var p := PlanOf(reg, k, ns); p.Substitute? ==> HarmlessRefs(reg, References(p.value), p.group, p.ns)
  {
    hide Eval, Next, PlanOf, References, FirstKey;
    var good: Node -> bool :| Steady(reg, good) && good(Node(k, ns));
    NextNodes(reg, k, ns);
    var p := PlanOf(reg, k, ns);
    assert p.Substitute? ==> AllGood(good, References(p.value), p.group, p.ns);
  }

  lemma HarmlessRef(reg: Registry, refs: set<string>, r: string, group: Option<string>, ns: Option<View>)
    requires HarmlessRefs(reg, refs, group, ns) && r in refs
    ensures Harmless(reg, FirstKey(r, group), ns) && Harmless(reg, Key(None, r), ns)
  {
    hide Steady, FirstKey;
    var good: Node -> bool :| Steady(reg, good) && AllGood(good, refs, group, ns);
    assert good(Node(FirstKey(r, group), ns)) && good(Node(Key(None, r), ns));
  }

  lemma HarmlessFewer(reg: Registry, refs: set<string>, refs': set<string>, group: Option<string>, ns: Option<View>)
    requires HarmlessRefs(reg, refs, group, ns) && refs' <= refs
    ensures HarmlessRefs(reg, refs', group, ns)
  {
    hide Steady, FirstKey;
    var good: Node -> bool :| Steady(reg, good) && AllGood(good, refs, group, ns);
    assert AllGood(good, refs', group, ns);
  }

  lemma HarmlessTokens(reg: Registry, ts: seq<Token>, group: Option<string>, ns: Option<View>)
    requires ts != [] && HarmlessRefs(reg, ReferencesIn(ts), group, ns)
    ensures HarmlessRefs(reg, ReferencesIn(ts[1..]), group, ns)
    ensures ts[0].Reference? ==>
      Harmless(reg, FirstKey(ts[0].name, group), ns) && Harmless(reg, Key(None, ts[0].name), ns)
  {
    hide HarmlessRefs, Harmless, FirstKey;
    ReferencesListed(ts);
    HarmlessFewer(reg, ReferencesIn(ts), ReferencesIn(ts[1..]), group, ns);
    if ts[0].Reference? {
      HarmlessRef(reg, ReferencesIn(ts), ts[0].name, group, ns);
    }
  }

  lemma HarmlessItems(reg: Registry, items: seq<Val>, group: Option<string>, ns: Option<View>)
    requires HarmlessRefs(reg, References(Lst(items)), group, ns)
    ensures forall i :: 0 <= i < |items| ==> HarmlessRefs(reg, References(items[i]), group, ns)
  {
    hide HarmlessRefs;
    forall i | 0 <= i < |items| ensures HarmlessRefs(reg, References(items[i]), group, ns) {
      assert forall r :: r in References(items[i]) ==> r in References(Lst(items));
      HarmlessFewer(reg, References(Lst(items)), References(items[i]), group, ns);
    }
  }

  // The namespace is the installed one, or the default that leads to it.
  predicate Settled(reg: Registry, ns: Option<View>) {
    reg.mutableNs.None? && (ns.None? || ns == reg.namespace)
  }

  // Asking for the installed namespace by name makes no difference.
  lemma SettledPlan(reg: Registry, k: Key, ns: Option<View>)
    requires Settled(reg, ns)
    ensures PlanOf(reg, k, ns) == PlanOf(reg, k, None)
  {
  }

  // What a settled lookup goes on to read is settled too.
  lemma SettledNext(reg: Registry, k: Key, ns: Option<View>)
    ensures Settled(reg, ns) && PlanOf(reg, k, ns).Substitute? ==> Settled(reg, PlanOf(reg, k, ns).ns)
  {
  }

  // Without a mutable namespace all lookups are harmless.
  lemma SettledHarmless(reg: Registry, k: Key, ns: Option<View>)
    requires Settled(reg, ns)
    ensures Harmless(reg, k, ns)
  {
    hide PlanOf, Eval, References, FirstKey;
    var good := (n: Node) => Settled(reg, n.ns);
    forall n | good(n)
      ensures forall d: nat :: Eval(reg, n.key, n.ns, d) == Eval(reg, n.key, None, d)
      ensures forall m :: m in Next(reg, n) ==> good(m)
    {
      SettledPlan(reg, n.key, n.ns);
      SamePlan(reg, n.key, n.ns, None);
      SettledNext(reg, n.key, n.ns);
    }
    assert Steady(reg, good) && good(Node(k, ns));
  }
}
