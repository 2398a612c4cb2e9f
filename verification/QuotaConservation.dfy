/** What changes within the settable ranges of `nova/quota.py` keep: a project's users are never given more than the
    project has. */
module QuotaConservation {
  import opened Quota

  datatype Change =
    | SetUserLimit(project: string, user: string, resource: string, limit: int)
    | SetProjectLimit(project: string, resource: string, limit: int)

  predicate SameKey(a: UserRow, b: UserRow) {
    a.project == b.project && a.user == b.user && a.resource == b.resource
  }

  // One row for each user of a project and resource: set where it is, or added.
  function SetRow(rows: seq<UserRow>, row: UserRow): seq<UserRow> {
    if rows == [] then [row]
    else
      var init, last := rows[..|rows| - 1], rows[|rows| - 1];
      if SameKey(last, row) then init + [row] else SetRow(init, row) + [last]
  }

  function ApplyChange(store: Store, c: Change): Store {
    match c
    case SetUserLimit(project, user, resource, limit) =>
      store.(userRows := SetRow(store.userRows, UserRow(project, user, resource, limit)))
    case SetProjectLimit(project, resource, limit) =>
      store.(projectRows := store.projectRows[project := Get(store.projectRows, project)[resource := limit]])
  }

  // A maximum of -1 is no maximum.
  predicate InRange(r: Range, limit: int) {
    r.minimum <= limit && (r.maximum == -1 || limit <= r.maximum)
  }

  predicate Settable(store: Store, ctx: Context, resources: map<string, Resource>, c: Change) {
    c.resource in resources &&
    match c
    case SetUserLimit(project, user, resource, limit) =>
      user != "" && InRange(UserRange(store, ctx, resources[resource], project, user, resource), limit)
    case SetProjectLimit(project, resource, limit) =>
      InRange(ProjectRange(store, ctx, resources[resource], project, resource), limit)
  }

  function Own(rows: seq<UserRow>, project: string, user: string, key: string): int {
    var own := UserQuotas(rows, project, user);
    if key in own then own[key] else 0
  }

  lemma {:induction false} SetRowMembers(rows: seq<UserRow>, row: UserRow)
    ensures forall r :: r in SetRow(rows, row) ==> r == row || r in rows
  {
    if rows != [] {
      SetRowMembers(rows[..|rows| - 1], row);
    }
  }

  function Max0(v: int): (r: int)
    ensures r >= 0
  {
    if v > 0 then v else 0
  }

  // What the users of a project were given: the sum of their finite limits, whatever the others have.
  function Given(rows: seq<UserRow>, project: string, key: string): (r: int)
    ensures r >= 0
  {
    if rows == [] then 0
    else
      var row := rows[|rows| - 1];
      Given(rows[..|rows| - 1], project, key)
      + (if row.project == project && row.resource == key then Max0(row.limit) else 0)
  }

  lemma {:induction false} GivenAfterSet(rows: seq<UserRow>, row: UserRow, project: string, key: string)
    ensures Given(SetRow(rows, row), project, key) ==
      if row.project == project && row.resource == key
      then Given(rows, project, key) - Max0(Own(rows, project, row.user, key)) + Max0(row.limit)
      else Given(rows, project, key)
  {
    if rows == [] {
      assert [row][..0] == [];
    } else {
      var init, last := rows[..|rows| - 1], rows[|rows| - 1];
      GivenAfterSet(init, row, project, key);
      assert (init + [row])[..|init|] == init;
      assert (SetRow(init, row) + [last])[..|SetRow(init, row)|] == SetRow(init, row);
    }
  }

  // No user of the project has a negative, that is unlimited, limit.
  predicate Finite(rows: seq<UserRow>, project: string, key: string) {
    forall r :: r in rows && r.project == project && r.resource == key ==> r.limit >= 0
  }

  // The sum the driver subtracts is what the users were given exactly when no user is unlimited, and less otherwise.
  lemma {:induction false} SumIsGivenIff(rows: seq<UserRow>, project: string, key: string)
    ensures SumLimits(rows, project, key) <= Given(rows, project, key)
    ensures SumLimits(rows, project, key) == Given(rows, project, key) <==> Finite(rows, project, key)
  {
    if rows != [] {
      var init := rows[..|rows| - 1];
      SumIsGivenIff(init, project, key);
      assert rows == init + [rows[|rows| - 1]];
      assert Finite(rows, project, key) ==> Finite(init, project, key);
    }
  }

  lemma {:induction false} OwnGiven(rows: seq<UserRow>, project: string, user: string, key: string)
    ensures Max0(Own(rows, project, user, key)) <= Given(rows, project, key)
    ensures Finite(rows, project, key) ==> Own(rows, project, user, key) >= 0
  {
    if rows != [] {
      var init := rows[..|rows| - 1];
      OwnGiven(init, project, user, key);
      assert rows == init + [rows[|rows| - 1]];
    }
  }

  /** What is kept: a finite limit of the project, no unlimited user, and what the users were given and what is used
      both within the project's limit. */
  ghost predicate Conserved(store: Store, ctx: Context, resources: map<string, Resource>, project: string,
                            key: string) {
    && key in resources
    && Finite(store.userRows, project, key)
    && (forall user :: Used(Get(store.userUsage, (project, user)), key) >= 0)
    && Given(store.userRows, project, key) <= ProjectLimit(store, ctx, resources[key], project, "", key)
    && 0 <= Used(Get(store.projectUsage, project), key) <= ProjectLimit(store, ctx, resources[key], project, "", key)
  }

  lemma LimitAfterChange(store: Store, ctx: Context, resource: Resource, c: Change, project: string, key: string)
    ensures ProjectLimit(ApplyChange(store, c), ctx, resource, project, "", key) ==
      if c.SetProjectLimit? && c.project == project && c.resource == key then c.limit
      else ProjectLimit(store, ctx, resource, project, "", key)
  {
  }

  // Any change within the range that is reported at that moment, of this project or another, keeps it.
  lemma ChangeConserves(store: Store, ctx: Context, resources: map<string, Resource>, c: Change, project: string,
                        key: string)
    requires Conserved(store, ctx, resources, project, key) && Settable(store, ctx, resources, c)
    ensures Conserved(ApplyChange(store, c), ctx, resources, project, key)
  {
    hide SumLimits, UserQuotas, Resolved, ProjectLimit, SetRow, Given;
    LimitAfterChange(store, ctx, resources[key], c, project, key);
    SumIsGivenIff(store.userRows, project, key);
    if c.SetUserLimit? {
      var row := UserRow(c.project, c.user, c.resource, c.limit);
      GivenAfterSet(store.userRows, row, project, key);
      SetRowMembers(store.userRows, row);
      OwnGiven(store.userRows, project, c.user, key);
      if c.project == project && c.resource == key {
        assert c.limit >= 0;
      }
    }
  }

  function AfterChanges(store: Store, cs: seq<Change>): Store {
    if cs == [] then store else ApplyChange(AfterChanges(store, cs[..|cs| - 1]), cs[|cs| - 1])
  }

  // Each change is within the range that is reported when it is made.
  predicate AllSettable(store: Store, ctx: Context, resources: map<string, Resource>, cs: seq<Change>) {
    cs == [] ||
    (AllSettable(store, ctx, resources, cs[..|cs| - 1])
     && Settable(AfterChanges(store, cs[..|cs| - 1]), ctx, resources, cs[|cs| - 1]))
  }

  // So does any run of such changes.
  lemma {:induction false} RunConserves(store: Store, ctx: Context, resources: map<string, Resource>, cs: seq<Change>,
                                        project: string, key: string)
    requires Conserved(store, ctx, resources, project, key) && AllSettable(store, ctx, resources, cs)
    ensures Conserved(AfterChanges(store, cs), ctx, resources, project, key)
  {
    hide Conserved, Settable;
    if cs != [] {
      RunConserves(store, ctx, resources, cs[..|cs| - 1], project, key);
      ChangeConserves(AfterChanges(store, cs[..|cs| - 1]), ctx, resources, cs[|cs| - 1], project, key);
    }
  }

  /* ---------- when a range does not conserve ---------- */

  // What the users have been given once a user's limit is set.
  function GivenWith(store: Store, project: string, user: string, key: string, limit: int): int {
    Given(ApplyChange(store, SetUserLimit(project, user, key, limit)).userRows, project, key)
  }

  /** Every limit in a user's range leaves what the users are given within the project's limit exactly when the project
      has no limit, or it is not over-committed, the user is not unlimited, and either no other user is unlimited or the
      range is empty. In every other case some limit in the range gives the users more than the project has. */
  lemma UserRangeIff(store: Store, ctx: Context, resource: Resource, project: string, user: string, key: string)
    ensures (forall v :: InRange(UserRange(store, ctx, resource, project, user, key), v) ==>
               Within(GivenWith(store, project, user, key, v), ProjectLimit(store, ctx, resource, project, "", key)))
       <==> (|| ProjectLimit(store, ctx, resource, project, "", key) < 0
             || (&& Remaining(store, ctx, resource, project, key) >= 0 && OwnLimit(store, project, user, key) >= 0
                 && (|| Finite(store.userRows, project, key)
                     || UserRange(store, ctx, resource, project, user, key).maximum
                          < UserRange(store, ctx, resource, project, user, key).minimum)))
  {
    hide SumLimits, UserQuotas, Resolved, ProjectLimit, SetRow, Given, Finite;
    var range := UserRange(store, ctx, resource, project, user, key);
    var limit := ProjectLimit(store, ctx, resource, project, "", key);
    var given, own := Given(store.userRows, project, key), OwnLimit(store, project, user, key);
    var others := given - Max0(own);
    forall v ensures GivenWith(store, project, user, key, v) == others + Max0(v) {
      GivenAfterSet(store.userRows, UserRow(project, user, key, v), project, key);
    }
    SumIsGivenIff(store.userRows, project, key);
    OwnGiven(store.userRows, project, user, key);
    if limit < 0 {
    } else if Remaining(store, ctx, resource, project, key) < 0 || own < 0 {
      var v := Max0(if range.minimum > limit - others + 1 then range.minimum else limit - others + 1);
      assert InRange(range, v) && GivenWith(store, project, user, key, v) > limit;
    } else if range.minimum <= range.maximum {
      assert InRange(range, range.maximum);
      assert GivenWith(store, project, user, key, range.maximum) == others + range.maximum;
    }
  }

  /** The least limit offered for a project covers what its users were given exactly when nothing was over-committed and
      no user is unlimited, or the usage alone is as much. */
  lemma ProjectRangeIff(store: Store, ctx: Context, resource: Resource, project: string, key: string)
    ensures (forall v :: InRange(ProjectRange(store, ctx, resource, project, key), v) ==>
               Within(Given(store.userRows, project, key), v))
       <==> (|| (&& ProjectLimit(store, ctx, resource, project, "", key) >= 0
                 && Remaining(store, ctx, resource, project, key) >= 0 && Finite(store.userRows, project, key))
             || Given(store.userRows, project, key) <= Max0(Used(Get(store.projectUsage, project), key)))
  {
    hide SumLimits, Resolved, ProjectLimit, Given, Finite;
    SumIsGivenIff(store.userRows, project, key);
    var range := ProjectRange(store, ctx, resource, project, key);
    assert InRange(range, Max0(range.minimum));
  }

  // A project with 10 cores, in which one user is unlimited and another has no limit of their own yet.
  function OneUnlimited(): Store {
    Store(map["p" := map["cores" := 10]], [UserRow("p", "alice", "cores", -1)], map[], map[], map[], map[])
  }

  // The unlimited user is subtracted as -1, so the other is offered 11.
  lemma UnlimitedRowOvercounts()
    ensures
      var ctx, cores := Context("p", "bob", ""), Resource(20, "check", true);
      && UserRange(OneUnlimited(), ctx, cores, "p", "bob", "cores") == Range(0, 11)
      && exists v :: InRange(UserRange(OneUnlimited(), ctx, cores, "p", "bob", "cores"), v)
                     && GivenWith(OneUnlimited(), "p", "bob", "cores", v) > 10
                     && ProjectLimit(OneUnlimited(), ctx, cores, "p", "", "cores") == 10
  {
    var store, ctx, cores := OneUnlimited(), Context("p", "bob", ""), Resource(20, "check", true);
    var rows := store.userRows;
    assert rows[..0] == [];
    assert UserQuotas([], "p", "bob") == map[];
    assert SumLimits(rows[..0], "p", "cores") == 0;
    assert rows[0] in rows && !Finite(rows, "p", "cores");
    assert UserRange(store, ctx, cores, "p", "bob", "cores") == Range(0, 11);
    UserRangeIff(store, ctx, cores, "p", "bob", "cores");
  }
}
