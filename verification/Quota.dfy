/** Quota resolution, settable ranges and limit checks of `DbQuotaDriver` in `nova/quota.py`, over a database that is
    a record of maps. */
module Quota {
  import opened Wrappers

  datatype Resource = Resource(default: int, validMethod: string, hasSync: bool)

  datatype Usage = Usage(inUse: int, reserved: int)

  // A hard limit set for one user of a project.
  datatype UserRow = UserRow(project: string, user: string, resource: string, limit: int)

  datatype Store = Store(
    projectRows: map<string, map<string, int>>,
    userRows: seq<UserRow>,
    classRows: map<string, map<string, int>>,
    defaultRows: map<string, int>,
    projectUsage: map<string, map<string, Usage>>,
    userUsage: map<(string, string), map<string, Usage>>)

  // The empty string stands for None.
  datatype Context = Context(projectId: string, userId: string, quotaClass: string)

  // One entry of the dictionaries the driver returns; usage and remains are there when asked for.
  datatype Entry = Entry(limit: int, usage: Option<Usage>, remains: Option<int>)

  datatype Range = Range(minimum: int, maximum: int)

  const UNLIMITED_VALUE: int := -1

  function Get<K, V>(m: map<K, map<string, V>>, k: K): map<string, V> {
    if k in m then m[k] else map[]
  }

  function UserQuotas(rows: seq<UserRow>, project: string, user: string): map<string, int> {
    if rows == [] then map[]
    else
      var before, row := UserQuotas(rows[..|rows| - 1], project, user), rows[|rows| - 1];
      if row.project == project && row.user == user then before[row.resource := row.limit] else before
  }

  // The sum of the limits set for the users of a project.
  function SumLimits(rows: seq<UserRow>, project: string, resource: string): int {
    if rows == [] then 0
    else
      var row := rows[|rows| - 1];
      SumLimits(rows[..|rows| - 1], project, resource)
      + (if row.project == project && row.resource == resource then row.limit else 0)
  }

  /* ---------- resolution ---------- */

  function ClassFor(ctx: Context, project: string, quotaClass: string): string {
    if project == ctx.projectId then ctx.quotaClass else quotaClass
  }

  // Own rows first, then the quota class, then the default class, then the resource's default.
  function LimitOf(store: Store, resource: Resource, own: map<string, int>, quotaClass: string, key: string): int {
    if key in own then own[key]
    else if quotaClass != "" && key in Get(store.classRows, quotaClass) then Get(store.classRows, quotaClass)[key]
    else if key in store.defaultRows then store.defaultRows[key]
    else resource.default
  }

  /** The limit of a resource in a project: a row of its own, else for the project of the context the row of the
      context's class, whatever class was asked for, else for another project the row of that class, else the row of the
      default class, else the default of the resource. No class is none. */
  function Resolved(store: Store, ctx: Context, resource: Resource, project: string, own: map<string, int>,
                    quotaClass: string, key: string): int {
    if key in own then own[key]
    else if project == ctx.projectId && HasClassRow(store, ctx.quotaClass, key)
    then store.classRows[ctx.quotaClass][key]
    else if project != ctx.projectId && HasClassRow(store, quotaClass, key) then store.classRows[quotaClass][key]
    else if key in store.defaultRows then store.defaultRows[key]
    else resource.default
  }

  predicate HasClassRow(store: Store, quotaClass: string, key: string) {
    quotaClass != "" && quotaClass in store.classRows && key in store.classRows[quotaClass]
  }

  // The class is chosen first and then looked into.
  lemma ClassThenRow(store: Store, ctx: Context, resource: Resource, project: string, own: map<string, int>,
                     quotaClass: string, key: string)
    ensures LimitOf(store, resource, own, ClassFor(ctx, project, quotaClass), key)
         == Resolved(store, ctx, resource, project, own, quotaClass, key)
  {
  }

  function ProjectLimit(store: Store, ctx: Context, resource: Resource, project: string, quotaClass: string,
                        key: string): int {
    Resolved(store, ctx, resource, project, Get(store.projectRows, project), quotaClass, key)
  }

  // Rows of the user, and those of the project for what the user has none.
  function Merged(own: map<string, int>, fallback: map<string, int>): map<string, int> {
    fallback + own
  }

  function OwnRows(store: Store, project: string, user: string): map<string, int> {
    Merged(UserQuotas(store.userRows, project, user), Get(store.projectRows, project))
  }

  function UserLimit(store: Store, ctx: Context, resource: Resource, project: string, user: string, quotaClass: string,
                     key: string): int {
    Resolved(store, ctx, resource, project, OwnRows(store, project, user), quotaClass, key)
  }

  function UsageOf(usages: Option<map<string, Usage>>, key: string): Option<Usage> {
    match usages
    case None => None
    case Some(m) => Some(if key in m then m[key] else Usage(0, 0))
  }

  function RemainsOf(store: Store, project: string, limit: int, key: string, remains: bool): Option<int> {
    if remains then Some(limit - SumLimits(store.userRows, project, key)) else None
  }

  // What `_process_quotas` returns for own rows.
  ghost predicate Processed(store: Store, ctx: Context, resources: map<string, Resource>, project: string,
                            own: map<string, int>, quotaClass: string, defaults: bool,
                            usages: Option<map<string, Usage>>, remains: bool, r: map<string, Entry>) {
    && (forall k :: k in r <==> k in resources && (defaults || k in own))
    && (forall k :: k in r && k in resources ==>
          var limit := Resolved(store, ctx, resources[k], project, own, quotaClass, k);
          r[k] == Entry(limit, UsageOf(usages, k), RemainsOf(store, project, limit, k, remains)))
  }

  method ProcessQuotas(store: Store, ctx: Context, resources: map<string, Resource>, project: string,
                       quotas: map<string, int>,
                       quotaClass: string, defaults: bool, usages: Option<map<string, Usage>>, remains: bool)
    returns (modified: map<string, Entry>)
    ensures Processed(store, ctx, resources, project, quotas, quotaClass, defaults, usages, remains, modified)
  {
    hide SumLimits, LimitOf, UsageOf, Resolved, ClassFor;
    modified := map[];
    var applicable := ClassFor(ctx, project, quotaClass);
    var names := resources.Keys;
    while names != {}
      invariant names <= resources.Keys
      invariant forall k :: k in modified <==> k in resources && k !in names && (defaults || k in quotas)
      invariant forall k :: k in modified && k in resources ==>
        var limit := Resolved(store, ctx, resources[k], project, quotas, quotaClass, k);
        modified[k] == Entry(limit, UsageOf(usages, k), if remains then Some(limit) else None)
      decreases |names|
    {
      var name :| name in names;
      names := names - {name};
      if !defaults && name !in quotas {
        continue;
      }
      var limit := LimitOf(store, resources[name], quotas, applicable, name);
      ClassThenRow(store, ctx, resources[name], project, quotas, quotaClass, name);
      var entry := Entry(limit, None, None);
      if usages.Some? {
        entry := entry.(usage := Some(if name in usages.value then usages.value[name] else Usage(0, 0)));
      }
      UsageEntry(usages, name);
      if remains {
        entry := entry.(remains := Some(limit));
      }
      modified := modified[name := entry];
    }
    if remains {
      modified := SubtractRows(store.userRows, project, modified);
    }
  }

  lemma UsageEntry(usages: Option<map<string, Usage>>, key: string)
    ensures UsageOf(usages, key) ==
      if usages.None? then None else Some(if key in usages.value then usages.value[key] else Usage(0, 0))
  {
  }

  // The loop over `quota_get_all`.
  method SubtractRows(rows: seq<UserRow>, project: string, entries: map<string, Entry>) returns (r: map<string, Entry>)
    requires forall k :: k in entries ==> entries[k].remains.Some?
    ensures r.Keys == entries.Keys
    ensures forall k :: k in entries ==>
      r[k] == entries[k].(remains := Some(entries[k].remains.value - SumLimits(rows, project, k)))
  {
    r := entries;
    var i := 0;
    while i < |rows|
      invariant 0 <= i <= |rows| && r.Keys == entries.Keys
      invariant forall k :: k in entries ==>
        r[k] == entries[k].(remains := Some(entries[k].remains.value - SumLimits(rows[..i], project, k)))
    {
      assert rows[..i + 1][..i] == rows[..i];
      var row := rows[i];
      if row.project == project && row.resource in r {
        r := r[row.resource := r[row.resource].(remains := Some(r[row.resource].remains.value - row.limit))];
      }
      i := i + 1;
    }
    assert rows[..|rows|] == rows;
  }

  // The loop that gives the user the project's limits where there is no limit of their own.
  method AddProjectRows(own: map<string, int>, fallback: map<string, int>) returns (r: map<string, int>)
    ensures r == Merged(own, fallback)
  {
    r := own;
    var keys := fallback.Keys;
    while keys != {}
      invariant keys <= fallback.Keys
      invariant forall k :: k in r <==> k in own || (k in fallback && k !in keys)
      invariant forall k :: k in r ==> r[k] == if k in own then own[k] else fallback[k]
      decreases |keys|
    {
      var key :| key in keys;
      keys := keys - {key};
      if key !in r {
        r := r[key := fallback[key]];
      }
    }
  }

  method GetUserQuotas(store: Store, ctx: Context, resources: map<string, Resource>, project: string, user: string,
                       quotaClass: string, defaults: bool, usages: bool)
    returns (r: map<string, Entry>)
    ensures Processed(store, ctx, resources, project, OwnRows(store, project, user),
                      quotaClass, defaults,
                      if usages then Some(Get(store.userUsage, (project, user))) else None, false, r)
  {
    hide Processed, UserQuotas, Merged;
    var own := AddProjectRows(UserQuotas(store.userRows, project, user), Get(store.projectRows, project));
    r := ProcessQuotas(store, ctx, resources, project, own, quotaClass, defaults,
                       if usages then Some(Get(store.userUsage, (project, user))) else None, false);
  }

  method GetProjectQuotas(store: Store, ctx: Context, resources: map<string, Resource>, project: string,
                          quotaClass: string, defaults: bool, usages: bool, remains: bool)
    returns (r: map<string, Entry>)
    ensures Processed(store, ctx, resources, project, Get(store.projectRows, project), quotaClass, defaults,
                      if usages then Some(Get(store.projectUsage, project)) else None, remains, r)
  {
    hide Processed;
    r := ProcessQuotas(store, ctx, resources, project, Get(store.projectRows, project), quotaClass, defaults,
                       if usages then Some(Get(store.projectUsage, project)) else None, remains);
  }

  /* ---------- settable ranges ---------- */

  predicate IsUnlimited(v: int) {
    v <= UNLIMITED_VALUE
  }

  function SumQuota(v1: int, v2: int): int {
    if IsUnlimited(v1) || IsUnlimited(v2) then UNLIMITED_VALUE else v1 + v2
  }

  function SubQuota(v1: int, v2: int): int {
    if IsUnlimited(v1) || IsUnlimited(v2) then UNLIMITED_VALUE else v1 - v2
  }

  function Used(usage: map<string, Usage>, key: string): int {
    if key in usage then usage[key].inUse + usage[key].reserved else 0
  }

  function OwnLimit(store: Store, project: string, user: string, key: string): int {
    var own := UserQuotas(store.userRows, project, user);
    if key in own then own[key] else 0
  }

  function Remaining(store: Store, ctx: Context, resource: Resource, project: string, key: string): int {
    ProjectLimit(store, ctx, resource, project, "", key) - SumLimits(store.userRows, project, key)
  }

  // The range of a user's limit: what is used, up to what the project has left and the user has already.
  function UserRange(store: Store, ctx: Context, resource: Resource, project: string, user: string,
                     key: string): Range {
    Range(Used(Get(store.userUsage, (project, user)), key),
          SumQuota(Remaining(store, ctx, resource, project, key), OwnLimit(store, project, user, key)))
  }

  // The range of the project's limit: what its users were given, what is used, and no bound above.
  function ProjectRange(store: Store, ctx: Context, resource: Resource, project: string, key: string): Range {
    var limit := ProjectLimit(store, ctx, resource, project, "", key);
    var given := SubQuota(limit, Remaining(store, ctx, resource, project, key));
    var used := Used(Get(store.projectUsage, project), key);
    Range(if given > used then given else used, -1)
  }

  /** The range of a user in full: from what is used and reserved to what the project has left and the user has already,
      or to no bound where one of these is negative. */
  lemma UserRangeInFull(store: Store, ctx: Context, resource: Resource, project: string, user: string, key: string)
    ensures
      var left := Resolved(store, ctx, resource, project, Get(store.projectRows, project), "", key)
                  - SumLimits(store.userRows, project, key);
      var own := if key in UserQuotas(store.userRows, project, user) then UserQuotas(store.userRows, project, user)[key]
                 else 0;
      var usage := Get(store.userUsage, (project, user));
      UserRange(store, ctx, resource, project, user, key) ==
        Range(if key in usage then usage[key].inUse + usage[key].reserved else 0,
              if left >= 0 && own >= 0 then left + own else -1)
  {
    hide SumLimits, UserQuotas, Resolved;
  }

  /** The range of a project in full: from what its users were given, where the limit and what is left of it are not
      negative, or what is used and reserved if that is more; and without a bound. */
  lemma ProjectRangeInFull(store: Store, ctx: Context, resource: Resource, project: string, key: string)
    ensures
      var limit := Resolved(store, ctx, resource, project, Get(store.projectRows, project), "", key);
      var given, usage := SumLimits(store.userRows, project, key), Get(store.projectUsage, project);
      var used := if key in usage then usage[key].inUse + usage[key].reserved else 0;
      var least := if limit >= 0 && limit - given >= 0 then given else -1;
      ProjectRange(store, ctx, resource, project, key) == Range(if least > used then least else used, -1)
  {
    hide SumLimits, Resolved;
  }

  /** Ranges of another project than the context's depend on no class; those of its own depend on the context's. */
  lemma RangesAndClasses(store: Store, ctx: Context, resource: Resource, project: string, user: string, key: string,
                         classRows: map<string, map<string, int>>, quotaClass: string)
    ensures project != ctx.projectId ==>
      && UserRange(store.(classRows := classRows), ctx.(quotaClass := quotaClass), resource, project, user, key)
         == UserRange(store, ctx, resource, project, user, key)
      && ProjectRange(store.(classRows := classRows), ctx.(quotaClass := quotaClass), resource, project, key)
         == ProjectRange(store, ctx, resource, project, key)
    ensures project == ctx.projectId && ctx.quotaClass != "" && ctx.quotaClass in store.classRows
            && key in store.classRows[ctx.quotaClass] && key !in Get(store.projectRows, project) ==>
      Remaining(store, ctx, resource, project, key)
      == store.classRows[ctx.quotaClass][key] - SumLimits(store.userRows, project, key)
  {
    hide SumLimits, UserQuotas;
  }

  // A user has the limit of their row, if the database has one at all for user, project and resource.
  lemma {:induction false} OwnRowFound(rows: seq<UserRow>, project: string, user: string, resource: string)
    ensures resource in UserQuotas(rows, project, user)
       <==> exists limit :: UserRow(project, user, resource, limit) in rows
    ensures resource in UserQuotas(rows, project, user) ==>
      UserRow(project, user, resource, UserQuotas(rows, project, user)[resource]) in rows
  {
    if rows != [] {
      var init, row := rows[..|rows| - 1], rows[|rows| - 1];
      OwnRowFound(init, project, user, resource);
      assert rows == init + [row];
    }
  }

  // The entry of one resource when all are asked for.
  lemma ProcessedEntry(store: Store, ctx: Context, resources: map<string, Resource>, project: string,
                       own: map<string, int>,
                       quotaClass: string, usages: Option<map<string, Usage>>, remains: bool, r: map<string, Entry>)
    requires Processed(store, ctx, resources, project, own, quotaClass, true, usages, remains, r)
    ensures r.Keys == resources.Keys
    ensures forall k :: k in resources ==>
      var limit := Resolved(store, ctx, resources[k], project, own, quotaClass, k);
      r[k] == Entry(limit, UsageOf(usages, k), RemainsOf(store, project, limit, k, remains))
  {
  }

  method GetSettableQuotas(store: Store, ctx: Context, resources: map<string, Resource>, project: string, user: string)
    returns (settable: map<string, Range>)
    ensures settable.Keys == resources.Keys
    ensures forall k :: k in resources ==>
      settable[k] == if user != "" then UserRange(store, ctx, resources[k], project, user, k)
                     else ProjectRange(store, ctx, resources[k], project, k)
  {
    hide SumLimits, UserQuotas, Processed, UserRange, ProjectRange;
    var projectQuotas := GetProjectQuotas(store, ctx, resources, project, "", true, true, true);
    ProcessedEntry(store, ctx, resources, project, Get(store.projectRows, project), "",
                   Some(Get(store.projectUsage, project)), true, projectQuotas);
    if user != "" {
      settable := UserRanges(store, ctx, resources, project, user, projectQuotas);
    } else {
      settable := ProjectRanges(store, ctx, resources, project, projectQuotas);
    }
  }

  method UserRanges(store: Store, ctx: Context, resources: map<string, Resource>, project: string, user: string,
                    projectQuotas: map<string, Entry>)
    returns (settable: map<string, Range>)
    requires projectQuotas.Keys == resources.Keys
    requires forall k :: k in resources ==>
      projectQuotas[k].remains == Some(Remaining(store, ctx, resources[k], project, k))
    ensures settable.Keys == resources.Keys
    ensures forall k :: k in resources ==> settable[k] == UserRange(store, ctx, resources[k], project, user, k)
  {
    hide SumLimits, UserQuotas, Processed, Resolved, Remaining;
    settable := map[];
    var setted := UserQuotas(store.userRows, project, user);
    var userQuotas := GetUserQuotas(store, ctx, resources, project, user, "", true, true);
    ProcessedEntry(store, ctx, resources, project, OwnRows(store, project, user), "",
                   Some(Get(store.userUsage, (project, user))), false, userQuotas);
    var keys := userQuotas.Keys;
    while keys != {}
      invariant keys <= resources.Keys
      invariant settable.Keys == resources.Keys - keys
      invariant forall k :: k in settable ==> settable[k] == UserRange(store, ctx, resources[k], project, user, k)
      decreases |keys|
    {
      var key :| key in keys;
      keys := keys - {key};
      var maximum := SumQuota(projectQuotas[key].remains.value, if key in setted then setted[key] else 0);
      var minimum := userQuotas[key].usage.value.inUse + userQuotas[key].usage.value.reserved;
      settable := settable[key := Range(minimum, maximum)];
    }
  }

  method ProjectRanges(store: Store, ctx: Context, resources: map<string, Resource>, project: string,
                       projectQuotas: map<string, Entry>)
    returns (settable: map<string, Range>)
    requires projectQuotas.Keys == resources.Keys
    requires forall k :: k in resources ==>
      projectQuotas[k] == Entry(ProjectLimit(store, ctx, resources[k], project, "", k),
                                UsageOf(Some(Get(store.projectUsage, project)), k),
                                Some(Remaining(store, ctx, resources[k], project, k)))
    ensures settable.Keys == resources.Keys
    ensures forall k :: k in resources ==> settable[k] == ProjectRange(store, ctx, resources[k], project, k)
  {
    hide SumLimits, Resolved, ProjectLimit, Remaining;
    settable := map[];
    var keys := projectQuotas.Keys;
    while keys != {}
      invariant keys <= resources.Keys
      invariant settable.Keys == resources.Keys - keys
      invariant forall k :: k in settable ==> settable[k] == ProjectRange(store, ctx, resources[k], project, k)
      decreases |keys|
    {
      var key :| key in keys;
      keys := keys - {key};
      var value := projectQuotas[key];
      var given := SubQuota(value.limit, value.remains.value);
      var used := value.usage.value.inUse + value.usage.value.reserved;
      settable := settable[key := Range(if given > used then given else used, -1)];
    }
  }

  /* ---------- limit checks ---------- */

  datatype QuotaError =
    | InvalidMethodUsage
    | InvalidValue(unders: set<string>)
    | ResourceUnknown(unknown: set<string>)
    | OverQuota(overs: set<string>, headroom: map<string, int>)

  // The limit that applies to a user, or to the project when there is no user.
  function ApplicableLimit(store: Store, ctx: Context, resource: Resource, project: string, user: string,
                           key: string): int {
    if user != "" then UserLimit(store, ctx, resource, project, user, ctx.quotaClass, key)
    else ProjectLimit(store, ctx, resource, project, ctx.quotaClass, key)
  }

  // The keys of resources of the kind that is asked for.
  function Known(resources: map<string, Resource>, keys: set<string>, hasSync: bool): map<string, Resource> {
    map k | k in resources && k in keys && resources[k].hasSync == hasSync :: resources[k]
  }

  lemma SameSize<T>(a: set<T>, b: set<T>)
    requires a <= b
    ensures |a| == |b| <==> a == b
  {
    assert b == a + (b - a);
    assert |b| == |a| + |b - a|;
  }

  method GetQuotas(store: Store, ctx: Context, resources: map<string, Resource>, keys: set<string>, hasSync: bool,
                   project: string, user: string)
    returns (r: Result<map<string, int>, QuotaError>)
    ensures r.Ok? <==> forall k :: k in keys ==> k in resources && resources[k].hasSync == hasSync
    ensures r.Ok? ==> r.value.Keys == keys
    ensures r.Ok? ==> forall k :: k in keys && k in resources ==>
      r.value[k] == ApplicableLimit(store, ctx, resources[k], project, user, k)
    ensures r.Err? ==> r.error == ResourceUnknown(keys - Known(resources, keys, hasSync).Keys)
  {
    hide Processed, UserQuotas, Resolved;
    var subset := Known(resources, keys, hasSync);
    SameSize(subset.Keys, keys);
    if |keys| != |subset| {
      return Err(ResourceUnknown(keys - subset.Keys));
    }
    var quotas;
    if user != "" {
      quotas := GetUserQuotas(store, ctx, subset, project, user, ctx.quotaClass, true, false);
      ProcessedEntry(store, ctx, subset, project, OwnRows(store, project, user),
                     ctx.quotaClass, None, false, quotas);
    } else {
      quotas := GetProjectQuotas(store, ctx, subset, project, ctx.quotaClass, true, false, false);
      ProcessedEntry(store, ctx, subset, project, Get(store.projectRows, project), ctx.quotaClass, None, false, quotas);
    }
    return Ok(map k | k in quotas :: quotas[k].limit);
  }

  // A negative limit is no limit.
  predicate Within(value: int, limit: int) {
    limit < 0 || value <= limit
  }

  predicate Permitted(store: Store, ctx: Context, resources: map<string, Resource>, project: string, user: string,
                      key: string, value: int)
    requires key in resources
  {
    && Within(value, ApplicableLimit(store, ctx, resources[key], project, "", key))
    && Within(value, ApplicableLimit(store, ctx, resources[key], project, user, key))
  }

  function OrElse(given: string, fallback: string): string {
    if given == "" then fallback else given
  }

  // The keys that may be checked at all.
  predicate Checkable(resources: map<string, Resource>, values: map<string, int>) {
    forall k :: k in values ==> k in resources && resources[k].validMethod == "check"
  }

  predicate Simple(resources: map<string, Resource>, values: map<string, int>) {
    forall k :: k in values ==> k in resources && !resources[k].hasSync
  }

  function Overs(store: Store, ctx: Context, resources: map<string, Resource>, project: string, user: string,
                 values: map<string, int>): set<string> {
    set k | k in values && k in resources && !Permitted(store, ctx, resources, project, user, k, values[k])
  }

  predicate Passes(store: Store, ctx: Context, resources: map<string, Resource>, values: map<string, int>,
                   givenProject: string, givenUser: string) {
    && Checkable(resources, values) && Simple(resources, values)
    && (forall k :: k in values ==> values[k] >= 0)
    && Overs(store, ctx, resources, OrElse(givenProject, ctx.projectId), OrElse(givenUser, ctx.userId), values) == {}
  }

  /** Passes exactly when every value is asked of a checkable resource without a sync function, is not negative, and is
      within both the project's and the user's resolved limit. What it reports as headroom of a resource over its quota
      is the project's limit, also where it is the user's that is exceeded. */
  method LimitCheck(store: Store, ctx: Context, resources: map<string, Resource>, values: map<string, int>,
                    givenProject: string, givenUser: string)
    returns (r: Result<(), QuotaError>)
    ensures r == Err(InvalidMethodUsage) <==>
      exists k :: k in values && (k !in resources || resources[k].validMethod != "check")
    ensures r.Ok? <==> Passes(store, ctx, resources, values, givenProject, givenUser)
    ensures r != Err(InvalidMethodUsage) && (exists k :: k in values && values[k] < 0) ==>
      r.Err? && r.error.InvalidValue?
    ensures r.Err? && r.error.OverQuota? ==>
      r.error.overs != {} && forall k :: k in values ==> k in resources && !resources[k].hasSync
    ensures r.Err? && r.error.InvalidValue? ==>
      r.error.unders == (set k | k in values && values[k] < 0) && r.error.unders != {}
    ensures r.Err? && r.error.ResourceUnknown? ==>
      r.error.unknown == (set k | k in values && k in resources && resources[k].hasSync)
    ensures r.Err? && r.error.OverQuota? ==>
      && r.error.overs == Overs(store, ctx, resources, OrElse(givenProject, ctx.projectId),
                                OrElse(givenUser, ctx.userId), values)
      && r.error.headroom.Keys == r.error.overs
      && forall k :: k in r.error.overs && k in resources ==>
           r.error.headroom[k] == ApplicableLimit(store, ctx, resources[k], OrElse(givenProject, ctx.projectId), "", k)
  {
    hide Overs, ApplicableLimit;
    if !Checkable(resources, values) {
      return Err(InvalidMethodUsage);
    }
    var unders := set k | k in values && values[k] < 0;
    if unders != {} {
      var under :| under in unders;
      return Err(InvalidValue(unders));
    }
    assert forall k :: k in values ==> k !in unders;
    r := CheckLimits(store, ctx, resources, values, OrElse(givenProject, ctx.projectId), OrElse(givenUser, ctx.userId));
  }

  method CheckLimits(store: Store, ctx: Context, resources: map<string, Resource>, values: map<string, int>,
                     project: string, user: string)
    returns (r: Result<(), QuotaError>)
    requires forall k :: k in values ==> k in resources && values[k] >= 0
    ensures r.Ok? <==> Simple(resources, values) && Overs(store, ctx, resources, project, user, values) == {}
    ensures r.Err? ==> r.error.ResourceUnknown? || r.error.OverQuota?
    ensures r.Err? && r.error.OverQuota? ==> r.error.overs != {} && Simple(resources, values)
    ensures r.Err? && r.error.ResourceUnknown? ==>
      r.error.unknown == (set k | k in values && k in resources && resources[k].hasSync)
    ensures r.Err? && r.error.OverQuota? ==>
      && r.error.overs == Overs(store, ctx, resources, project, user, values)
      && r.error.headroom.Keys == r.error.overs
      && forall k :: k in r.error.overs && k in resources ==>
           r.error.headroom[k] == ApplicableLimit(store, ctx, resources[k], project, "", k)
  {
    hide ApplicableLimit;
    var projectRows := Get(store.projectRows, project);
    var quotas := GetQuotas(store, ctx, resources, values.Keys, false, project, "");
    if quotas.Err? {
      return Err(quotas.error);
    }
    var userQuotas := GetQuotas(store, ctx, resources, values.Keys, false, project, user);
    var overs := set k | k in values
      && ((quotas.value[k] >= 0 && quotas.value[k] < values[k])
          || (userQuotas.value[k] >= 0 && userQuotas.value[k] < values[k]));
    assert overs == Overs(store, ctx, resources, project, user, values);
    if overs == {} {
      return Ok(());
    }
    var headroom := map k | k in overs ::
      if k in projectRows && projectRows[k] < quotas.value[k] then projectRows[k] else quotas.value[k];
    forall k | k in overs && k in resources
      ensures headroom[k] == ApplicableLimit(store, ctx, resources[k], project, "", k)
    {
      ProjectRowWins(store, ctx, resources[k], project, k);
    }
    return Err(OverQuota(overs, headroom));
  }

  lemma ProjectRowWins(store: Store, ctx: Context, resource: Resource, project: string, key: string)
    ensures key in Get(store.projectRows, project) ==>
      ApplicableLimit(store, ctx, resource, project, "", key) == Get(store.projectRows, project)[key]
  {
  }

  /** Asking for exactly the headroom that is reported for a refused resource would pass exactly when the project has a
      limit and the user's is not below it; then it is also the project's limit that was exceeded. */
  lemma HeadroomUsableIff(store: Store, ctx: Context, resources: map<string, Resource>, project: string, user: string,
                          values: map<string, int>, key: string)
    requires key in Overs(store, ctx, resources, project, user, values)
    ensures var headroom, own := ApplicableLimit(store, ctx, resources[key], project, "", key),
                                 ApplicableLimit(store, ctx, resources[key], project, user, key);
      && (headroom >= 0 && Permitted(store, ctx, resources, project, user, key, headroom)
          <==> headroom >= 0 && (own < 0 || headroom <= own))
      && (headroom >= 0 && Permitted(store, ctx, resources, project, user, key, headroom) ==> headroom < values[key])
  {
    hide ApplicableLimit;
  }

  // A project with 10 cores, one of whose users has 2.
  function SmallUser(): Store {
    Store(map["p" := map["cores" := 10]], [UserRow("p", "bob", "cores", 2)], map[], map[], map[], map[])
  }

  // The user is refused 5 with a headroom of 10, which would be refused as well.
  lemma HeadroomMisleads()
    ensures
      var ctx, cores := Context("p", "bob", ""), map["cores" := Resource(20, "check", false)];
      && Overs(SmallUser(), ctx, cores, "p", "bob", map["cores" := 5]) == {"cores"}
      && ApplicableLimit(SmallUser(), ctx, cores["cores"], "p", "", "cores") == 10
      && !Permitted(SmallUser(), ctx, cores, "p", "bob", "cores", 10)
  {
    var store, ctx, cores := SmallUser(), Context("p", "bob", ""), map["cores" := Resource(20, "check", false)];
    var row := UserRow("p", "bob", "cores", 2);
    assert [row][..0] == [];
    assert UserQuotas([], "p", "bob") == map[];
    assert UserQuotas([row], "p", "bob") == map["cores" := 2];
    assert ApplicableLimit(store, ctx, cores["cores"], "p", "bob", "cores") == 2;
    assert "cores" in Overs(store, ctx, cores, "p", "bob", map["cores" := 5]);
  }

  /** The limit that applies to a user: the user's row, else the project's, else that of the context's class, whichever
      project it is, else that of the default class, else the default of the resource. */
  lemma Precedence(store: Store, ctx: Context, resource: Resource, project: string, user: string, key: string)
    requires user != ""
    ensures ApplicableLimit(store, ctx, resource, project, user, key) ==
      var own := UserQuotas(store.userRows, project, user);
      if key in own then own[key]
      else if project in store.projectRows && key in store.projectRows[project] then store.projectRows[project][key]
      else if HasClassRow(store, ctx.quotaClass, key) then store.classRows[ctx.quotaClass][key]
      else if key in store.defaultRows then store.defaultRows[key]
      else resource.default
  {
    hide UserQuotas;
  }

  // The same without a user.
  lemma ProjectPrecedence(store: Store, ctx: Context, resource: Resource, project: string, key: string)
    ensures ApplicableLimit(store, ctx, resource, project, "", key) ==
      if project in store.projectRows && key in store.projectRows[project] then store.projectRows[project][key]
      else if HasClassRow(store, ctx.quotaClass, key) then store.classRows[ctx.quotaClass][key]
      else if key in store.defaultRows then store.defaultRows[key]
      else resource.default
  {
  }

  /** A check passes exactly when each of its resources exists, is one that `limit_check` may be called for and has no
      sync function, and the value asked for is not negative and not above the project's limit nor the user's, a
      negative limit being none. The project and the user are those of the context where none is given. */
  lemma CheckInFull(store: Store, ctx: Context, resources: map<string, Resource>, values: map<string, int>,
                    givenProject: string, givenUser: string)
    ensures
      var project := if givenProject != "" then givenProject else ctx.projectId;
      var user := if givenUser != "" then givenUser else ctx.userId;
      Passes(store, ctx, resources, values, givenProject, givenUser) <==>
        forall k :: k in values ==>
          && k in resources && resources[k].validMethod == "check" && !resources[k].hasSync && values[k] >= 0
          && var p, u := ApplicableLimit(store, ctx, resources[k], project, "", k),
                         ApplicableLimit(store, ctx, resources[k], project, user, k);
             (p < 0 || values[k] <= p) && (u < 0 || values[k] <= u)
  {
    hide ApplicableLimit;
    var project, user := OrElse(givenProject, ctx.projectId), OrElse(givenUser, ctx.userId);
    assert Checkable(resources, values) ==>
      (Overs(store, ctx, resources, project, user, values) == {} <==>
         forall k :: k in values ==> k !in Overs(store, ctx, resources, project, user, values));
  }
}
