/** The send, redirect, retry and re-authenticate loop of `keystoneauth1/session.py`, over a network that may answer
    every request as it likes. */
module KeystoneSession {
  import opened Wrappers

  datatype Reply = Reply(status: int, location: Option<string>)

  // What one request comes to: a reply, or one of the exceptions of the HTTP library in the order they are caught.
  datatype Outcome = Replies(reply: Reply) | RaisesSSL | RaisesTimeout | RaisesConnection | RaisesOther

  datatype SendError = SSLFailure | ConnectTimeout | ConnectFailure | UnknownConnection

  type Network = nat -> Outcome

  const REDIRECT_STATUSES: set<int> := {301, 302, 303, 305, 307, 308}

  // The failures that are worth another attempt.
  predicate Retriable(o: Outcome) {
    o.RaisesTimeout? || o.RaisesConnection?
  }

  predicate Redirects(o: Outcome) {
    o.Replies? && o.reply.status in REDIRECT_STATUSES && o.reply.location.Some?
  }

  function ErrorOf(o: Outcome): SendError
    requires !o.Replies?
  {
    match o
    case RaisesSSL => SSLFailure
    case RaisesTimeout => ConnectTimeout
    case RaisesConnection => ConnectFailure
    case RaisesOther => UnknownConnection
  }

  /* ---------- what a call does, told request by request ---------- */

  // How many of the m outcomes from i on can be retried, and how many are redirects.
  function Failures(net: Network, i: nat, m: nat): nat {
    if m == 0 then 0 else Failures(net, i, m - 1) + (if Retriable(net(i + m - 1)) then 1 else 0)
  }

  function Followed(net: Network, i: nat, m: nat): nat {
    if m == 0 then 0 else Followed(net, i, m - 1) + (if Redirects(net(i + m - 1)) then 1 else 0)
  }

  // Request m of the call is not the last: a failure or a redirect with some of its budget left.
  predicate GoesOn(net: Network, i: nat, redirects: int, retries: int, m: nat) {
    || (Retriable(net(i + m)) && Failures(net, i, m) < retries)
    || (Redirects(net(i + m)) && Followed(net, i, m) < redirects)
  }

  // Request n is the first that is the last.
  ghost predicate StopsAt(net: Network, i: nat, redirects: int, retries: int, n: nat) {
    !GoesOn(net, i, redirects, retries, n) && forall m :: 0 <= m < n ==> GoesOn(net, i, redirects, retries, m)
  }

  // The requests whose replies were followed.
  function History(net: Network, i: nat, m: nat): seq<nat> {
    if m == 0 then [] else History(net, i, m - 1) + (if Redirects(net(i + m - 1)) then [i + m - 1] else [])
  }

  // Where request m goes.
  function UrlAt(net: Network, i: nat, url: string, m: nat): string {
    if m == 0 then url
    else if Redirects(net(i + m - 1)) then net(i + m - 1).reply.location.value
    else UrlAt(net, i, url, m - 1)
  }

  const FIRST_DELAY: real := 0.5

  // The delay that is current at request m: doubled by every failure, reset by a redirect.
  function DelayAt(net: Network, i: nat, delay: real, m: nat): real {
    if m == 0 then delay
    else if Retriable(net(i + m - 1)) then DelayAt(net, i, delay, m - 1) * 2.0
    else FIRST_DELAY
  }

  // What a call does to the outside: requests with an address and an authentication header, and sleeps.
  datatype Act = Sends(url: string, token: Option<string>) | Sleeps(delay: real)

  function OneAct(o: Outcome, url: string, delay: real, token: Option<string>): seq<Act> {
    [Sends(url, token)] + (if Retriable(o) then [Sleeps(delay)] else [])
  }

  // The first m requests of a call, each failed one with the sleep after it.
  function Acts(net: Network, i: nat, url: string, delay: real, token: Option<string>, m: nat): seq<Act> {
    if m == 0 then []
    else
      Acts(net, i, url, delay, token, m - 1)
      + OneAct(net(i + m - 1), UrlAt(net, i, url, m - 1), DelayAt(net, i, delay, m - 1), token)
  }

  // A whole call whose last request is number n.
  function CallActs(net: Network, i: nat, url: string, delay: real, token: Option<string>, n: nat): seq<Act> {
    Acts(net, i, url, delay, token, n) + [Sends(UrlAt(net, i, url, n), token)]
  }

  /* ---------- the same, one request later ---------- */

  lemma {:induction false} CountsShift(net: Network, i: nat, m: nat)
    ensures Failures(net, i, m + 1) == (if Retriable(net(i)) then 1 else 0) + Failures(net, i + 1, m)
    ensures Followed(net, i, m + 1) == (if Redirects(net(i)) then 1 else 0) + Followed(net, i + 1, m)
    ensures History(net, i, m + 1) == (if Redirects(net(i)) then [i] else []) + History(net, i + 1, m)
  {
    hide Retriable, Redirects;
    if m > 0 {
      CountsShift(net, i, m - 1);
      assert i + 1 + (m - 1) == i + m;
    }
  }

  // What one request leaves of the budgets, the delay and the address.
  function RedirectsLeft(o: Outcome, redirects: int): int {
    if Redirects(o) then redirects - 1 else redirects
  }

  function RetriesLeft(o: Outcome, retries: int): int {
    if Retriable(o) then retries - 1 else retries
  }

  function NextDelay(o: Outcome, delay: real): real {
    if Retriable(o) then delay * 2.0 else FIRST_DELAY
  }

  function NextUrl(o: Outcome, url: string): string {
    if Redirects(o) then o.reply.location.value else url
  }

  lemma {:induction false} UrlShift(net: Network, i: nat, url: string, m: nat)
    ensures UrlAt(net, i, url, m + 1) == UrlAt(net, i + 1, NextUrl(net(i), url), m)
  {
    if m > 0 {
      UrlShift(net, i, url, m - 1);
      assert i + 1 + (m - 1) == i + m;
    }
  }

  lemma {:induction false} DelayShift(net: Network, i: nat, delay: real, m: nat)
    ensures DelayAt(net, i, delay, m + 1) == DelayAt(net, i + 1, NextDelay(net(i), delay), m)
  {
    if m > 0 {
      DelayShift(net, i, delay, m - 1);
      assert i + 1 + (m - 1) == i + m;
    }
  }

  lemma {:induction false} ActsShift(net: Network, i: nat, url: string, delay: real, token: Option<string>, m: nat)
    ensures Acts(net, i, url, delay, token, m + 1)
         == OneAct(net(i), url, delay, token)
            + Acts(net, i + 1, NextUrl(net(i), url), NextDelay(net(i), delay), token, m)
  {
    hide OneAct, UrlAt, DelayAt;
    if m == 0 {
      FirstAct(net, i, url, delay);
      assert Acts(net, i, url, delay, token, 1) == [] + OneAct(net(i), url, delay, token);
    } else {
      ActsShift(net, i, url, delay, token, m - 1);
      UrlShift(net, i, url, m - 1);
      DelayShift(net, i, delay, m - 1);
      assert i + 1 + (m - 1) == i + m;
      var (first, rest) := (OneAct(net(i), url, delay, token),
                            Acts(net, i + 1, NextUrl(net(i), url), NextDelay(net(i), delay), token, m - 1));
      var last := OneAct(net(i + m), UrlAt(net, i, url, m), DelayAt(net, i, delay, m), token);
      assert first + rest + last == first + (rest + last);
    }
  }

  lemma FirstAct(net: Network, i: nat, url: string, delay: real)
    ensures UrlAt(net, i, url, 0) == url && DelayAt(net, i, delay, 0) == delay && net(i + 1 - 1) == net(i)
  {
  }

  lemma CallShift(net: Network, i: nat, url: string, delay: real, token: Option<string>, n: nat)
    ensures CallActs(net, i, url, delay, token, n + 1)
         == OneAct(net(i), url, delay, token)
            + CallActs(net, i + 1, NextUrl(net(i), url), NextDelay(net(i), delay), token, n)
  {
    hide OneAct, UrlAt, Acts, NextUrl, NextDelay;
    ActsShift(net, i, url, delay, token, n);
    UrlShift(net, i, url, n);
  }

  lemma GoesOnShift(net: Network, i: nat, redirects: int, retries: int, m: nat)
    ensures GoesOn(net, i, redirects, retries, m + 1)
       <==> GoesOn(net, i + 1, RedirectsLeft(net(i), redirects), RetriesLeft(net(i), retries), m)
  {
    hide Retriable, Redirects, History;
    CountsShift(net, i, m);
    assert i + (m + 1) == i + 1 + m;
    RetriableOrRedirects(net(i));
  }

  lemma RetriableOrRedirects(o: Outcome)
    ensures !(Retriable(o) && Redirects(o))
  {
  }

  lemma StopShift(net: Network, i: nat, redirects: int, retries: int, n: nat)
    requires GoesOn(net, i, redirects, retries, 0)
    requires StopsAt(net, i + 1, RedirectsLeft(net(i), redirects), RetriesLeft(net(i), retries), n)
    ensures StopsAt(net, i, redirects, retries, n + 1)
  {
    hide GoesOn;
    GoesOnShift(net, i, redirects, retries, n);
    forall m | 0 <= m < n + 1 ensures GoesOn(net, i, redirects, retries, m) {
      if m > 0 {
        GoesOnShift(net, i, redirects, retries, m - 1);
      }
    }
  }

  /* ---------- the session ---------- */

  class Response {
    const index: nat
    const reply: Reply
    var history: seq<Response>

    constructor (index: nat, reply: Reply)
      ensures this.index == index && this.reply == reply && history == []
    {
      this.index, this.reply, history := index, reply, [];
    }

    // `history.insert(0, resp)`
    method Prepend(resp: Response)
      modifies this`history
      ensures Indexes(history) == [resp.index] + Indexes(old(history))
    {
      history := [resp] + history;
    }
  }

  function Indexes(rs: seq<Response>): (r: seq<nat>)
    ensures |r| == |rs|
  {
    seq(|rs|, k requires 0 <= k < |rs| => rs[k].index)
  }

  class Session {
    const net: Network
    var sent: nat              // requests issued so far
    var acts: seq<Act>         // what went out, and every `time.sleep`
    var invalidated: nat       // how often the plugin was told to drop its token

    constructor (net: Network)
      ensures this.net == net && sent == 0 && acts == [] && invalidated == 0
    {
      this.net, sent, acts, invalidated := net, 0, [], 0;
    }

    /** One call of `_send_request`: it issues the requests up to the first that cannot go on, follows the locations and
        sleeps the delays in order, and reports that request's reply with the followed replies as its history, or that
        request's failure. */
    method SendRequest(url: string, redirect: int, connectRetries: int, connectRetryDelay: real, token: Option<string>)
      returns (r: Result<Response, SendError>, ghost n: nat)
      modifies this`sent, this`acts
      ensures StopsAt(net, old(sent), redirect, connectRetries, n) && sent == old(sent) + n + 1
      ensures acts == old(acts) + CallActs(net, old(sent), url, connectRetryDelay, token, n)
      ensures r.Ok? <==> net(old(sent) + n).Replies?
      ensures r.Ok? ==> fresh(r.value) && r.value.index == old(sent) + n && r.value.reply == net(old(sent) + n).reply
      ensures r.Ok? ==> Indexes(r.value.history) == History(net, old(sent), n)
      ensures r.Err? ==> r.error == ErrorOf(net(old(sent) + n))
      ensures r == Err(ConnectTimeout) <==> net(old(sent) + n).RaisesTimeout?
      ensures r == Err(ConnectFailure) <==> net(old(sent) + n).RaisesConnection?
      ensures r == Err(SSLFailure) <==> net(old(sent) + n).RaisesSSL?
      decreases if redirect > 0 then redirect else 0, if connectRetries > 0 then connectRetries else 0
    {
      hide StopsAt, History, CallActs, Retriable, Redirects, REDIRECT_STATUSES;
      ghost var i := sent;
      var outcome := net(sent);
      sent := sent + 1;
      acts := acts + [Sends(url, token)];
      if !outcome.Replies? {
        var e := ErrorOf(outcome);
        if (e != ConnectTimeout && e != ConnectFailure) || connectRetries <= 0 {
          n := 0;
          StopsHere(net, i, redirect, connectRetries, url, connectRetryDelay, token);
          return Err(e), n;
        }
        acts := acts + [Sleeps(connectRetryDelay)];
        r, n := SendRequest(url, redirect, connectRetries - 1, connectRetryDelay * 2.0, token);
        AfterFailure(net, i, redirect, connectRetries, url, connectRetryDelay, token, n, old(acts));
        n := n + 1;
        return;
      }
      var resp := new Response(sent - 1, outcome.reply);
      if outcome.reply.status in REDIRECT_STATUSES && redirect - 1 >= 0 && outcome.reply.location.Some? {
        r, n := SendRequest(outcome.reply.location.value, redirect - 1, connectRetries, FIRST_DELAY, token);
        AfterRedirect(net, i, redirect, connectRetries, url, connectRetryDelay, token, n, old(acts));
        if r.Ok? {
          r.value.Prepend(resp);
        }
        n := n + 1;
        return;
      }
      n := 0;
      StopsHere(net, i, redirect, connectRetries, url, connectRetryDelay, token);
      assert Indexes(resp.history) == [];
      return Ok(resp), n;
    }

    /** The send and re-authenticate tail of `request`: a second call, with new headers, only after a 401 for an
        authenticated request whose plugin dropped its token and has another; never a third. */
    method Request(url: string, redirect: int, connectRetries: int, plugin: Plugin, authenticated: bool,
                   allowReauth: bool, raiseExc: bool)
      returns (r: Result<Response, RequestError>, ghost n: nat, ghost n': nat)
      modifies this
      ensures authenticated && plugin.headers.None? ==>
        r == Err(NoAuthentication) && sent == old(sent) && acts == old(acts) && invalidated == old(invalidated)
      ensures !authenticated || plugin.headers.Some? ==> StopsAt(net, old(sent), redirect, connectRetries, n)
      ensures (!authenticated || plugin.headers.Some?) ==>
        var again := Refused(net(old(sent) + n), authenticated, allowReauth) && plugin.invalidates
            && plugin.renewed.Some?;
        && (again ==> StopsAt(net, old(sent) + n + 1, redirect, connectRetries, n'))
        && sent == old(sent) + n + 1 + (if again then n' + 1 else 0)
        && acts == old(acts)
             + CallActs(net, old(sent), url, FIRST_DELAY, if authenticated then plugin.headers else None, n)
             + (if again then CallActs(net, old(sent) + n + 1, url, FIRST_DELAY, plugin.renewed, n') else [])
        && invalidated == old(invalidated) + (if Refused(net(old(sent) + n), authenticated, allowReauth) then 1 else 0)
      ensures sent > old(sent) ==> Reports(r, net(sent - 1), raiseExc) && (r.Ok? ==> r.value.index == sent - 1)
      ensures sent - old(sent) <= 2 * (1 + Max0(redirect) + Max0(connectRetries))
    {
      hide StopsAt, CallActs;
      n' := 0;
      if authenticated && plugin.headers.None? {
        n := 0;
        return Err(NoAuthentication), n, n';
      }
      ghost var i := sent;
      var resp;
      resp, n := SendRequest(url, redirect, connectRetries, FIRST_DELAY,
                             if authenticated then plugin.headers else None);
      CallBounded(net, i, redirect, connectRetries, n);
      if resp.Ok? && resp.value.reply.status == 401 && authenticated && allowReauth {
        invalidated := invalidated + 1;
        if plugin.invalidates && plugin.renewed.Some? {
          ghost var j := sent;
          resp, n' := SendRequest(url, redirect, connectRetries, FIRST_DELAY, plugin.renewed);
          CallBounded(net, j, redirect, connectRetries, n');
        }
      }
      if resp.Err? {
        return Err(NotSent(resp.error)), n, n';
      }
      if raiseExc && resp.value.reply.status >= 400 {
        return Err(HttpError(resp.value.reply.status)), n, n';
      }
      return Ok(resp.value), n, n';
    }
  }

  // What the authentication plugin answers: its headers, whether it drops its token, and its headers after that.
  datatype Plugin = Plugin(headers: Option<string>, invalidates: bool, renewed: Option<string>)

  datatype RequestError = NoAuthentication | NotSent(error: SendError) | HttpError(status: int)

  predicate Refused(o: Outcome, authenticated: bool, allowReauth: bool) {
    o.Replies? && o.reply.status == 401 && authenticated && allowReauth
  }

  // What the caller gets for the last outcome.
  predicate Reports(r: Result<Response, RequestError>, o: Outcome, raiseExc: bool) {
    if !o.Replies? then r == Err(NotSent(ErrorOf(o)))
    else if raiseExc && o.reply.status >= 400 then r == Err(HttpError(o.reply.status))
    else r.Ok? && r.value.reply == o.reply
  }

  lemma CallBounded(net: Network, i: nat, redirects: int, retries: int, n: nat)
    requires StopsAt(net, i, redirects, retries, n)
    ensures n <= Max0(redirects) + Max0(retries)
  {
    WithinBudget(net, i, redirects, retries, n);
  }

  lemma StopsHere(net: Network, i: nat, redirects: int, retries: int, url: string, delay: real, token: Option<string>)
    requires net(i).RaisesTimeout? || net(i).RaisesConnection? ==> retries <= 0
    requires net(i).Replies? && net(i).reply.status in REDIRECT_STATUSES && net(i).reply.location.Some? ==>
      redirects <= 0
    ensures StopsAt(net, i, redirects, retries, 0)
    ensures CallActs(net, i, url, delay, token, 0) == [Sends(url, token)] && History(net, i, 0) == []
  {
    assert net(i + 0) == net(i);
    assert Acts(net, i, url, delay, token, 0) == [];
  }

  lemma FailureGoesOn(net: Network, i: nat, redirects: int, retries: int)
    requires Retriable(net(i)) && retries > 0
    ensures GoesOn(net, i, redirects, retries, 0) && !Redirects(net(i))
  {
    assert net(i + 0) == net(i);
  }

  lemma RedirectGoesOn(net: Network, i: nat, redirects: int, retries: int)
    requires net(i).Replies? && net(i).reply.status in REDIRECT_STATUSES && net(i).reply.location.Some? && redirects > 0
    ensures GoesOn(net, i, redirects, retries, 0) && Redirects(net(i)) && !Retriable(net(i))
  {
    assert net(i + 0) == net(i);
  }

  // The rest of the call, seen from its first request.
  lemma AfterFailure(net: Network, i: nat, redirects: int, retries: int, url: string, delay: real,
                     token: Option<string>,
                     n: nat, before: seq<Act>)
    requires (net(i).RaisesTimeout? || net(i).RaisesConnection?) && retries > 0
    requires StopsAt(net, i + 1, redirects, retries - 1, n)
    ensures StopsAt(net, i, redirects, retries, n + 1)
    ensures before + CallActs(net, i, url, delay, token, n + 1)
         == before + [Sends(url, token)] + [Sleeps(delay)] + CallActs(net, i + 1, url, delay * 2.0, token, n)
    ensures History(net, i, n + 1) == History(net, i + 1, n)
  {
    hide StopsAt, CallActs, History, GoesOn;
    FailureGoesOn(net, i, redirects, retries);
    StopShift(net, i, redirects, retries, n);
    CallShift(net, i, url, delay, token, n);
    CountsShift(net, i, n);
    assert [] + History(net, i + 1, n) == History(net, i + 1, n);
    var rest := CallActs(net, i + 1, url, delay * 2.0, token, n);
    assert before + ([Sends(url, token)] + [Sleeps(delay)] + rest)
        == before + [Sends(url, token)] + [Sleeps(delay)] + rest;
  }

  lemma AfterRedirect(net: Network, i: nat, redirects: int, retries: int, url: string, delay: real,
                      token: Option<string>,
                      n: nat, before: seq<Act>)
    requires net(i).Replies? && net(i).reply.status in REDIRECT_STATUSES && net(i).reply.location.Some? && redirects > 0
    requires StopsAt(net, i + 1, redirects - 1, retries, n)
    ensures StopsAt(net, i, redirects, retries, n + 1)
    ensures before + CallActs(net, i, url, delay, token, n + 1)
         == before + [Sends(url, token)] + CallActs(net, i + 1, net(i).reply.location.value, FIRST_DELAY, token, n)
    ensures History(net, i, n + 1) == [i] + History(net, i + 1, n)
  {
    hide StopsAt, CallActs, History, GoesOn;
    RedirectGoesOn(net, i, redirects, retries);
    StopShift(net, i, redirects, retries, n);
    CallShift(net, i, url, delay, token, n);
    CountsShift(net, i, n);
    assert OneAct(net(i), url, delay, token) == [Sends(url, token)];
    var rest := CallActs(net, i + 1, net(i).reply.location.value, FIRST_DELAY, token, n);
    assert before + ([Sends(url, token)] + rest) == before + [Sends(url, token)] + rest;
  }

  /* ---------- bounds ---------- */

  function Max0(k: int): nat {
    if k > 0 then k else 0
  }

  // Before its last request a call spends at most its budgets, and a retry spent before a redirect stays spent.
  lemma {:induction false} WithinBudget(net: Network, i: nat, redirects: int, retries: int, m: nat)
    requires forall k :: 0 <= k < m ==> GoesOn(net, i, redirects, retries, k)
    ensures Failures(net, i, m) <= Max0(retries) && Followed(net, i, m) <= Max0(redirects)
    ensures m == Failures(net, i, m) + Followed(net, i, m)
    ensures |History(net, i, m)| == Followed(net, i, m)
  {
    if m > 0 {
      WithinBudget(net, i, redirects, retries, m - 1);
      assert GoesOn(net, i, redirects, retries, m - 1);
    }
  }

  /** Whatever the network answers, there is one last request, after at most 1 + redirects + retries requests; and of
      those before it at most `retries` failed and at most `redirects` were redirects. */
  lemma Bounded(net: Network, i: nat, redirects: int, retries: int) returns (n: nat)
    ensures StopsAt(net, i, redirects, retries, n)
    ensures n <= Max0(redirects) + Max0(retries)
    ensures Failures(net, i, n) <= Max0(retries) && |History(net, i, n)| <= Max0(redirects)
  {
    hide GoesOn;
    n := 0;
    while GoesOn(net, i, redirects, retries, n)
      invariant forall m :: 0 <= m < n ==> GoesOn(net, i, redirects, retries, m)
      invariant n <= Max0(redirects) + Max0(retries)
      decreases Max0(redirects) + Max0(retries) - n
    {
      WithinBudget(net, i, redirects, retries, n + 1);
      n := n + 1;
    }
    WithinBudget(net, i, redirects, retries, n);
  }

  lemma StopsOnce(net: Network, i: nat, redirects: int, retries: int, a: nat, b: nat)
    requires StopsAt(net, i, redirects, retries, a) && StopsAt(net, i, redirects, retries, b)
    ensures a == b
  {
  }

  // The history lists every followed redirect once, in the order they came, and nothing else.
  lemma {:induction false} HistoryIsFollowed(net: Network, i: nat, m: nat)
    ensures forall k :: k in History(net, i, m) <==> i <= k < i + m && Redirects(net(k))
    ensures forall a, b :: 0 <= a < b < |History(net, i, m)| ==> History(net, i, m)[a] < History(net, i, m)[b]
  {
    hide Redirects;
    if m > 0 {
      HistoryIsFollowed(net, i, m - 1);
      var before := History(net, i, m - 1);
      assert forall a :: 0 <= a < |before| ==> before[a] in before && before[a] < i + m - 1;
    }
  }

  // The time slept.
  function Slept(acts: seq<Act>): real {
    if acts == [] then 0.0
    else
      var last := acts[|acts| - 1];
      Slept(acts[..|acts| - 1]) + (if last.Sleeps? then last.delay else 0.0)
  }

  lemma {:induction false} SleptAppend(a: seq<Act>, b: seq<Act>)
    ensures Slept(a + b) == Slept(a) + Slept(b)
  {
    if b == [] {
      assert a + b == a;
    } else {
      assert (a + b)[..|a + b| - 1] == a + b[..|b| - 1];
      SleptAppend(a, b[..|b| - 1]);
    }
  }

  lemma SleptOne(o: Outcome, url: string, delay: real, token: Option<string>)
    ensures Slept(OneAct(o, url, delay, token)) == if Retriable(o) then delay else 0.0
    ensures Slept([Sends(url, token)]) == 0.0
  {
    assert [Sends(url, token)][..0] == [];
    SleptAppend([Sends(url, token)], [Sleeps(delay)]);
    assert [Sleeps(delay)][..0] == [];
    assert [Sends(url, token)] + [] == [Sends(url, token)];
  }

  function Pow2(k: nat): real {
    if k == 0 then 1.0 else 2.0 * Pow2(k - 1)
  }

  // A delay that is reset is shorter than one that goes on doubling.
  lemma {:induction false} SleepBound(net: Network, i: nat, url: string, token: Option<string>, m: nat)
    ensures Slept(Acts(net, i, url, FIRST_DELAY, token, m)) <= FIRST_DELAY * (Pow2(Failures(net, i, m)) - 1.0)
    ensures 0.0 < DelayAt(net, i, FIRST_DELAY, m) <= FIRST_DELAY * Pow2(Failures(net, i, m))
    ensures Pow2(Failures(net, i, m)) >= 1.0
  {
    hide Retriable, OneAct, UrlAt, Slept;
    if m == 0 {
      NothingSlept();
    } else {
      SleepBound(net, i, url, token, m - 1);
      var u, d := UrlAt(net, i, url, m - 1), DelayAt(net, i, FIRST_DELAY, m - 1);
      SleptAppend(Acts(net, i, url, FIRST_DELAY, token, m - 1), OneAct(net(i + m - 1), u, d, token));
      SleptOne(net(i + m - 1), u, d, token);
    }
  }

  lemma NothingSlept()
    ensures Slept([]) == 0.0
  {
  }

  lemma {:induction false} Pow2Grows(a: nat, b: nat)
    requires a <= b
    ensures 1.0 <= Pow2(a) <= Pow2(b)
  {
    if a < b {
      Pow2Grows(a, b - 1);
    } else if a > 0 {
      Pow2Grows(a - 1, a - 1);
    }
  }

  // The sleep of a call is bounded by its retry budget alone, although the delay is reset after each redirect.
  lemma TotalSleep(net: Network, i: nat, redirects: int, retries: nat, url: string, token: Option<string>, n: nat)
    requires StopsAt(net, i, redirects, retries, n)
    ensures Slept(CallActs(net, i, url, FIRST_DELAY, token, n)) <= FIRST_DELAY * (Pow2(retries) - 1.0)
  {
    hide GoesOn, Failures, Followed, History, Acts, Slept;
    WithinBudget(net, i, redirects, retries, n);
    SleepBound(net, i, url, token, n);
    SleptAppend(Acts(net, i, url, FIRST_DELAY, token, n), [Sends(UrlAt(net, i, url, n), token)]);
    SleptOne(net(i), UrlAt(net, i, url, n), 0.0, token);
    Pow2Grows(Failures(net, i, n), retries);
  }

  function NeverConnects(): Network {
    k => RaisesConnection
  }

  // Both bounds are reached: a network that never connects uses up the retries and the sleep to the last.
  lemma BoundsReached(retries: nat, url: string, token: Option<string>)
    ensures StopsAt(NeverConnects(), 0, 0, retries, retries)
    ensures Slept(CallActs(NeverConnects(), 0, url, FIRST_DELAY, token, retries)) == FIRST_DELAY * (Pow2(retries) - 1.0)
  {
    hide Acts, Slept;
    forall m | 0 <= m <= retries ensures Failures(NeverConnects(), 0, m) == m && Followed(NeverConnects(), 0, m) == 0 {
      AllFail(m, url, token);
    }
    AllFail(retries, url, token);
    var net := NeverConnects();
    SleptAppend(Acts(net, 0, url, FIRST_DELAY, token, retries), [Sends(UrlAt(net, 0, url, retries), token)]);
    SleptOne(net(0), UrlAt(net, 0, url, retries), 0.0, token);
  }

  lemma {:induction false} AllFail(m: nat, url: string, token: Option<string>)
    ensures Failures(NeverConnects(), 0, m) == m && Followed(NeverConnects(), 0, m) == 0
    ensures DelayAt(NeverConnects(), 0, FIRST_DELAY, m) == FIRST_DELAY * Pow2(m)
    ensures Slept(Acts(NeverConnects(), 0, url, FIRST_DELAY, token, m)) == FIRST_DELAY * (Pow2(m) - 1.0)
  {
    hide Slept, OneAct, UrlAt;
    var net := NeverConnects();
    if m == 0 {
      NothingSlept();
    } else {
      AllFail(m - 1, url, token);
      var u, d := UrlAt(net, 0, url, m - 1), DelayAt(net, 0, FIRST_DELAY, m - 1);
      SleptAppend(Acts(net, 0, url, FIRST_DELAY, token, m - 1), OneAct(net(m - 1), u, d, token));
      SleptOne(net(m - 1), u, d, token);
    }
  }

  /* ---------- a call, told by its first request ---------- */

  /** A reply with one of six statuses and a location is followed while redirects are left: the rest of the call is one
      to that location, with one redirect less and the first delay again. A timeout or a refused connection is retried
      while retries are left: after a sleep the rest is the same call with one retry less and twice the delay.
      Everything else ends the call. */
  lemma OneCall(net: Network, i: nat, redirects: int, retries: int, url: string, delay: real, token: Option<string>,
                n: nat)
    requires StopsAt(net, i, redirects, retries, n)
    ensures
      if && net(i).Replies? && net(i).reply.status in {301, 302, 303, 305, 307, 308} && net(i).reply.location.Some?
         && redirects > 0
      then
        && n > 0 && StopsAt(net, i + 1, redirects - 1, retries, n - 1)
        && CallActs(net, i, url, delay, token, n)
           == [Sends(url, token)] + CallActs(net, i + 1, net(i).reply.location.value, 0.5, token, n - 1)
        && History(net, i, n) == [i] + History(net, i + 1, n - 1)
      else if net(i) in {RaisesTimeout, RaisesConnection} && retries > 0 then
        && n > 0 && StopsAt(net, i + 1, redirects, retries - 1, n - 1)
        && CallActs(net, i, url, delay, token, n)
           == [Sends(url, token), Sleeps(delay)] + CallActs(net, i + 1, url, delay * 2.0, token, n - 1)
        && History(net, i, n) == History(net, i + 1, n - 1)
      else n == 0 && CallActs(net, i, url, delay, token, n) == [Sends(url, token)] && History(net, i, n) == []
  {
    hide StopsAt, CallActs, History;
    if net(i).Replies? && net(i).reply.status in REDIRECT_STATUSES && net(i).reply.location.Some? && redirects > 0 {
      var m := Bounded(net, i + 1, redirects - 1, retries);
      AfterRedirect(net, i, redirects, retries, url, delay, token, m, []);
      StopsOnce(net, i, redirects, retries, n, m + 1);
      EmptyFirst([Sends(url, token)], CallActs(net, i + 1, net(i).reply.location.value, FIRST_DELAY, token, m));
      assert [] + CallActs(net, i, url, delay, token, n) == CallActs(net, i, url, delay, token, n);
    } else if (net(i).RaisesTimeout? || net(i).RaisesConnection?) && retries > 0 {
      var m := Bounded(net, i + 1, redirects, retries - 1);
      AfterFailure(net, i, redirects, retries, url, delay, token, m, []);
      StopsOnce(net, i, redirects, retries, n, m + 1);
      assert [] + CallActs(net, i, url, delay, token, n) == CallActs(net, i, url, delay, token, n);
      assert [] + [Sends(url, token)] + [Sleeps(delay)] == [Sends(url, token), Sleeps(delay)];
    } else {
      StopsHere(net, i, redirects, retries, url, delay, token);
      StopsOnce(net, i, redirects, retries, n, 0);
    }
  }

  lemma EmptyFirst(a: seq<Act>, b: seq<Act>)
    ensures [] + a + b == a + b
  {
    assert [] + a == a;
  }
}
