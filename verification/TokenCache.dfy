/**
 The Go SDK's token cache: any number of goroutines calling `doRequest` on one client. The mutex is held
 across the token exchange, so an exchange in flight is a phase of the goroutine that holds it.
 Times are in nanoseconds.
 */
module TokenCache {
  import opened Common

  const EXPIRY_MARGIN: int := 30_000_000_000

  datatype Phase =
    | Idle
    | Checking                       // authenticatedToken, holding the mutex
    | Exchanging(refresh: bool)      // fetchAndCacheToken, holding the mutex
    | Ready(token: string, retry: bool)
    | Rejected                        // first answer was 401
    | Done

  /** `sends` and `exchanges` count this request's API calls and token exchanges. */
  datatype Proc = Proc(phase: Phase, sends: nat, exchanges: nat)

  /** A token given to a caller, when, and when it expires. */
  datatype Handout = Handout(token: string, cached: bool, at: int, expiresAt: int)

  datatype Client = Client(
    now: int, mutex: Option<nat>, cachedToken: string, expiresAt: int,
    exchanges: nat, procs: seq<Proc>, handouts: seq<Handout>)

  datatype Action =
    | Spawn
    | Tick(elapsed: nat)
    | Acquire(i: nat)
    | Check(i: nat)
    | ExchangeOk(i: nat, token: string, lifetime: int)
    | ExchangeFails(i: nat)
    | Respond(i: nat, unauthorized: bool)
    | SendFails(i: nat)

  const FRESH := Client(0, None, "", 0, 0, [], [])

  predicate Enabled(c: Client, a: Action) {
    match a
    case Spawn => true
    case Tick(_) => true
    case Acquire(i) => i < |c.procs| && (c.procs[i].phase.Idle? || c.procs[i].phase.Rejected?) && c.mutex.None?
    case Check(i) => i < |c.procs| && c.procs[i].phase.Checking?
    case ExchangeOk(i, _, _) => i < |c.procs| && c.procs[i].phase.Exchanging?
    case ExchangeFails(i) => i < |c.procs| && c.procs[i].phase.Exchanging?
    case Respond(i, _) => i < |c.procs| && c.procs[i].phase.Ready?
    case SendFails(i) => i < |c.procs| && c.procs[i].phase.Ready?
  }

  predicate Usable(c: Client) {
    c.cachedToken != "" && c.now + EXPIRY_MARGIN < c.expiresAt
  }

  function Set(c: Client, i: nat, p: Proc): Client
    requires i < |c.procs|
  {
    c.(procs := c.procs[i := p])
  }

  function StartExchange(c: Client, i: nat, refresh: bool): Client
    requires i < |c.procs|
  {
    Set(c, i, Proc(Exchanging(refresh), c.procs[i].sends, c.procs[i].exchanges + 1)).(exchanges := c.exchanges + 1)
  }

  function Next(c: Client, a: Action): Client
    requires Enabled(c, a)
  {
    match a
    case Spawn => c.(procs := c.procs + [Proc(Idle, 0, 0)])
    case Tick(elapsed) => c.(now := c.now + elapsed)
    case Acquire(i) =>
      var held := c.(mutex := Some(i));
      if c.procs[i].phase.Idle? then Set(held, i, c.procs[i].(phase := Checking))
      else StartExchange(held.(cachedToken := ""), i, true)
    case Check(i) =>
      if Usable(c) then
        Set(c, i, c.procs[i].(phase := Ready(c.cachedToken, false)))
          .(mutex := None, handouts := c.handouts + [Handout(c.cachedToken, true, c.now, c.expiresAt)])
      else StartExchange(c, i, false)
    case ExchangeOk(i, token, lifetime) =>
      Set(c, i, c.procs[i].(phase := Ready(token, c.procs[i].phase.refresh)))
        .(mutex := None, cachedToken := token, expiresAt := c.now + lifetime,
          handouts := c.handouts + [Handout(token, false, c.now, c.now + lifetime)])
    case ExchangeFails(i) => Set(c, i, c.procs[i].(phase := Done)).(mutex := None)
    case Respond(i, unauthorized) =>
      var p := c.procs[i];
      Set(c, i, Proc(if unauthorized && !p.phase.retry then Rejected else Done, p.sends + 1, p.exchanges))
    case SendFails(i) => Set(c, i, Proc(Done, c.procs[i].sends + 1, c.procs[i].exchanges))
  }

  function Exec(c: Client, run: seq<Action>): Option<Client> {
    if run == [] then Some(c)
    else
      var before := Exec(c, run[..|run| - 1]);
      var a := run[|run| - 1];
      if before.Some? && Enabled(before.value, a) then Some(Next(before.value, a)) else None
  }

  // ---------------------------------------------------------------- the invariant

  predicate Holding(ph: Phase) {
    ph.Checking? || ph.Exchanging?
  }

  /** How far each phase may have spent the request's allowance of two sends and two exchanges. */
  predicate BudgetOk(p: Proc) {
    match p.phase
    case Idle => p.sends == 0 && p.exchanges == 0
    case Checking => p.sends == 0 && p.exchanges == 0
    case Exchanging(refresh) => if refresh then p.sends == 1 && p.exchanges <= 2 else p.sends == 0 && p.exchanges == 1
    case Ready(_, retry) => if retry then p.sends == 1 && p.exchanges <= 2 else p.sends == 0 && p.exchanges <= 1
    case Rejected => p.sends == 1 && p.exchanges <= 1
    case Done => p.sends <= 2 && p.exchanges <= 2
  }

  predicate HandoutOk(h: Handout) {
    h.cached ==> h.token != "" && h.at + 30_000_000_000 < h.expiresAt
  }

  ghost predicate MutexOk(c: Client) {
    && (forall i :: 0 <= i < |c.procs| ==> (Holding(c.procs[i].phase) <==> c.mutex == Some(i)))
    && (c.mutex.Some? ==> c.mutex.value < |c.procs|)
  }

  ghost predicate Inv(c: Client) {
    && MutexOk(c)
    && (forall i :: 0 <= i < |c.procs| ==> BudgetOk(c.procs[i]))
    && (forall i :: 0 <= i < |c.handouts| ==> HandoutOk(c.handouts[i]))
    && TokenDropped(c)
  }

  /** A refresh under way has emptied the cache. */
  ghost predicate TokenDropped(c: Client) {
    forall i :: 0 <= i < |c.procs| && c.procs[i].phase == Exchanging(true) ==> c.cachedToken == ""
  }

  lemma StepKeepsTokenDropped(c: Client, a: Action)
    requires MutexOk(c) && TokenDropped(c) && Enabled(c, a)
    ensures TokenDropped(Next(c, a))
  {
  }

  lemma StepKeepsMutex(c: Client, a: Action)
    requires MutexOk(c) && Enabled(c, a)
    ensures MutexOk(Next(c, a))
  {
  }

  lemma StepKeepsInv(c: Client, a: Action)
    requires Inv(c) && Enabled(c, a)
    ensures Inv(Next(c, a))
  {
    hide MutexOk, TokenDropped;
    StepKeepsMutex(c, a);
    StepKeepsTokenDropped(c, a);
    if a.Acquire? || a.Check? || a.ExchangeOk? || a.ExchangeFails? || a.Respond? || a.SendFails? {
      assert BudgetOk(c.procs[a.i]);
    }
  }

  lemma {:induction false} RunKeepsInv(run: seq<Action>)
    requires Exec(FRESH, run).Some?
    ensures Inv(Exec(FRESH, run).value)
    decreases |run|
  {
    if run != [] {
      var init := run[..|run| - 1];
      RunKeepsInv(init);
      StepKeepsInv(Exec(FRESH, init).value, run[|run| - 1]);
    }
  }

  /**
   In every interleaving: at most one token exchange is in flight; a cached token is handed out only while
   it is more than thirty seconds from expiry; each request makes at most two sends and two exchanges.
   */
  lemma OneExchangeAtATime(run: seq<Action>)
    requires Exec(FRESH, run).Some?
    ensures var c := Exec(FRESH, run).value;
            && (forall i, j | 0 <= i < |c.procs| && 0 <= j < |c.procs| ::
                  c.procs[i].phase.Exchanging? && c.procs[j].phase.Exchanging? ==> i == j)
            && (forall h :: h in c.handouts && h.cached ==> h.token != "" && h.at + 30_000_000_000 < h.expiresAt)
            && (forall p :: p in c.procs ==> p.sends <= 2 && p.exchanges <= 2)
  {
    RunKeepsInv(run);
    var c := Exec(FRESH, run).value;
    forall p | p in c.procs
      ensures p.sends <= 2 && p.exchanges <= 2
    {
      assert BudgetOk(p);
    }
    forall h | h in c.handouts && h.cached
      ensures h.token != "" && h.at + 30_000_000_000 < h.expiresAt
    {
      assert HandoutOk(h);
    }
  }

  // ---------------------------------------------------------------- what is cached

  /** The exchange behind the cached token: which step it was, and so when the token expires. */
  ghost predicate Exchanged(run: seq<Action>, c: Client, k: nat) {
    && k < |run| && run[k].ExchangeOk? && Exec(FRESH, run[..k]).Some?
    && c.cachedToken == run[k].token && c.expiresAt == Exec(FRESH, run[..k]).value.now + run[k].lifetime
  }

  /** Whatever is cached came from an exchange, and is kept for exactly the lifetime it was given then. */
  lemma {:induction false} CacheHoldsAnExchange(run: seq<Action>)
    requires Exec(FRESH, run).Some?
    ensures var c := Exec(FRESH, run).value; c.cachedToken != "" ==> exists k: nat :: Exchanged(run, c, k)
    decreases |run|
  {
    var c := Exec(FRESH, run).value;
    if run != [] && c.cachedToken != "" {
      var n := |run| - 1;
      var b, a := Exec(FRESH, run[..n]).value, run[n];
      if a.ExchangeOk? {
        assert Exchanged(run, c, n);
      } else {
        CacheHoldsAnExchange(run[..n]);
        var k: nat :| Exchanged(run[..n], b, k);
        assert run[..n][..k] == run[..k];
        assert Exchanged(run, c, k);
      }
    }
  }

  /** The cache changes in two ways only: a refresh empties it, and an exchange that succeeds fills it. */
  lemma CacheChangesOnlyBy(c: Client, a: Action)
    requires Enabled(c, a)
    ensures var d := Next(c, a);
            if a.ExchangeOk? then d.cachedToken == a.token && d.expiresAt == c.now + a.lifetime
            else if a.Acquire? && c.procs[a.i].phase.Rejected? then d.cachedToken == ""
            else d.cachedToken == c.cachedToken && d.expiresAt == c.expiresAt
  {
  }

  /** A token is handed out from the cache only as it stands there, at that moment. */
  lemma HandoutIsTheCache(c: Client, a: Action, h: Handout)
    requires Enabled(c, a) && h in Next(c, a).handouts && h !in c.handouts && h.cached
    ensures h == Handout(c.cachedToken, true, c.now, c.expiresAt)
  {
  }

  // ---------------------------------------------------------------- one request

  /** The request has made no exchange that failed, and has had no answer that ends it. */
  predicate Open(run: seq<Action>, i: nat) {
    ExchangeFails(i) !in run && Respond(i, false) !in run && SendFails(i) !in run
  }

  /** What the steps taken for request `i` say about where it stands. */
  ghost predicate Told(run: seq<Action>, i: nat, p: Proc) {
    match p.phase
    case Idle => Open(run, i) && Respond(i, true) !in run
    case Checking => Open(run, i) && Respond(i, true) !in run
    case Exchanging(refresh) => Open(run, i) && (refresh <==> Respond(i, true) in run)
    case Ready(token, retry) =>
      && Open(run, i) && (retry <==> Respond(i, true) in run)
      && (retry ==> exists life :: ExchangeOk(i, token, life) in run)
    case Rejected => Open(run, i) && Respond(i, true) in run
    case Done =>
      && (p.sends == 2 ==> Respond(i, true) in run)
      && (Respond(i, true) in run ==> p.sends == 2 || ExchangeFails(i) in run)
      && (Respond(i, true) !in run ==>
            if p.sends == 0 then ExchangeFails(i) in run else Respond(i, false) in run || SendFails(i) in run)
  }

  lemma ToldStep(c: Client, a: Action, init: seq<Action>, run: seq<Action>, i: nat)
    requires Inv(c) && Enabled(c, a) && run == init + [a]
    requires i < |c.procs| ==> Told(init, i, c.procs[i])
    requires i >= |c.procs| ==> Open(init, i) && Respond(i, true) !in init
    ensures i < |Next(c, a).procs| ==> Told(run, i, Next(c, a).procs[i])
    ensures i >= |Next(c, a).procs| ==> Open(run, i) && Respond(i, true) !in run
  {
    assert a in run && forall x :: x in run <==> x in init || x == a;
    if i < |c.procs| {
      assert BudgetOk(c.procs[i]);
      if c.procs[i].phase.Ready? && c.procs[i].phase.retry && Next(c, a).procs[i] == c.procs[i] {
        var life :| ExchangeOk(i, c.procs[i].phase.token, life) in init;
        assert ExchangeOk(i, c.procs[i].phase.token, life) in run;
      }
    }
  }

  lemma {:induction false} RunTells(run: seq<Action>, i: nat)
    requires Exec(FRESH, run).Some?
    ensures var c := Exec(FRESH, run).value;
            if i < |c.procs| then Told(run, i, c.procs[i]) else Open(run, i) && Respond(i, true) !in run
    decreases |run|
  {
    hide Inv, Told;
    if run != [] {
      var init, a := run[..|run| - 1], run[|run| - 1];
      RunTells(init, i);
      RunKeepsInv(init);
      assert run == init + [a];
      ToldStep(Exec(FRESH, init).value, a, init, run, i);
    }
  }

  /**
   A first 401 is followed up: a request that ends was either never refused, or was sent a second time, or
   could not get a new token; and the second time it carries a token from an exchange of its own. A request
   is sent twice only after a 401, and not at all only if its exchange failed.
   */
  lemma UnauthorizedIsRetriedOnce(run: seq<Action>, i: nat)
    requires Exec(FRESH, run).Some? && i < |Exec(FRESH, run).value.procs|
    ensures var p := Exec(FRESH, run).value.procs[i];
            && (p.phase.Ready? && p.phase.retry ==> exists life :: ExchangeOk(i, p.phase.token, life) in run)
            && (p.phase.Done? && Respond(i, true) in run ==> p.sends == 2 || ExchangeFails(i) in run)
            && (p.phase.Done? && p.sends == 2 ==> Respond(i, true) in run)
            && (p.phase.Done? && p.sends == 0 ==> ExchangeFails(i) in run)
  {
    RunTells(run, i);
  }

  /** While a refresh is under way, and after it fails, no refused token is left in the cache. */
  lemma RefreshDropsToken(run: seq<Action>, i: nat)
    requires Exec(FRESH, run).Some? && i < |Exec(FRESH, run).value.procs|
    requires Exec(FRESH, run).value.procs[i].phase == Exchanging(true)
    ensures var c := Exec(FRESH, run).value;
            c.cachedToken == "" && Next(c, ExchangeFails(i)).cachedToken == ""
  {
    RunKeepsInv(run);
  }

  /** No request gets stuck: until it is done it can take a step, or another holds the mutex and can. */
  lemma NeverStuck(run: seq<Action>, i: nat)
    requires Exec(FRESH, run).Some?
    requires var c := Exec(FRESH, run).value; i < |c.procs| && !c.procs[i].phase.Done?
    ensures var c := Exec(FRESH, run).value;
            exists a, j: nat :: StepOf(a, j) && Enabled(c, a) && (j == i || c.mutex == Some(j))
  {
    RunKeepsInv(run);
    var c := Exec(FRESH, run).value;
    var j := if (c.procs[i].phase.Idle? || c.procs[i].phase.Rejected?) && c.mutex.Some? then c.mutex.value else i;
    var a := match c.procs[j].phase
      case Idle => Acquire(j)
      case Rejected => Acquire(j)
      case Checking => Check(j)
      case Exchanging(_) => ExchangeFails(j)
      case _ => SendFails(j);
    assert StepOf(a, j) && Enabled(c, a);
  }

  predicate StepOf(a: Action, i: nat) {
    a == Acquire(i) || a == Check(i) || a == ExchangeFails(i) || a == SendFails(i)
    || (a.ExchangeOk? && a.i == i) || (a.Respond? && a.i == i)
  }

  // ---------------------------------------------------------------- sharing

  /** No 401 is answered and no exchange fails or yields a token that is empty or about to expire. */
  predicate CalmStep(c: Client, a: Action)
    requires Enabled(c, a)
  {
    && !(a.Respond? && a.unauthorized)
    && !a.ExchangeFails?
    && (a.ExchangeOk? ==> a.token != "")
    && (Next(c, a).cachedToken != "" ==> Usable(Next(c, a)))
  }

  predicate CalmRun(c: Client, run: seq<Action>) {
    run == [] || (
      && CalmRun(c, run[..|run| - 1])
      && Exec(c, run).Some?
      && CalmStep(Exec(c, run[..|run| - 1]).value, run[|run| - 1]))
  }

  /** A usable token is cached, nobody is exchanging and nobody is about to refresh. */
  ghost predicate Settled(c: Client) {
    Usable(c) && forall i :: 0 <= i < |c.procs| ==> !c.procs[i].phase.Exchanging? && !c.procs[i].phase.Rejected?
  }

  lemma CalmStepKeepsSettled(c: Client, a: Action)
    requires Settled(c) && Enabled(c, a) && CalmStep(c, a)
    ensures var d := Next(c, a);
            && Settled(d) && d.exchanges == c.exchanges && d.cachedToken == c.cachedToken
            && (d.handouts == c.handouts ||
                d.handouts == c.handouts + [Handout(c.cachedToken, true, c.now, c.expiresAt)])
  {
  }

  /**
   From the moment a usable token is cached, and as long as no 401 and no expiry intervenes, no further
   exchange is made and every caller is given that same token.
   */
  lemma {:induction false} CallersShareOneExchange(c: Client, run: seq<Action>)
    requires Settled(c) && CalmRun(c, run)
    ensures Exec(c, run).Some?
    ensures var d := Exec(c, run).value;
            && Settled(d) && d.exchanges == c.exchanges && d.cachedToken == c.cachedToken
            && c.handouts <= d.handouts
            && forall i :: |c.handouts| <= i < |d.handouts| ==> d.handouts[i].token == c.cachedToken
    decreases |run|
  {
    if run != [] {
      var init := run[..|run| - 1];
      CallersShareOneExchange(c, init);
      CalmStepKeepsSettled(Exec(c, init).value, run[|run| - 1]);
    }
  }

  /** Before the first exchange of a calm run, during it, and after it. */
  ghost predicate AtMostOne(c: Client) {
    && (forall i :: 0 <= i < |c.procs| ==> !c.procs[i].phase.Rejected?)
    && (c.exchanges == 0 ==> c.cachedToken == "" && forall i :: 0 <= i < |c.procs| ==> !c.procs[i].phase.Exchanging?)
    && (c.exchanges > 0 ==>
          c.exchanges == 1 && (Settled(c) ||
           (c.mutex.Some? && c.mutex.value < |c.procs| && c.procs[c.mutex.value].phase.Exchanging?)))
  }

  lemma CalmStepKeepsAtMostOne(c: Client, a: Action)
    requires Inv(c) && AtMostOne(c) && Enabled(c, a) && CalmStep(c, a)
    ensures AtMostOne(Next(c, a))
  {
  }

  lemma {:induction false} CalmRunExchangesOnce(run: seq<Action>)
    requires CalmRun(FRESH, run)
    ensures Exec(FRESH, run).Some?
    ensures var c := Exec(FRESH, run).value; Inv(c) && AtMostOne(c) && c.exchanges <= 1
    decreases |run|
  {
    if run != [] {
      var init := run[..|run| - 1];
      CalmRunExchangesOnce(init);
      var c := Exec(FRESH, init).value;
      StepKeepsInv(c, run[|run| - 1]);
      CalmStepKeepsAtMostOne(c, run[|run| - 1]);
    }
  }
}
