/**
 The message quota: any number of overlapping send requests of one tenant between two nights of one
 billing period, from the middleware's reservation to the handler's answer and the refund.

 Each Redis command is one atomic step and requests interleave freely. Commands, row inserts and
 enqueueings may fail, with or without having taken effect, and a request may die between any two steps.
 */
module Quota {
  import opened Common

  // ---------------------------------------------------------------- requests

  /**
   The body of a send-multi request: not a JSON object with a list of channels, or such an object, whose
   list elements may or may not decode and which may be followed by bytes other than white space.
   */
  datatype Body = Unreadable | Channels(count: nat, decodable: bool, trailing: bool)

  datatype Request = Send(acceptable: bool) | SendMulti(body: Body)

  /** The channels the middleware counts: `json.Unmarshal` wants the whole body to be one value. */
  function Probed(b: Body): Option<nat> {
    if b.Channels? && !b.trailing then Some(b.count) else None
  }

  /** The channels the handler decodes: its `Decoder` stops after the first value. */
  function Decoded(b: Body): Option<nat> {
    if b.Channels? && b.decodable then Some(b.count) else None
  }

  /** The size of the reservation the middleware asks for. */
  function Slots(r: Request): (n: nat)
    ensures n >= 1
  {
    match r
    case Send(_) => 1
    case SendMulti(b) => if Probed(b).Some? && Probed(b).value > 0 then Probed(b).value else 1
  }

  /** How many times the handler calls the service; zero means it answers 400 outright. */
  function Calls(r: Request): nat {
    match r
    case Send(acceptable) => if acceptable then 1 else 0
    case SendMulti(b) => if Decoded(b).Some? && 1 <= Decoded(b).value <= 50 then Decoded(b).value else 0
  }

  /** Middleware and handler read the same channel list. */
  predicate Agree(r: Request) {
    r.SendMulti? ==> Probed(r.body) == Decoded(r.body)
  }

  datatype Lookup = Found | Missing | Broken

  /** Everything `NotificationService.Send` depends on, in the order it looks. */
  datatype Conditions = Conditions(
    config: Lookup, ownTenant: bool, active: bool, subjectOk: bool, entitlements: bool,
    channelAllowed: bool, row: Reply, taskBuilt: bool, enqueue: Reply)

  const ALL_WELL := Conditions(Found, true, true, true, true, true, Accepted, true, Accepted)
  const REPLY_LOST := ALL_WELL.(enqueue := Lost)

  datatype SendResult = Enqueued | NotFound | ValidationFailed | ChannelNotInPlan | Internal

  /** What the caller is told, and whether a row was stored and a task put on the queue. */
  datatype Sending = Sending(result: SendResult, stored: bool, queued: bool)

  /** The channel is the tenant's own, switched on, fits the message and is part of the plan. */
  predicate Permitted(c: Conditions) {
    c.config == Found && c.ownTenant && c.active && c.subjectOk && c.entitlements && c.channelAllowed
  }

  function ServiceSend(c: Conditions): (s: Sending)
    ensures s.stored <==> Permitted(c) && !c.row.Refused?
    ensures s.queued <==> Permitted(c) && c.row.Accepted? && c.taskBuilt && !c.enqueue.Refused?
    ensures s.result == Enqueued <==> s.queued && c.enqueue.Accepted?
    ensures s.result == NotFound <==> c.config == Missing
    ensures s.result == ValidationFailed <==> c.config == Found && !(c.ownTenant && c.active && c.subjectOk)
    ensures s.result == ChannelNotInPlan <==> !c.channelAllowed && Permitted(c.(channelAllowed := true))
  {
    if c.config == Missing then Sending(NotFound, false, false)
    else if c.config == Broken then Sending(Internal, false, false)
    else if !c.ownTenant || !c.active || !c.subjectOk then Sending(ValidationFailed, false, false)
    else if !c.entitlements then Sending(Internal, false, false)
    else if !c.channelAllowed then Sending(ChannelNotInPlan, false, false)
    else if c.row != Accepted then Sending(Internal, c.row == Lost, false)
    else if !c.taskBuilt then Sending(Internal, true, false)
    else if c.enqueue != Accepted then Sending(Internal, true, c.enqueue == Lost)
    else Sending(Enqueued, true, true)
  }

  function StatusOf(result: SendResult): (status: nat)
    ensures status < 400 <==> result == Enqueued
    ensures status == 404 <==> result == NotFound
    ensures status == 403 <==> result == ChannelNotInPlan
    ensures status == 400 <==> result == ValidationFailed
  {
    match result
    case Enqueued => 202
    case NotFound => 404
    case ValidationFailed => 400
    case ChannelNotInPlan => 403
    case Internal => 500
  }

  // ---------------------------------------------------------------- the step machine

  /** How a request's reservation ended; `Leaked` slots are counted although nobody was granted them. */
  datatype End = Untouched | Denied | Charged | Refunded | Leaked

  datatype Phase =
    | Arrived
    | Overdrawn
    | Serving(left: nat)
    | Answered(status: nat)
    | Correcting(status: nat, deficit: nat)
    | Closed(status: nat, end: End)

  /**
   `stored` and `queued` count the rows and tasks this request has brought about, `lost` those of the
   tasks whose enqueueing was reported as an error.
   */
  datatype Proc = Proc(req: Request, phase: Phase, stored: nat, queued: nat, lost: nat)

  /** `base` is what the counter held at the start: zero in a new period, later what a reconcile wrote. */
  datatype World = World(limit: int, base: nat, counter: int, procs: seq<Proc>)

  datatype Action =
    | Arrive(req: Request)
    | TurnAway(i: nat, status: nat)
    | Reserve(i: nat)
    | ReserveError(i: nat, applied: bool)
    | Rollback(i: nat)
    | RollbackError(i: nat, applied: bool)
    | Call(i: nat, c: Conditions)
    | Respond(i: nat)
    | Finish(i: nat)
    | Refund(i: nat)
    | RefundError(i: nat, applied: bool)
    | Correct(i: nat)
    | Crash(i: nat)

  predicate Enabled(w: World, a: Action) {
    a.Arrive? || (
      && a.i < |w.procs|
      && var ph := w.procs[a.i].phase;
         match a
         case Arrive(_) => true
         case TurnAway(_, status) => ph.Arrived? && status >= 400
         case Reserve(_) => ph.Arrived?
         case ReserveError(_, _) => ph.Arrived?
         case Rollback(_) => ph.Overdrawn?
         case RollbackError(_, _) => ph.Overdrawn?
         case Call(_, _) => ph.Serving? && ph.left > 0
         case Respond(_) => ph.Serving? && ph.left == 0
         case Finish(_) => ph.Answered? && ph.status < 400
         case Refund(_) => ph.Answered? && ph.status >= 400
         case RefundError(_, _) => ph.Answered? && ph.status >= 400
         case Correct(_) => ph.Correcting?
         case Crash(_) => !ph.Closed?)
  }

  function Newcomer(r: Request): Proc {
    Proc(r, Arrived, 0, 0, 0)
  }

  /** The acting request after its step. */
  function NextProc(w: World, a: Action): Proc
    requires Enabled(w, a) && !a.Arrive?
  {
    var p := w.procs[a.i];
    if a.Call? then AfterCall(p, ServiceSend(a.c)) else p.(phase := NextPhase(w, a))
  }

  function NextPhase(w: World, a: Action): Phase
    requires Enabled(w, a) && !a.Arrive? && !a.Call?
  {
    var p := w.procs[a.i];
    var n := Slots(p.req);
    match a
    case TurnAway(_, status) => Closed(status, Untouched)
    case Reserve(_) => if w.counter + n > w.limit then Overdrawn else Serving(Calls(p.req))
    case ReserveError(_, applied) => Closed(500, if applied then Leaked else Untouched)
    case Rollback(_) => Closed(429, Denied)
    case RollbackError(_, applied) => Closed(429, if applied then Denied else Leaked)
    case Respond(_) => Answered(if Calls(p.req) == 0 then 400 else 202)
    case Finish(_) => Closed(p.phase.status, Charged)
    case Refund(_) =>
      if w.counter - n < 0 then Correcting(p.phase.status, n - w.counter) else Closed(p.phase.status, Refunded)
    case RefundError(_, applied) => Closed(p.phase.status, if applied then Refunded else Charged)
    case Correct(_) => Closed(p.phase.status, Refunded)
    case Crash(_) => Closed(0, if Held(p) == 0 then Untouched else if p.phase.Overdrawn? then Leaked else Charged)
  }

  /** `Send` answers with the call's own result; send-multi collects results and goes on. */
  function AfterCall(p: Proc, s: Sending): Proc
    requires p.phase.Serving? && p.phase.left > 0
  {
    Proc(p.req,
         if p.req.Send? then Answered(StatusOf(s.result)) else Serving(p.phase.left - 1),
         p.stored + if s.stored then 1 else 0,
         p.queued + if s.queued then 1 else 0,
         p.lost + if s.queued && s.result != Enqueued then 1 else 0)
  }

  /** What the action does to the Redis counter. */
  function NextCounter(w: World, a: Action): int
    requires Enabled(w, a) && !a.Arrive?
  {
    var n := Slots(w.procs[a.i].req);
    match a
    case Reserve(_) => w.counter + n
    case ReserveError(_, applied) => if applied then w.counter + n else w.counter
    case Rollback(_) => w.counter - n
    case RollbackError(_, applied) => if applied then w.counter - n else w.counter
    case Refund(_) => w.counter - n
    case RefundError(_, applied) => if applied then w.counter - n else w.counter
    case Correct(_) => w.counter + w.procs[a.i].phase.deficit
    case _ => w.counter
  }

  function Next(w: World, a: Action): World
    requires Enabled(w, a)
  {
    if a.Arrive? then w.(procs := w.procs + [Newcomer(a.req)])
    else w.(counter := NextCounter(w, a), procs := w.procs[a.i := NextProc(w, a)])
  }

  /** The world after a whole interleaving, if every step of it was possible. */
  function Exec(w: World, run: seq<Action>): Option<World> {
    if run == [] then Some(w)
    else
      var before := Exec(w, run[..|run| - 1]);
      var a := run[|run| - 1];
      if before.Some? && Enabled(before.value, a) then Some(Next(before.value, a)) else None
  }

  function Start(limit: int, base: nat := 0): World {
    World(limit, base, base, [])
  }

  ghost predicate Reachable(w: World) {
    exists run :: Exec(Start(w.limit, w.base), run) == Some(w)
  }

  // ---------------------------------------------------------------- accounting

  function Total(ps: seq<Proc>, f: Proc -> nat): nat {
    if ps == [] then 0 else f(ps[0]) + Total(ps[1..], f)
  }

  /** Slots the counter holds on behalf of this request. */
  function Held(p: Proc): nat {
    match p.phase
    case Arrived => 0
    case Correcting(_, _) => 0
    case Closed(_, end) => if end.Charged? || end.Leaked? then Slots(p.req) else 0
    case _ => Slots(p.req)
  }

  /** Slots granted and not given back. */
  function Granted(p: Proc): nat {
    match p.phase
    case Serving(_) => Slots(p.req)
    case Answered(_) => Slots(p.req)
    case Closed(_, end) => if end.Charged? then Slots(p.req) else 0
    case _ => 0
  }

  function InFlight(p: Proc): nat {
    if p.phase.Overdrawn? then Slots(p.req) else 0
  }

  function LeakedSlots(p: Proc): nat {
    if p.phase.Closed? && p.phase.end.Leaked? then Slots(p.req) else 0
  }

  /** Delivery tasks this request has put on the queue. */
  function QueuedBy(p: Proc): nat {
    p.queued
  }

  /** Rows this request has stored, which is what the nightly reconcile counts. */
  function StoredBy(p: Proc): nat {
    p.stored
  }

  /** A single send whose task was queued although it was told otherwise. */
  function LostOnSend(p: Proc): nat {
    if p.req.Send? then p.lost else 0
  }

  lemma {:induction false} TotalUpdate(ps: seq<Proc>, i: nat, p: Proc, f: Proc -> nat)
    requires i < |ps|
    ensures Total(ps[i := p], f) + f(ps[i]) == Total(ps, f) + f(p)
  {
    if i > 0 {
      assert ps[i := p][1..] == ps[1..][i - 1 := p];
      TotalUpdate(ps[1..], i - 1, p, f);
    } else {
      assert ps[i := p][1..] == ps[1..];
    }
  }

  lemma {:induction false} TotalSnoc(ps: seq<Proc>, p: Proc, f: Proc -> nat)
    ensures Total(ps + [p], f) == Total(ps, f) + f(p)
  {
    if ps != [] {
      assert (ps + [p])[1..] == ps[1..] + [p];
      TotalSnoc(ps[1..], p, f);
    }
  }

  lemma {:induction false} TotalAtMost(ps: seq<Proc>, f: Proc -> nat, g: Proc -> nat)
    requires forall p :: p in ps ==> f(p) <= g(p)
    ensures Total(ps, f) <= Total(ps, g)
  {
    if ps != [] {
      TotalAtMost(ps[1..], f, g);
    }
  }

  lemma {:induction false} TotalAtLeastOne(ps: seq<Proc>, i: nat, f: Proc -> nat)
    requires i < |ps|
    ensures f(ps[i]) <= Total(ps, f)
  {
    if i > 0 {
      TotalAtLeastOne(ps[1..], i - 1, f);
    }
  }

  // ---------------------------------------------------------------- the invariant

  /** What every request keeps: its tallies, and what its answer and its end say about them. */
  predicate ProcOk(p: Proc) {
    && p.lost <= p.queued <= p.stored <= Calls(p.req)
    && match p.phase
       case Arrived => p.stored == 0
       case Overdrawn => p.stored == 0
       case Correcting(_, _) => false
       case Serving(left) => left + p.stored <= Calls(p.req) && (p.req.Send? ==> left == Calls(p.req))
       case Answered(status) =>
         && status > 0 && AnswerOk(p, status)
         && (p.req.SendMulti? ==> status == if Calls(p.req) == 0 then 400 else 202)
       case Closed(status, end) =>
         && (status > 0 ==> AnswerOk(p, status))
         && (0 < status < 400 ==> end.Charged?)
         && (p.stored > 0 && !end.Charged? ==> p.req.Send? && status >= 400 && end.Refunded?)
  }

  /** A send is answered with success exactly if its task is known to be queued; send-multi then never fails. */
  predicate AnswerOk(p: Proc, status: nat) {
    if p.req.Send? then p.queued == p.lost + (if status < 400 then 1 else 0)
    else status >= 400 ==> p.stored == 0
  }

  ghost predicate Inv(w: World) {
    && w.counter == w.base + Total(w.procs, Held)
    && (w.base + Total(w.procs, Granted) <= w.limit || Total(w.procs, Granted) == 0)
    && forall p :: p in w.procs ==> ProcOk(p)
  }

  lemma GrantedIsHeld(ps: seq<Proc>)
    ensures Total(ps, Granted) <= Total(ps, Held)
  {
    TotalAtMost(ps, Granted, Held);
  }

  /** A step moves the counter by as much as it moves the slots held by the acting request. */
  lemma CounterFollowsHeld(w: World, a: Action)
    requires Enabled(w, a) && !a.Arrive? && ProcOk(w.procs[a.i]) && Held(w.procs[a.i]) <= w.counter
    ensures NextCounter(w, a) - w.counter == Held(NextProc(w, a)) - Held(w.procs[a.i])
  {
    hide Calls, Slots, ServiceSend, StatusOf, AnswerOk;
  }

  /** Every step of every request keeps the counter equal to the slots held. */
  lemma StepConserves(w: World, a: Action)
    requires Inv(w) && Enabled(w, a)
    ensures Next(w, a).counter == w.base + Total(Next(w, a).procs, Held)
  {
    hide NextProc, NextCounter, ProcOk, Held;
    if a.Arrive? {
      TotalSnoc(w.procs, Newcomer(a.req), Held);
      NewcomerHoldsNothing(a.req);
    } else {
      TotalUpdate(w.procs, a.i, NextProc(w, a), Held);
      TotalAtLeastOne(w.procs, a.i, Held);
      CounterFollowsHeld(w, a);
    }
  }

  lemma NewcomerHoldsNothing(r: Request)
    ensures Held(Newcomer(r)) == 0
  {
  }

  lemma StepKeepsProcs(w: World, a: Action)
    requires Inv(w) && Enabled(w, a)
    ensures forall p :: p in Next(w, a).procs ==> ProcOk(p)
  {
    if !a.Arrive? {
      TotalAtLeastOne(w.procs, a.i, Held);
      assert ProcOk(w.procs[a.i]);
      assert ProcOk(Next(w, a).procs[a.i]);
    }
  }

  lemma StepKeepsLimit(w: World, a: Action)
    requires Inv(w) && Enabled(w, a)
    ensures var g := Total(Next(w, a).procs, Granted); w.base + g <= w.limit || g == 0
  {
    hide Calls, Slots, ServiceSend, StatusOf, AnswerOk;
    if a.Arrive? {
      TotalSnoc(w.procs, Newcomer(a.req), Granted);
    } else {
      TotalUpdate(w.procs, a.i, Next(w, a).procs[a.i], Granted);
      GrantedIsHeld(w.procs);
      assert ProcOk(w.procs[a.i]);
    }
  }

  lemma {:induction false} RunKeepsInv(limit: int, base: nat, run: seq<Action>)
    requires Exec(Start(limit, base), run).Some?
    ensures var w := Exec(Start(limit, base), run).value; Inv(w) && w.limit == limit && w.base == base
    decreases |run|
  {
    if run != [] {
      var init := run[..|run| - 1];
      RunKeepsInv(limit, base, init);
      var w, a := Exec(Start(limit, base), init).value, run[|run| - 1];
      StepConserves(w, a);
      StepKeepsProcs(w, a);
      StepKeepsLimit(w, a);
    }
  }

  lemma ReachableKeepsInv(w: World)
    requires Reachable(w)
    ensures Inv(w)
  {
    var run :| Exec(Start(w.limit, w.base), run) == Some(w);
    RunKeepsInv(w.limit, w.base, run);
  }

  // ---------------------------------------------------------------- theorems

  /** What the counter left to be granted at the start. */
  function Room(w: World): nat {
    if w.base < w.limit then w.limit - w.base else 0
  }

  /** In every interleaving, slots granted and not given back stay within the room there was. */
  lemma GrantsNeverExceedLimit(w: World)
    requires Reachable(w)
    ensures Total(w.procs, Granted) <= Room(w)
  {
    ReachableKeepsInv(w);
  }

  lemma {:induction false} HeldSplits(ps: seq<Proc>)
    ensures Total(ps, Held) == Total(ps, Granted) + Total(ps, InFlight) + Total(ps, LeakedSlots)
  {
    if ps != [] {
      HeldSplits(ps[1..]);
    }
  }

  /**
   The counter is always what it started with plus the net granted slots plus those of reservations being
   undone plus those leaked by lost commands; it is never negative, and no refund ever reaches its
   correction branch.
   */
  lemma CounterIsConserved(w: World)
    requires Reachable(w)
    ensures w.counter ==
            w.base + Total(w.procs, Granted) + Total(w.procs, InFlight) + Total(w.procs, LeakedSlots)
    ensures forall p :: p in w.procs ==> !p.phase.Correcting?
  {
    ReachableKeepsInv(w);
    HeldSplits(w.procs);
    forall p | p in w.procs
      ensures !p.phase.Correcting?
    {
      assert ProcOk(p);
    }
  }

  /** No request is between its two Redis commands and no command has been lost. */
  ghost predicate Quiet(w: World) {
    forall p :: p in w.procs ==> InFlight(p) == 0 && LeakedSlots(p) == 0
  }

  lemma {:induction false} TotalOfZeros(ps: seq<Proc>, f: Proc -> nat)
    requires forall p :: p in ps ==> f(p) == 0
    ensures Total(ps, f) == 0
  {
    if ps != [] {
      TotalOfZeros(ps[1..], f);
    }
  }

  /**
   A reservation that does not overlap another is an atomic check-and-add: it is granted exactly when
   the granted slots leave room for it, and a denied one leaves the counter as it was.
   */
  lemma LoneReserveIsCheckAndAdd(w: World, i: nat)
    requires Reachable(w) && Quiet(w)
    requires i < |w.procs| && w.procs[i].phase.Arrived?
    ensures var n := Slots(w.procs[i].req);
            var after := Next(w, Reserve(i));
            if w.base + Total(w.procs, Granted) + n <= w.limit
            then after.procs[i].phase.Serving? && after.counter == w.counter + n
            else Enabled(after, Rollback(i)) && Next(after, Rollback(i)) ==
                   w.(procs := w.procs[i := w.procs[i].(phase := Closed(429, Denied))])
  {
    CounterIsConserved(w);
    TotalOfZeros(w.procs, InFlight);
    TotalOfZeros(w.procs, LeakedSlots);
    var after := Next(w, Reserve(i));
    if w.base + Total(w.procs, Granted) + Slots(w.procs[i].req) > w.limit {
      assert Next(after, Rollback(i)).procs == w.procs[i := w.procs[i].(phase := Closed(429, Denied))];
    }
  }

  /** With overlap the reservation also counts what others are about to give back, and what was lost. */
  lemma DeniedExactlyWhen(w: World, i: nat)
    requires Reachable(w) && i < |w.procs| && w.procs[i].phase.Arrived?
    ensures Next(w, Reserve(i)).procs[i].phase.Overdrawn? <==>
            w.base + Total(w.procs, Granted) + Total(w.procs, InFlight) + Total(w.procs, LeakedSlots)
            + Slots(w.procs[i].req) > w.limit
  {
    CounterIsConserved(w);
  }

  /**
   So overlapping reservations are not an atomic check-and-add: here nothing has been granted and the
   second request would fit alone, yet it is turned down because the first has not rolled back yet.
   */
  lemma OverlapCanDenyWhatFits()
    ensures exists w: World, i: nat ::
              && Reachable(w) && i < |w.procs| && w.procs[i].phase.Arrived?
              && w.base + Total(w.procs, Granted) + Slots(w.procs[i].req) <= w.limit
              && Next(w, Reserve(i)).procs[i].phase.Overdrawn?
  {
    hide Exec, Total;
    var w := OverlapWorld();
    OverlapIsReachable();
    TotalOfZeros(w.procs, Granted);
    assert Next(w, Reserve(1)).procs[1].phase.Overdrawn?;
  }

  /** Limit one; a request for two slots has just gone over and a request for one is arriving. */
  function OverlapWorld(): World {
    World(1, 0, 2, [Newcomer(SendMulti(Channels(2, true, false))).(phase := Overdrawn), Newcomer(Send(true))])
  }

  lemma OverlapIsReachable()
    ensures Reachable(OverlapWorld())
  {
    hide Exec;
    var big, small := SendMulti(Channels(2, true, false)), Send(true);
    var w0 := Start(1);
    var w1, w2 := w0.(procs := [Newcomer(big)]), w0.(procs := [Newcomer(big), Newcomer(small)]);
    ExecNothing(w0);
    ExecSnoc(w0, [], Arrive(big), w0, w1);
    ExecSnoc(w0, [] + [Arrive(big)], Arrive(small), w1, w2);
    ExecSnoc(w0, [] + [Arrive(big)] + [Arrive(small)], Reserve(0), w2, OverlapWorld());
  }

  lemma ExecNothing(w: World)
    ensures Exec(w, []) == Some(w)
  {
  }

  lemma ExecSnoc(w: World, run: seq<Action>, a: Action, before: World, after: World)
    requires Exec(w, run) == Some(before) && Enabled(before, a) && Next(before, a) == after
    ensures Exec(w, run + [a]) == Some(after)
  {
    assert (run + [a])[..|run|] == run;
  }

  /** The reservation is large enough for whatever the handler may queue, if both read the same list. */
  lemma AgreementCoversCalls(r: Request)
    requires Agree(r)
    ensures Calls(r) <= Slots(r)
  {
  }

  /** Tasks an undercounted request may queue beyond its reservation. */
  function Shortfall(p: Proc): nat {
    if Undercounted(p.req) then p.req.body.count - 1 else 0
  }

  /**
   End to end, from one reconcile to the next: the delivery tasks queued by all requests together exceed
   the room there was by no more than the single sends whose enqueueing was reported as an error and what
   undercounted requests did not reserve. A request answered with 400 or above has queued a task exactly
   if it is one of those sends.
   */
  lemma QueuedTasksNeverExceedLimit(w: World)
    requires Reachable(w)
    ensures Total(w.procs, QueuedBy) <= Room(w) + Total(w.procs, LostOnSend) + Total(w.procs, Shortfall)
    ensures forall p :: p in w.procs && (p.phase.Answered? || p.phase.Closed?) && p.phase.status >= 400 ==>
              (p.queued > 0 <==> LostOnSend(p) > 0)
  {
    ReachableKeepsInv(w);
    forall p | p in w.procs && (p.phase.Answered? || p.phase.Closed?) && p.phase.status >= 400
      ensures p.queued > 0 <==> LostOnSend(p) > 0
    {
      assert ProcOk(p);
    }
    forall p | p in w.procs
      ensures QueuedBy(p) <= Granted(p) + LostOnSend(p) + Shortfall(p)
    {
      assert ProcOk(p);
    }
    TotalAtMostSum(w.procs);
  }

  lemma {:induction false} TotalAtMostSum(ps: seq<Proc>)
    requires forall p :: p in ps ==> QueuedBy(p) <= Granted(p) + LostOnSend(p) + Shortfall(p)
    ensures Total(ps, QueuedBy) <= Total(ps, Granted) + Total(ps, LostOnSend) + Total(ps, Shortfall)
  {
    if ps != [] {
      TotalAtMostSum(ps[1..]);
    }
  }

  /** Every task has its row. */
  lemma QueuedIsStored(w: World)
    requires Reachable(w)
    ensures Total(w.procs, QueuedBy) <= Total(w.procs, StoredBy)
  {
    ReachableKeepsInv(w);
    forall p | p in w.procs
      ensures QueuedBy(p) <= StoredBy(p)
    {
      assert ProcOk(p);
    }
    TotalAtMost(w.procs, QueuedBy, StoredBy);
  }

  /** Nobody pays for nothing: a single send that was answered and kept its slot has queued its one task. */
  lemma AnsweredSendIsCharged(w: World, p: Proc)
    requires Reachable(w) && p in w.procs && p.req.Send? && p.phase.Closed? && 0 < p.phase.status < 400
    ensures p.stored == p.queued == 1 && p.lost == 0 && p.phase.end.Charged?
  {
    ReachableKeepsInv(w);
    assert ProcOk(p);
  }

  /** A send-multi request that got its slots is accepted exactly if it lists 1 to 50 channels that decode. */
  lemma SendMultiIsAnsweredBySize(w: World, p: Proc)
    requires Reachable(w) && p in w.procs && p.req.SendMulti? && p.phase.Answered?
    ensures p.phase.status == 202 || p.phase.status == 400
    ensures p.phase.status == 202 <==>
            var b := p.req.body; b.Channels? && b.decodable && 1 <= b.count <= 50
  {
    ReachableKeepsInv(w);
    assert ProcOk(p);
  }

  // ---------------------------------------------------------------- paying back

  /** What the steps taken for request `i` say about how it stands. */
  predicate Booked(run: seq<Action>, i: nat, ph: Phase) {
    if ph.Closed? then
      && (Crash(i) in run <==> ph.status == 0)
      && (RefundError(i, false) in run <==> ph.status >= 400 && ph.end.Charged?)
      && (RollbackError(i, false) in run || ReserveError(i, true) in run <==> ph.status > 0 && ph.end.Leaked?)
      && (ReserveError(i, true) in run || ReserveError(i, false) in run ==> ph.status == 500)
      && (Rollback(i) in run || RollbackError(i, false) in run || RollbackError(i, true) in run ==> ph.status == 429)
      && (ph.end.Denied? <==> Rollback(i) in run || RollbackError(i, true) in run)
      && (ph.end.Refunded? <==> Refund(i) in run || RefundError(i, true) in run)
    else
      forall a :: a in run && !a.Arrive? && a.i == i ==>
        a.Reserve? || a.Call? || a.Respond? || (a.Refund? && ph.Correcting?)
  }

  lemma {:induction false} RunBooks(limit: int, base: nat, run: seq<Action>, i: nat)
    requires Exec(Start(limit, base), run).Some?
    ensures var w := Exec(Start(limit, base), run).value;
            && (i < |w.procs| ==> Booked(run, i, w.procs[i].phase))
            && (i >= |w.procs| ==> forall a :: a in run && !a.Arrive? ==> a.i != i)
    decreases |run|
  {
    hide ServiceSend, StatusOf, Calls, Slots, Held, NextCounter;
    if run != [] {
      var init, a := run[..|run| - 1], run[|run| - 1];
      RunBooks(limit, base, init, i);
      RunKeepsInv(limit, base, init);
      var w := Exec(Start(limit, base), init).value;
      assert run == init + [a];
      assert forall x :: x in run <==> x in init || x == a;
      BookStep(w, a, init, run, i);
    }
  }

  lemma BookStep(w: World, a: Action, init: seq<Action>, run: seq<Action>, i: nat)
    requires Inv(w) && Enabled(w, a) && run == init + [a]
    requires i < |w.procs| ==> Booked(init, i, w.procs[i].phase)
    requires i >= |w.procs| ==> forall x :: x in init && !x.Arrive? ==> x.i != i
    ensures i < |Next(w, a).procs| ==> Booked(run, i, Next(w, a).procs[i].phase)
    ensures i >= |Next(w, a).procs| ==> forall x :: x in run && !x.Arrive? ==> x.i != i
  {
    hide NextProc, NextCounter, Booked, Inv;
    assert a in run && forall x :: x in run <==> x in init || x == a;
    if !a.Arrive? && a.i == i {
      BookOwn(w, a, init, run);
    } else if i < |w.procs| {
      BookOther(w.procs[i].phase, a, init, run, i);
    } else {
      BookNew(run, i);
    }
  }

  lemma BookNew(run: seq<Action>, i: nat)
    ensures (forall x :: x in run && !x.Arrive? ==> x.i != i) ==> Booked(run, i, Arrived)
  {
  }

  lemma BookOther(ph: Phase, a: Action, init: seq<Action>, run: seq<Action>, i: nat)
    requires Booked(init, i, ph) && (a.Arrive? || a.i != i)
    requires forall x :: x in run <==> x in init || x == a
    ensures Booked(run, i, ph)
  {
  }

  /** What the step that brings a request to this phase must have been. */
  predicate BroughtBy(a: Action, ph: Phase)
    requires !a.Arrive?
  {
    if ph.Closed? then
      && (a.Crash? <==> ph.status == 0)
      && (a == RefundError(a.i, false) <==> ph.status >= 400 && ph.end.Charged?)
      && (a == RollbackError(a.i, false) || a == ReserveError(a.i, true) <==> ph.status > 0 && ph.end.Leaked?)
      && (a.ReserveError? ==> ph.status == 500)
      && (a.Rollback? || a.RollbackError? ==> ph.status == 429)
      && (ph.end.Denied? <==> a.Rollback? || a == RollbackError(a.i, true))
      && (ph.end.Refunded? <==> a.Refund? || a == RefundError(a.i, true) || a.Correct?)
    else a.Reserve? || a.Call? || a.Respond? || (a.Refund? && ph.Correcting?)
  }

  lemma StepBrings(w: World, a: Action)
    requires Inv(w) && Enabled(w, a) && !a.Arrive?
    ensures BroughtBy(a, NextProc(w, a).phase) && !w.procs[a.i].phase.Correcting? && !a.Correct?
  {
    hide ServiceSend, StatusOf, Calls, Slots, NextCounter, Total;
    assert ProcOk(w.procs[a.i]);
  }

  /** Whether a request has taken one of the steps that decide about its slots. */
  predicate Took(run: seq<Action>, a: Action) {
    a in run
  }

  lemma TookNow(init: seq<Action>, run: seq<Action>, a: Action)
    requires !a.Arrive? && a in run && forall x :: x in run <==> x in init || x == a
    requires forall x :: x in init && !x.Arrive? && x.i == a.i ==> x.Reserve? || x.Call? || x.Respond?
    ensures forall x: Action :: !x.Arrive? && x.i == a.i && !x.Reserve? && !x.Call? && !x.Respond? ==>
              (Took(run, x) <==> x == a)
    ensures forall x :: x in run && !x.Arrive? && x.i == a.i && x != a ==> x.Reserve? || x.Call? || x.Respond?
  {
  }

  lemma BookOwn(w: World, a: Action, init: seq<Action>, run: seq<Action>)
    requires Inv(w) && Enabled(w, a) && !a.Arrive? && Booked(init, a.i, w.procs[a.i].phase)
    requires a in run && forall x :: x in run <==> x in init || x == a
    ensures Booked(run, a.i, NextProc(w, a).phase)
  {
    StepBrings(w, a);
    TookNow(init, run, a);
    BookFrom(a, run, NextProc(w, a).phase);
  }

  lemma BookFrom(a: Action, run: seq<Action>, ph: Phase)
    requires !a.Arrive? && BroughtBy(a, ph) && !a.Correct?
    requires forall x: Action :: !x.Arrive? && x.i == a.i && !x.Reserve? && !x.Call? && !x.Respond? ==>
               (Took(run, x) <==> x == a)
    requires forall x :: x in run && !x.Arrive? && x.i == a.i && x != a ==> x.Reserve? || x.Call? || x.Respond?
    ensures Booked(run, a.i, ph)
  {
    var i := a.i;
    assert Took(run, Crash(i)) <==> a == Crash(i);
    assert Took(run, RefundError(i, false)) <==> a == RefundError(i, false);
    assert Took(run, RefundError(i, true)) <==> a == RefundError(i, true);
    assert Took(run, RollbackError(i, false)) <==> a == RollbackError(i, false);
    assert Took(run, RollbackError(i, true)) <==> a == RollbackError(i, true);
    assert Took(run, ReserveError(i, false)) <==> a == ReserveError(i, false);
    assert Took(run, ReserveError(i, true)) <==> a == ReserveError(i, true);
    assert Took(run, Rollback(i)) <==> a == Rollback(i);
    assert Took(run, Refund(i)) <==> a == Refund(i);
  }

  /**
   Who keeps slots after a refusal. A request closed with a status of 400 or above is still charged exactly
   if its refund was lost, and still counted unasked exactly if its rollback was lost or its reservation
   was reported as failed; any other holds nothing. A reservation that failed is answered 500, one over the
   limit 429.
   */
  lemma RefusedRequestsArePaidBack(limit: int, base: nat, run: seq<Action>, i: nat)
    requires Exec(Start(limit, base), run).Some?
    requires var w := Exec(Start(limit, base), run).value;
             i < |w.procs| && w.procs[i].phase.Closed? && w.procs[i].phase.status >= 400
    ensures var p := Exec(Start(limit, base), run).value.procs[i];
            && (p.phase.end.Charged? <==> RefundError(i, false) in run)
            && (p.phase.end.Leaked? <==> RollbackError(i, false) in run || ReserveError(i, true) in run)
            && (Held(p) == if p.phase.end.Charged? || p.phase.end.Leaked? then Slots(p.req) else 0)
            && (p.phase.end.Refunded? <==> Refund(i) in run || RefundError(i, true) in run)
            && (p.phase.end.Denied? <==> Rollback(i) in run || RollbackError(i, true) in run)
            && (ReserveError(i, true) in run || ReserveError(i, false) in run ==> p.phase.status == 500)
            && (Rollback(i) in run || RollbackError(i, false) in run || RollbackError(i, true) in run ==>
                  p.phase.status == 429)
  {
    RunBooks(limit, base, run, i);
  }

  // ---------------------------------------------------------------- true tallies

  /** The calls made for request `i` in a run whose conditions satisfy `f`. */
  function CountCalls(run: seq<Action>, i: nat, f: Conditions -> bool): nat {
    if run == [] then 0
    else
      var a := run[|run| - 1];
      CountCalls(run[..|run| - 1], i, f) + if a.Call? && a.i == i && f(a.c) then 1 else 0
  }

  /** The row is inserted, the task queued, and the task queued although the caller was told otherwise. */
  predicate Stores(c: Conditions) {
    Permitted(c) && !c.row.Refused?
  }

  predicate Queues(c: Conditions) {
    Permitted(c) && c.row.Accepted? && c.taskBuilt && !c.enqueue.Refused?
  }

  predicate Misreports(c: Conditions) {
    Queues(c) && c.enqueue.Lost?
  }

  ghost predicate Tallied(run: seq<Action>, i: nat, p: Proc) {
    && p.stored == CountCalls(run, i, Stores) && p.queued == CountCalls(run, i, Queues)
    && p.lost == CountCalls(run, i, Misreports)
  }

  lemma {:induction false} NoCallsBefore(run: seq<Action>, i: nat, f: Conditions -> bool)
    requires forall a :: a in run && !a.Arrive? ==> a.i != i
    ensures CountCalls(run, i, f) == 0
    decreases |run|
  {
    if run != [] {
      NoCallsBefore(run[..|run| - 1], i, f);
    }
  }

  /** Over every run, the tallies of rows and tasks are those of the calls that brought them about. */
  lemma {:induction false} TalliesAreTrue(limit: int, base: nat, run: seq<Action>, i: nat)
    requires Exec(Start(limit, base), run).Some? && i < |Exec(Start(limit, base), run).value.procs|
    ensures Tallied(run, i, Exec(Start(limit, base), run).value.procs[i])
    decreases |run|
  {
    hide NextPhase, NextCounter, Booked, Permitted, ServiceSend;
    var init, a := run[..|run| - 1], run[|run| - 1];
    var w := Exec(Start(limit, base), init).value;
    RunBooks(limit, base, init, i);
    if i < |w.procs| {
      TalliesAreTrue(limit, base, init, i);
    } else {
      NoCallsBefore(init, i, Stores);
      NoCallsBefore(init, i, Queues);
      NoCallsBefore(init, i, Misreports);
    }
  }

  /** No request gets stuck: until it is closed it has a next step, without any command failing. */
  lemma NeverStuck(w: World, i: nat)
    requires i < |w.procs| && !w.procs[i].phase.Closed?
    ensures exists a :: Enabled(w, a) && !a.Arrive? && a.i == i && !a.Crash? && !a.TurnAway?
                     && !a.ReserveError? && !a.RollbackError? && !a.RefundError?
  {
    var a := match w.procs[i].phase
      case Arrived => Reserve(i)
      case Overdrawn => Rollback(i)
      case Serving(left) => if left > 0 then Call(i, ALL_WELL) else Respond(i)
      case Answered(status) => if status < 400 then Finish(i) else Refund(i)
      case Correcting(_, _) => Correct(i)
      case Closed(_, _) => Crash(i);
    assert Enabled(w, a) && !a.Arrive? && a.i == i;
  }

  // ---------------------------------------------------------------- the conditions are exact

  /** One more single send, served from arrival to end while there is room; its reply may get lost. */
  lemma SendRun(w0: World, run: seq<Action>, w: World, lost: bool) returns (run': seq<Action>)
    requires Exec(w0, run) == Some(w) && 0 <= w.counter < w.limit
    ensures Exec(w0, run') ==
            Some(w.(counter := w.counter + if lost then 0 else 1, procs := w.procs + [Served(lost)]))
  {
    hide Exec;
    var i, p := |w.procs|, Newcomer(Send(true));
    var serving := p.(phase := Serving(1));
    var answered := Proc(p.req, Answered(if lost then 500 else 202), 1, 1, if lost then 1 else 0);
    var call, last := Call(i, if lost then REPLY_LOST else ALL_WELL), if lost then Refund(i) else Finish(i);
    var w1 := w.(procs := w.procs + [p]);
    var w2 := w.(counter := w.counter + 1, procs := w.procs + [serving]);
    var w3 := w.(counter := w.counter + 1, procs := w.procs + [answered]);
    var w4 := w.(counter := w.counter + if lost then 0 else 1, procs := w.procs + [Served(lost)]);
    ExecSnoc(w0, run, Arrive(p.req), w, w1);
    assert Next(w1, Reserve(i)).procs == w2.procs;
    ExecSnoc(w0, run + [Arrive(p.req)], Reserve(i), w1, w2);
    assert Next(w2, call).procs == w3.procs;
    ExecSnoc(w0, run + [Arrive(p.req)] + [Reserve(i)], call, w2, w3);
    assert Next(w3, last).procs == w4.procs;
    run' := run + [Arrive(p.req)] + [Reserve(i)] + [call] + [last];
    ExecSnoc(w0, run + [Arrive(p.req)] + [Reserve(i)] + [call], last, w3, w4);
  }

  /** A single send that has queued its task, and was refunded if the reply was lost. */
  function Served(lost: bool): Proc {
    Proc(Send(true), Closed(if lost then 500 else 202, if lost then Refunded else Charged), 1, 1, if lost then 1 else 0)
  }

  /** `lost` sends that were refunded although their tasks were queued, then `paid` ordinary ones. */
  lemma {:induction false} OverrunRun(limit: nat, base: nat, lost: nat, paid: nat)
    returns (run: seq<Action>, w: World)
    requires base + paid <= limit && (lost > 0 ==> base < limit)
    ensures Exec(Start(limit, base), run) == Some(w) && w.limit == limit && w.base == base && w.counter == base + paid
    ensures Total(w.procs, QueuedBy) == Total(w.procs, StoredBy) == lost + paid
    ensures Total(w.procs, LostOnSend) == lost
    ensures forall p :: p in w.procs ==> p.req == Send(true) && p.phase.Closed?
    decreases lost + paid
  {
    hide Exec;
    if lost + paid == 0 {
      ExecNothing(Start(limit, base));
      run, w := [], Start(limit, base);
    } else {
      var lost', paid' := if paid > 0 then lost else lost - 1, if paid > 0 then paid - 1 else 0;
      var init, before := OverrunRun(limit, base, lost', paid');
      var p := Served(paid == 0);
      run := SendRun(Start(limit, base), init, before, paid == 0);
      w := World(limit, base, base + paid, before.procs + [p]);
      TotalSnoc(before.procs, p, QueuedBy);
      TotalSnoc(before.procs, p, StoredBy);
      TotalSnoc(before.procs, p, LostOnSend);
    }
  }

  /** A lost reply costs a slot: one such send at limit one, and two tasks are on the queue. */
  lemma LostReplyOverruns()
    ensures exists w: World, p :: Reachable(w) && w.limit == 1 && w.base == 0 && Total(w.procs, QueuedBy) == 2
                               && p in w.procs && p.phase == Closed(500, Refunded) && p.queued == 1
  {
    hide Exec;
    ExecNothing(Start(1));
    var run := SendRun(Start(1), [], Start(1), true);
    var w := Start(1).(procs := [Served(true)]);
    assert Start(1).procs + [Served(true)] == w.procs;
    var run' := SendRun(Start(1), run, w, false);
    var w' := Start(1).(counter := 1, procs := [Served(true), Served(false)]);
    assert w.procs + [Served(false)] == w'.procs;
    assert Reachable(w') && Served(true) in w'.procs;
    TotalSnoc([], Served(true), QueuedBy);
    TotalSnoc([] + [Served(true)], Served(false), QueuedBy);
  }

  /**
   Two to fifty decodable channels, and more bytes after the JSON object: the middleware rejects the
   body and reserves one slot, and the handler reads the object and makes every call.
   */
  predicate Undercounted(r: Request) {
    r.SendMulti? && r.body.Channels? && r.body.decodable && r.body.trailing && 2 <= r.body.count <= 50
  }

  lemma UndercountedExactlyWhen(r: Request)
    ensures Undercounted(r) <==> Calls(r) > Slots(r)
  {
  }

  /** An undercounted request on top of a world with room, after its first `done` calls. */
  function Calling(w: World, r: Request, done: nat): World
    requires done <= Calls(r)
  {
    w.(counter := w.counter + 1, procs := w.procs + [Proc(r, Serving(Calls(r) - done), done, done, 0)])
  }

  lemma {:induction false} CallingRun(w0: World, run: seq<Action>, w: World, r: Request, done: nat)
    returns (run': seq<Action>)
    requires Exec(w0, run) == Some(w) && 0 <= w.counter < w.limit && Undercounted(r) && done <= Calls(r)
    ensures Exec(w0, run') == Some(Calling(w, r, done))
    decreases done
  {
    hide Exec;
    var i := |w.procs|;
    if done == 0 {
      var w1 := w.(procs := w.procs + [Newcomer(r)]);
      ExecSnoc(w0, run, Arrive(r), w, w1);
      assert Next(w1, Reserve(i)).procs == Calling(w, r, 0).procs;
      ExecSnoc(w0, run + [Arrive(r)], Reserve(i), w1, Calling(w, r, 0));
      run' := run + [Arrive(r)] + [Reserve(i)];
    } else {
      var init := CallingRun(w0, run, w, r, done - 1);
      assert Next(Calling(w, r, done - 1), Call(i, ALL_WELL)).procs == Calling(w, r, done).procs;
      ExecSnoc(w0, init, Call(i, ALL_WELL), Calling(w, r, done - 1), Calling(w, r, done));
      run' := init + [Call(i, ALL_WELL)];
    }
  }

  /** `copies` of an undercounted request, which queue all their tasks and pay one slot each. */
  lemma {:induction false} UndercountedRun(limit: nat, r: Request, copies: nat) returns (run: seq<Action>, w: World)
    requires Undercounted(r) && copies <= limit
    ensures Exec(Start(limit), run) == Some(w) && w.limit == limit && w.base == 0 && w.counter == copies
    ensures Total(w.procs, QueuedBy) == copies * Calls(r)
    ensures forall p :: p in w.procs ==> p.req == r
    decreases copies
  {
    hide Exec, Undercounted, Calls, Next;
    if copies == 0 {
      ExecNothing(Start(limit));
      run, w := [], Start(limit);
    } else {
      var init, before := UndercountedRun(limit, r, copies - 1);
      run := CallingRun(Start(limit), init, before, r, Calls(r));
      w := Calling(before, r, Calls(r));
      TotalSnoc(before.procs, Proc(r, Serving(0), Calls(r), Calls(r), 0), QueuedBy);
      assert copies * Calls(r) == (copies - 1) * Calls(r) + Calls(r);
    }
  }

  /**
   The condition on the body is exact at every limit: copies of a send-multi request stay within it in
   every world they reach if and only if the body is not of that kind.
   */
  lemma CoverageIsNecessary(limit: nat, r: Request)
    requires r.SendMulti? && limit >= 1
    ensures !Undercounted(r) <==> forall w: World :: Uniform(w, limit, r) ==> Total(w.procs, QueuedBy) <= limit
  {
    hide Exec, Calls, Slots, Undercounted;
    UndercountedExactlyWhen(r);
    if !Undercounted(r) {
      forall w: World | Uniform(w, limit, r)
        ensures Total(w.procs, QueuedBy) <= limit
      {
        QueuedTasksNeverExceedLimit(w);
        TotalOfZeros(w.procs, LostOnSend);
        TotalOfZeros(w.procs, Shortfall);
      }
    } else {
      var run, w := UndercountedRun(limit, r, limit);
      assert Uniform(w, limit, r);
      assert limit * Calls(r) >= limit * 2;
    }
  }

  /** A world of a new period in which all requests are alike. */
  ghost predicate Uniform(w: World, limit: int, r: Request) {
    Reachable(w) && w.limit == limit && w.base == 0 && forall p :: p in w.procs ==> p.req == r
  }

  // ---------------------------------------------------------------- against the stored rows

  /** Rows left behind by a request that does not pay for them, and slots paid for without a row. */
  function Recharged(p: Proc): nat {
    if Granted(p) == 0 then p.stored else 0
  }

  function Forgotten(p: Proc): nat {
    if Granted(p) > p.stored then Granted(p) - p.stored else 0
  }

  /**
   What counting the stored rows does to the granted slots. It adds a slot for each single send that
   failed after storing its row and was refunded, and takes away those of send-multi calls, unrefunded
   failures and crashed requests that stored none; so it is exact if and only if these balance.
   */
  lemma ReconcileDrift(w: World)
    requires Reachable(w) && forall p :: p in w.procs ==> !Undercounted(p.req)
    ensures Total(w.procs, StoredBy) + Total(w.procs, Forgotten) == Total(w.procs, Granted) + Total(w.procs, Recharged)
    ensures forall p :: p in w.procs && Recharged(p) > 0 ==>
              p.req.Send? && p.stored == 1 && p.phase.Closed? && p.phase.status >= 400 && p.phase.end.Refunded?
    ensures forall p :: p in w.procs && p.phase.Closed? && Forgotten(p) > 0 ==>
              p.req.SendMulti? || p.phase.status >= 400 || p.phase.status == 0
  {
    hide Exec, Total, Undercounted, Calls, Slots;
    ReachableKeepsInv(w);
    forall p | p in w.procs
      ensures ProcOk(p) && p.stored <= Slots(p.req)
    {
      UndercountedExactlyWhen(p.req);
    }
    RowsBalance(w.procs);
    SendCallsOnce();
  }

  lemma SendCallsOnce()
    ensures forall r: Request :: r.Send? ==> Calls(r) <= 1 == Slots(r)
  {
  }

  lemma {:induction false} RowsBalance(ps: seq<Proc>)
    requires forall p :: p in ps ==> p.stored <= Slots(p.req)
    ensures Total(ps, StoredBy) + Total(ps, Forgotten) == Total(ps, Granted) + Total(ps, Recharged)
  {
    if ps != [] {
      RowsBalance(ps[1..]);
    }
  }
}
