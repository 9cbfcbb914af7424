/**
 Status events: how one terminal transition fans out to the tenant's endpoints, how events and queue
 tasks are named, and what a receiver sees when workers crash and tasks are delivered again.

 Identifiers are kept in their canonical 36-character text form. The name-based hash behind
 `uuid.NewSHA1` is a parameter; where its freedom from collisions matters, it is assumed only of the
 names that were actually hashed.
 */
module Emission {
  import opened Common
  import opened Delivery

  type Uuid = s: string | |s| == 36 witness seq(36, i => '0')

  type Hash = string -> Uuid

  function KindName(kind: EventKind): string {
    match kind
    case NotificationDelivered => "notification.delivered"
    case NotificationFailed => "notification.failed"
  }

  function StatusName(kind: EventKind): string {
    match kind
    case NotificationDelivered => "delivered"
    case NotificationFailed => "failed"
  }

  // ---------------------------------------------------------------- endpoints

  datatype Endpoint = Endpoint(id: Uuid, tenant: Uuid, events: seq<string>, active: bool)

  predicate SubscribesTo(e: Endpoint, kind: EventKind) {
    e.active && KindName(kind) in e.events
  }

  /** Postgres's `@>` on text arrays. */
  predicate Contains(column: seq<string>, wanted: seq<string>) {
    forall x :: x in wanted ==> x in column
  }

  /** The WHERE clause of `ListActiveByTenantAndEvent`. */
  predicate Selected(e: Endpoint, tenant: Uuid, kind: EventKind) {
    e.tenant == tenant && e.active && Contains(e.events, [KindName(kind)])
  }

  /** The rows a query may return, in any order. */
  ghost predicate IsResult(rows: seq<Endpoint>, table: set<Endpoint>, tenant: Uuid, kind: EventKind) {
    && (forall i, j :: 0 <= i < j < |rows| ==> rows[i] != rows[j])
    && (forall e :: e in rows <==> e in table && Selected(e, tenant, kind))
  }

  /** `id` is the table's primary key. */
  ghost predicate UniqueIds(table: set<Endpoint>) {
    forall e, f :: e in table && f in table && e.id == f.id ==> e == f
  }

  // ---------------------------------------------------------------- payloads and names

  datatype Notice = Notice(tenant: Uuid, notification: Uuid,
    channelConfig: Uuid, channel: string, metadata: Option<string>)

  datatype EventTask = EventTask(
    endpoint: Uuid, eventId: string, kind: EventKind, notification: Uuid,
    channelConfig: Uuid, channel: string, status: string, attempts: nat, metadata: string)

  function HashedName(notification: Uuid, kind: EventKind): string {
    notification + ":" + KindName(kind)
  }

  function EventId(h: Hash, notification: Uuid, kind: EventKind): string {
    "evt_" + h(HashedName(notification, kind))
  }

  function BuildTask(h: Hash, endpoint: Uuid, n: Notice, e: Event): EventTask {
    EventTask(endpoint, EventId(h, n.notification, e.kind), e.kind, n.notification,
              n.channelConfig, n.channel, StatusName(e.kind), e.attempts,
              if n.metadata.None? then "{}" else n.metadata.value)
  }

  function TaskId(t: EventTask): string {
    "webhookevent:" + t.eventId + ":" + t.endpoint
  }

  function Fanout(h: Hash, rows: seq<Endpoint>, n: Notice, e: Event): (ts: seq<EventTask>)
    ensures |ts| == |rows|
    ensures forall i :: 0 <= i < |rows| ==> ts[i] == BuildTask(h, rows[i].id, n, e)
  {
    seq(|rows|, i requires 0 <= i < |rows| => BuildTask(h, rows[i].id, n, e))
  }

  // ---------------------------------------------------------------- Emit

  class Emitter {
    const h: Hash
    var attempted: seq<EventTask>

    constructor (h: Hash)
      ensures this.h == h && attempted == []
    {
      this.h, attempted := h, [];
    }

    /**
     `listed` is the endpoint query's answer and `reply(i)` the queue's answer to the i-th enqueue.
     Every endpoint is tried whatever fails, and the first failure is what the caller sees.
     */
    method Emit(n: Notice, e: Event, listed: Option<seq<Endpoint>>, reply: nat -> Option<string>)
      returns (failed: bool, err: Option<string>)
      modifies this
      ensures listed.None? ==> failed && attempted == old(attempted)
      ensures listed.Some? ==> attempted == old(attempted) + Fanout(h, listed.value, n, e)
      ensures listed.Some? ==> (failed <==> err.Some?)
      ensures listed.Some? && err.None? ==> forall i :: 0 <= i < |listed.value| ==> reply(i).None?
      ensures listed.Some? && err.Some? ==>
                exists i :: 0 <= i < |listed.value| && reply(i) == err && forall j :: 0 <= j < i ==> reply(j).None?
    {
      err := None;
      if listed.None? {
        return true, None;
      }
      var rows := listed.value;
      for i := 0 to |rows|
        invariant attempted == old(attempted) + Fanout(h, rows, n, e)[..i]
        invariant err.None? ==> forall k :: 0 <= k < i ==> reply(k).None?
        invariant err.Some? ==> exists k :: 0 <= k < i && reply(k) == err && forall j :: 0 <= j < k ==> reply(j).None?
      {
        attempted := attempted + [BuildTask(h, rows[i].id, n, e)];
        assert Fanout(h, rows, n, e)[..i + 1] == Fanout(h, rows, n, e)[..i] + [BuildTask(h, rows[i].id, n, e)];
        if reply(i).Some? && err.None? {
          err := reply(i);
        }
      }
      assert Fanout(h, rows, n, e)[..|rows|] == Fanout(h, rows, n, e);
      failed := err.Some?;
    }
  }

  /**
   The containment query agrees with filtering by `SubscribesTo`, so an endpoint of the table is sent
   exactly one task if it belongs to the tenant and subscribes to the event, and none otherwise.
   */
  lemma EmitReachesExactlySubscribers(h: Hash, table: set<Endpoint>, rows: seq<Endpoint>,
                                      n: Notice, e: Event, ep: Endpoint)
    requires UniqueIds(table) && ep in table && IsResult(rows, table, n.tenant, e.kind)
    ensures var ts := Fanout(h, rows, n, e);
            if ep.tenant == n.tenant && SubscribesTo(ep, e.kind)
            then exists i :: 0 <= i < |ts| && ts[i].endpoint == ep.id
                   && forall j :: 0 <= j < |ts| && ts[j].endpoint == ep.id ==> j == i
            else forall j :: 0 <= j < |ts| ==> ts[j].endpoint != ep.id
    ensures SubscribesTo(ep, e.kind) <==>
            && ep.active
            && (e.kind == NotificationDelivered ==> "notification.delivered" in ep.events)
            && (e.kind == NotificationFailed ==> "notification.failed" in ep.events)
  {
    var ts := Fanout(h, rows, n, e);
    assert KindName(e.kind) in [KindName(e.kind)];
    assert Selected(ep, n.tenant, e.kind) <==> ep.tenant == n.tenant && SubscribesTo(ep, e.kind);
    forall j | 0 <= j < |ts| && ts[j].endpoint == ep.id
      ensures rows[j] == ep && ep in rows
    {
      assert rows[j] in rows;
    }
    if ep in rows {
      var i :| 0 <= i < |rows| && rows[i] == ep;
      assert ts[i].endpoint == ep.id;
      forall j | 0 <= j < |ts| && ts[j].endpoint == ep.id
        ensures j == i
      {
        assert rows[j] == ep;
      }
    }
  }

  // ---------------------------------------------------------------- identity

  lemma SplitFixed(a: string, b: string, c: string, d: string)
    requires |a| == |c|
    ensures a + b == c + d <==> a == c && b == d
  {
    if a + b == c + d {
      assert a == (a + b)[..|a|] && b == (a + b)[|a|..];
      assert c == (c + d)[..|c|] && d == (c + d)[|c|..];
    }
  }

  lemma HashedNameIsInjective(n: Uuid, k: EventKind, n': Uuid, k': EventKind)
    ensures HashedName(n, k) == HashedName(n', k') <==> n == n' && k == k'
  {
    SplitFixed(n + ":", KindName(k), n' + ":", KindName(k'));
    SplitFixed(n, ":", n', ":");
    assert |KindName(NotificationDelivered)| != |KindName(NotificationFailed)|;
  }

  /** Queue task ids collide exactly when the event and the endpoint both coincide. */
  lemma TaskIdsCollideExactly(s: EventTask, t: EventTask)
    requires |s.eventId| == |t.eventId| == 40
    ensures TaskId(s) == TaskId(t) <==> s.eventId == t.eventId && s.endpoint == t.endpoint
  {
    var p := "webhookevent:";
    SplitFixed(p + s.eventId + ":", s.endpoint, p + t.eventId + ":", t.endpoint);
    SplitFixed(p + s.eventId, ":", p + t.eventId, ":");
    SplitFixed(p, s.eventId, p, t.eventId);
  }

  ghost predicate NoCollision(h: Hash, names: set<string>) {
    forall x, y :: x in names && y in names && h(x) == h(y) ==> x == y
  }

  // ---------------------------------------------------------------- crashes and redelivery

  /**
   One execution of an attempt, possibly cut short: `rows` are the endpoints the query returns if the
   attempt gets that far, and only the first `cut` steps happen before the worker dies. The last step of
   an attempt tells the queue how it ended. `refused` holds the numbers of the steps that the queue refuses.
   */
  datatype Execution = Execution(
    task: Task, retried: nat, outcome: Outcome, notice: Notice, rows: seq<Endpoint>, cut: nat, refused: set<nat> := {})

  datatype Step = Db(op: Op) | Enqueue(t: EventTask) | Acknowledge

  /** The operations of an attempt, with each emission spread into its separate enqueues. */
  function Steps(h: Hash, n: Notice, rows: seq<Endpoint>, ops: seq<Op>): seq<Step> {
    if ops == [] then [] else Steps(h, n, rows, ops[..|ops| - 1]) + StepsOf(h, n, rows, ops[|ops| - 1])
  }

  function StepsOf(h: Hash, n: Notice, rows: seq<Endpoint>, op: Op): seq<Step> {
    if op.Emit? then EnqueueSteps(Fanout(h, rows, n, op.event)) else [Db(op)]
  }

  function EnqueueSteps(ts: seq<EventTask>): seq<Step> {
    seq(|ts|, i requires 0 <= i < |ts| => Enqueue(ts[i]))
  }

  function Cut(steps: seq<Step>, cut: nat): seq<Step> {
    if cut < |steps| then steps[..cut] else steps
  }

  function Planned(h: Hash, x: Execution): seq<Step> {
    Steps(h, x.notice, x.rows, AttemptOps(x.task, x.retried, x.outcome))
  }

  function Performed(h: Hash, x: Execution): seq<Step> {
    Cut(Planned(h, x) + [Acknowledge], x.cut)
  }

  /** A task that some execution of the history put on the queue. */
  ghost predicate Queued(h: Hash, history: seq<Execution>, t: EventTask) {
    exists x, j: nat :: x in history && Places(h, x, j, t)
  }

  /** Step `j` was performed, and the queue accepted the task. */
  predicate Places(h: Hash, x: Execution, j: nat, t: EventTask) {
    j < |Performed(h, x)| && Performed(h, x)[j] == Enqueue(t) && j !in x.refused
  }

  /** The task reports on the notification it was built from. */
  ghost predicate Carries(t: EventTask, n: Notice) {
    && t.notification == n.notification && t.channelConfig == n.channelConfig && t.channel == n.channel
    && t.metadata == match n.metadata case None => "{}" case Some(m) => m
  }

  /** Every event id is a function of the notification and the event kind alone. */
  ghost predicate Named(h: Hash, t: EventTask) {
    t.eventId == EventId(h, t.notification, t.kind) && t.status == StatusName(t.kind)
  }

  lemma {:induction false} StepsAreNamed(h: Hash, n: Notice, rows: seq<Endpoint>, ops: seq<Op>, t: EventTask)
    requires Enqueue(t) in Steps(h, n, rows, ops)
    ensures Named(h, t) && t.notification == n.notification
    decreases |ops|
  {
    if Enqueue(t) in Steps(h, n, rows, ops[..|ops| - 1]) {
      StepsAreNamed(h, n, rows, ops[..|ops| - 1], t);
    }
  }

  /** Named tasks coincide in event id, and in queue slot, exactly when they should. */
  lemma NamedTasksCoincideExactly(h: Hash, s: EventTask, t: EventTask)
    requires Named(h, s) && Named(h, t)
    requires NoCollision(h, {HashedName(s.notification, s.kind), HashedName(t.notification, t.kind)})
    ensures s.eventId == t.eventId <==> s.notification == t.notification && s.kind == t.kind
    ensures TaskId(s) == TaskId(t) <==> s.notification == t.notification && s.kind == t.kind && s.endpoint == t.endpoint
  {
    HashedNameIsInjective(s.notification, s.kind, t.notification, t.kind);
    SplitFixed("evt_", h(HashedName(s.notification, s.kind)), "evt_", h(HashedName(t.notification, t.kind)));
    TaskIdsCollideExactly(s, t);
  }

  /**
   Re-emission is stable: over every history of crashes and redeliveries, two queued tasks carry the
   same event id if and only if they report the same kind of event for the same notification, and
   they contend for one queue slot if and only if they also go to the same endpoint.
   */
  lemma ReemissionKeepsIdentity(h: Hash, history: seq<Execution>, s: EventTask, t: EventTask)
    requires Queued(h, history, s) && Queued(h, history, t)
    requires NoCollision(h, {HashedName(s.notification, s.kind), HashedName(t.notification, t.kind)})
    ensures s.eventId == t.eventId <==> s.notification == t.notification && s.kind == t.kind
    ensures TaskId(s) == TaskId(t) <==> s.notification == t.notification && s.kind == t.kind && s.endpoint == t.endpoint
  {
    QueuedIsNamed(h, history, s);
    QueuedIsNamed(h, history, t);
    NamedTasksCoincideExactly(h, s, t);
  }

  lemma PlacedIsPlanned(h: Hash, x: Execution, j: nat, t: EventTask)
    requires Places(h, x, j, t)
    ensures Enqueue(t) in Planned(h, x)
  {
    hide Planned;
    assert (Planned(h, x) + [Acknowledge])[j] == Enqueue(t);
  }

  lemma QueuedIsNamed(h: Hash, history: seq<Execution>, t: EventTask)
    requires Queued(h, history, t)
    ensures Named(h, t)
  {
    hide Places, Steps, AttemptOps;
    var x, j: nat :| x in history && Places(h, x, j, t);
    PlacedIsPlanned(h, x, j, t);
    StepsAreNamed(h, x.notice, x.rows, AttemptOps(x.task, x.retried, x.outcome), t);
  }

  /** A receiver that drops every message whose event id it has already seen. */
  function Dedup(msgs: seq<EventTask>): seq<EventTask> {
    if msgs == [] then []
    else
      var kept := Dedup(msgs[..|msgs| - 1]);
      var m := msgs[|msgs| - 1];
      if exists k :: k in kept && k.eventId == m.eventId then kept else kept + [m]
  }

  lemma {:induction false} DedupIsDistinct(msgs: seq<EventTask>)
    ensures forall i, j :: 0 <= i < j < |Dedup(msgs)| ==> Dedup(msgs)[i].eventId != Dedup(msgs)[j].eventId
    ensures forall m :: m in Dedup(msgs) ==> m in msgs
    decreases |msgs|
  {
    if msgs != [] {
      DedupIsDistinct(msgs[..|msgs| - 1]);
    }
  }

  lemma {:induction false} DedupCovers(msgs: seq<EventTask>, m: EventTask) returns (k: EventTask)
    requires m in msgs
    ensures k in Dedup(msgs) && k.eventId == m.eventId
    decreases |msgs|
  {
    var init, last := msgs[..|msgs| - 1], msgs[|msgs| - 1];
    var kept := Dedup(init);
    if m in init {
      k := DedupCovers(init, m);
    } else if k' :| k' in kept && k'.eventId == last.eventId {
      k := k';
    } else {
      k := last;
    }
  }

  ghost function NamesOf(msgs: seq<EventTask>): set<string> {
    set m | m in msgs :: HashedName(m.notification, m.kind)
  }

  /**
   What an endpoint's receiver ends up with, however often and in whatever order the queued tasks are
   delivered to it: at most one event of each kind per notification, and none is lost.
   */
  lemma ReceiverSeesEachEventOnce(h: Hash, history: seq<Execution>, msgs: seq<EventTask>)
    requires forall m :: m in msgs ==> Queued(h, history, m)
    requires NoCollision(h, NamesOf(msgs))
    ensures var kept := Dedup(msgs);
            && (forall i, j :: 0 <= i < j < |kept| ==>
                  kept[i].notification != kept[j].notification || kept[i].kind != kept[j].kind)
            && (forall m :: m in msgs ==> exists k :: k in kept && k.notification == m.notification && k.kind == m.kind)
  {
    hide Performed, Dedup, TaskId;
    var kept := Dedup(msgs);
    DedupIsDistinct(msgs);
    forall i, j | 0 <= i < j < |kept|
      ensures kept[i].notification != kept[j].notification || kept[i].kind != kept[j].kind
    {
      assert kept[i] in kept && kept[j] in kept;
      QueuedIsNamed(h, history, kept[i]);
      QueuedIsNamed(h, history, kept[j]);
    }
    forall m | m in msgs
      ensures exists k :: k in kept && k.notification == m.notification && k.kind == m.kind
    {
      var k := DedupCovers(msgs, m);
      assert HashedName(m.notification, m.kind) in NamesOf(msgs) && HashedName(k.notification, k.kind) in NamesOf(msgs);
      ReemissionKeepsIdentity(h, history, m, k);
    }
  }

  // ---------------------------------------------------------------- one task's history

  predicate Acknowledged(h: Hash, x: Execution) {
    Acknowledge in Performed(h, x)
  }

  /**
   What the queue does next with a task. An attempt that was acknowledged is followed by another only
   after a failure that may be retried with budget left. One that was not is handed out again, with the
   retry counter as it was or, if the queue books the crash as a failure, one higher.
   */
  predicate Follows(h: Hash, x: Execution, y: Execution) {
    && y.task == x.task && y.notice == x.notice && y.retried <= y.task.maxRetry
    && if Acknowledged(h, x) then Retries(x.task, x.retried, x.outcome) && y.retried == x.retried + 1
       else y.retried == x.retried || y.retried == x.retried + 1
  }

  /** The executions of one task, oldest first, with any number of crashes. */
  predicate Legal(h: Hash, history: seq<Execution>) {
    && (history != [] ==> history[0].retried == 0)
    && forall i :: 0 <= i < |history| - 1 ==> Follows(h, history[i], history[i + 1])
  }

  /** The number of steps of an attempt that ends the task before the first enqueueing. */
  function StepsBeforeEmit(o: Outcome): nat {
    match o
    case Sent(id) => if id == "" then 3 else 5
    case PermanentFailure => 4
    case _ => 5
  }

  /** The execution ends the task, and lives long enough for the queue to take a task about it. */
  ghost predicate Reports(x: Execution) {
    && x.task.decodable && ReachesSend(x.outcome) && !Retries(x.task, x.retried, x.outcome)
    && exists j: nat :: TellsAt(x, j)
  }

  /** Step `j` would be an enqueueing, comes before the crash and is not refused. */
  predicate TellsAt(x: Execution, j: nat) {
    StepsBeforeEmit(x.outcome) <= j < StepsBeforeEmit(x.outcome) + |x.rows| && j < x.cut && j !in x.refused
  }

  function KindOf(o: Outcome): EventKind {
    if o.Sent? then NotificationDelivered else NotificationFailed
  }

  /** The execution put an event of this kind on the queue, which accepted it. */
  ghost predicate Tells(h: Hash, x: Execution, kind: EventKind) {
    exists j: nat, t :: Places(h, x, j, t) && t.kind == kind
  }

  lemma {:induction false} StepsAppend(h: Hash, n: Notice, rows: seq<Endpoint>, a: seq<Op>, b: seq<Op>)
    ensures Steps(h, n, rows, a + b) == Steps(h, n, rows, a) + Steps(h, n, rows, b)
    decreases |b|
  {
    hide StepsOf;
    if b == [] {
      assert a + b == a;
    } else {
      assert (a + b)[..|a + b| - 1] == a + b[..|b| - 1];
      StepsAppend(h, n, rows, a, b[..|b| - 1]);
    }
  }

  lemma {:induction false} SilentSteps(h: Hash, n: Notice, rows: seq<Endpoint>, ops: seq<Op>)
    requires Silent(ops)
    ensures var steps := Steps(h, n, rows, ops);
            |steps| == |ops| && forall i :: 0 <= i < |steps| ==> steps[i].Db?
    decreases |ops|
  {
    if ops != [] {
      SilentSteps(h, n, rows, ops[..|ops| - 1]);
    }
  }

  /** The operations of an attempt that ends the task: silent ones, one emission, silent ones. */
  lemma EndingOps(task: Task, retried: nat, o: Outcome) returns (before: seq<Op>, after: seq<Op>)
    requires task.decodable && ReachesSend(o) && !Retries(task, retried, o)
    ensures AttemptOps(task, retried, o) == before + [Emit(Event(KindOf(o), retried + 1))] + after
    ensures Silent(before) && Silent(after) && |before| == StepsBeforeEmit(o)
  {
    var ops, k := AttemptOps(task, retried, o), StepsBeforeEmit(o);
    before, after := ops[..k], ops[k + 1..];
    assert ops[k] == Emit(Event(KindOf(o), retried + 1));
    assert ops == before + [ops[k]] + after;
  }

  lemma EndingSteps(h: Hash, x: Execution) returns (before: seq<Step>, after: seq<Step>)
    requires x.task.decodable && ReachesSend(x.outcome) && !Retries(x.task, x.retried, x.outcome)
    ensures Planned(h, x) ==
            before + EnqueueSteps(Fanout(h, x.rows, x.notice, Event(KindOf(x.outcome), x.retried + 1))) + after
    ensures |before| == StepsBeforeEmit(x.outcome)
    ensures forall i :: 0 <= i < |before| ==> before[i].Db?
    ensures forall i :: 0 <= i < |after| ==> after[i].Db?
  {
    hide AttemptOps, StepsBeforeEmit, Steps, Fanout;
    var n, rows, e := x.notice, x.rows, Emit(Event(KindOf(x.outcome), x.retried + 1));
    var ops, ops' := EndingOps(x.task, x.retried, x.outcome);
    before, after := Steps(h, n, rows, ops), Steps(h, n, rows, ops');
    StepsAppend(h, n, rows, ops, [e]);
    StepsAppend(h, n, rows, ops + [e], ops');
    EmitSteps(h, n, rows, e.event);
    SilentSteps(h, n, rows, ops);
    SilentSteps(h, n, rows, ops');
  }

  lemma EmitSteps(h: Hash, n: Notice, rows: seq<Endpoint>, e: Event)
    ensures Steps(h, n, rows, [Emit(e)]) == EnqueueSteps(Fanout(h, rows, n, e))
  {
    assert [Emit(e)][..0] == [];
  }

  /** What an execution tells can be read off its outcome, its budget and the moment of its crash. */
  lemma TellsExactlyWhen(h: Hash, x: Execution, kind: EventKind)
    requires x.retried <= x.task.maxRetry
    ensures Tells(h, x, kind) <==> Reports(x) && KindOf(x.outcome) == kind
  {
    if x.task.decodable && ReachesSend(x.outcome) && !Retries(x.task, x.retried, x.outcome) {
      EndingTells(h, x, kind);
    } else {
      QuietTells(h, x, kind);
    }
  }

  lemma EndingTells(h: Hash, x: Execution, kind: EventKind)
    requires x.task.decodable && ReachesSend(x.outcome) && !Retries(x.task, x.retried, x.outcome)
    ensures Tells(h, x, kind) <==> (exists j: nat :: TellsAt(x, j)) && KindOf(x.outcome) == kind
  {
    hide Planned, StepsBeforeEmit;
    var e := Event(KindOf(x.outcome), x.retried + 1);
    var before, after := EndingSteps(h, x);
    var ts := Fanout(h, x.rows, x.notice, e);
    var all := before + EnqueueSteps(ts) + after + [Acknowledge];
    assert Planned(h, x) + [Acknowledge] == all;
    forall i | 0 <= i < |all| && all[i].Enqueue?
      ensures |before| <= i < |before| + |ts| && all[i].t.kind == KindOf(x.outcome)
    {
    }
    if j: nat, t :| Places(h, x, j, t) && t.kind == kind {
      assert all[j] == Enqueue(t);
      assert TellsAt(x, j);
    }
    if j: nat :| TellsAt(x, j) && KindOf(x.outcome) == kind {
      assert all[j] == Enqueue(ts[j - |before|]);
      assert Places(h, x, j, ts[j - |before|]);
    }
  }

  lemma QuietTells(h: Hash, x: Execution, kind: EventKind)
    requires !x.task.decodable || !ReachesSend(x.outcome) || Retries(x.task, x.retried, x.outcome)
    ensures !Tells(h, x, kind)
  {
    hide Steps;
    var ops := AttemptOps(x.task, x.retried, x.outcome);
    assert Silent(ops);
    SilentSteps(h, x.notice, x.rows, ops);
  }

  lemma {:induction false} LegalBudget(h: Hash, history: seq<Execution>, i: nat)
    requires Legal(h, history) && i < |history|
    ensures history[i].retried <= history[i].task.maxRetry
  {
    if i > 0 {
      assert Follows(h, history[i - 1], history[i]);
    }
  }

  /** Only a crash leaves something to come after an execution that told of an end. */
  lemma OnlyCrashesReportEarly(h: Hash, history: seq<Execution>, i: nat, j: nat)
    requires Legal(h, history) && i < j < |history| && Reports(history[i])
    ensures !Acknowledged(h, history[i])
  {
    assert Follows(h, history[i], history[i + 1]);
  }

  ghost predicate BothEnds(h: Hash, history: seq<Execution>) {
    && (exists i :: 0 <= i < |history| && Tells(h, history[i], NotificationDelivered))
    && (exists i :: 0 <= i < |history| && Tells(h, history[i], NotificationFailed))
  }

  /** A worker died after telling of one end and before acknowledging, and a later one told of the other. */
  ghost predicate TornEnd(h: Hash, history: seq<Execution>, i: nat, j: nat) {
    && i < j < |history| && !Acknowledged(h, history[i])
    && Reports(history[i]) && Reports(history[j])
    && history[i].outcome.Sent? != history[j].outcome.Sent?
  }

  /**
   When a notification is reported both delivered and failed, over every history of crashes: exactly when
   some worker dies between the first enqueueing of its event and the acknowledgement, and a later
   execution gets as far with the opposite answer from the provider.
   */
  lemma BothEndsExactlyWhen(h: Hash, history: seq<Execution>)
    requires Legal(h, history)
    ensures BothEnds(h, history) <==> exists i: nat, j: nat :: TornEnd(h, history, i, j)
  {
    hide Tells, Reports, Acknowledged, Follows;
    forall i: nat, kind | i < |history|
      ensures Tells(h, history[i], kind) <==> Reports(history[i]) && KindOf(history[i].outcome) == kind
    {
      LegalBudget(h, history, i);
      TellsExactlyWhen(h, history[i], kind);
    }
    if BothEnds(h, history) {
      var d: nat :| d < |history| && Tells(h, history[d], NotificationDelivered);
      var f: nat :| f < |history| && Tells(h, history[f], NotificationFailed);
      var i, j := if d < f then d else f, if d < f then f else d;
      OnlyCrashesReportEarly(h, history, i, j);
      assert TornEnd(h, history, i, j);
    }
    if i: nat, j: nat :| TornEnd(h, history, i, j) {
      assert Tells(h, history[i], KindOf(history[i].outcome)) && Tells(h, history[j], KindOf(history[j].outcome));
    }
  }

  /** So if every crash comes before the first enqueueing, at most one execution tells anyone anything. */
  lemma EarlyCrashesAreHarmless(h: Hash, history: seq<Execution>, i: nat, j: nat, k: EventKind, k': EventKind)
    requires Legal(h, history) && i <= j < |history|
    requires forall x :: x in history && !Acknowledged(h, x) ==> x.cut <= StepsBeforeEmit(x.outcome)
    requires Tells(h, history[i], k) && Tells(h, history[j], k')
    ensures i == j && k == k'
  {
    hide Tells, Acknowledged, Legal, StepsBeforeEmit;
    LegalBudget(h, history, i);
    LegalBudget(h, history, j);
    TellsExactlyWhen(h, history[i], k);
    TellsExactlyWhen(h, history[j], k');
    if i < j {
      OnlyCrashesReportEarly(h, history, i, j);
    }
  }

  /**
   The bound of one event of each kind is reached. A worker enqueues the delivered event, which is its
   fourth step, and dies before the fifth, the acknowledgement; the task runs again and the provider
   refuses.
   */
  lemma CrashCanReportBothEnds(h: Hash, n: Notice, ep: Endpoint)
    ensures var task := Task(0, true);
            var history := [Execution(task, 0, Sent(""), n, [ep], 4),
                            Execution(task, 0, PermanentFailure, n, [ep], 99)];
            Legal(h, history) && TornEnd(h, history, 0, 1) && BothEnds(h, history)
  {
    hide Steps, AttemptOps, Tells, BothEnds;
    var task := Task(0, true);
    var x, y := Execution(task, 0, Sent(""), n, [ep], 4), Execution(task, 0, PermanentFailure, n, [ep], 99);
    var before, after := EndingSteps(h, x);
    assert |Planned(h, x)| >= 4;
    NoEarlyAcknowledgement(h, x);
    assert Follows(h, x, y);
    assert TellsAt(x, 3) && TellsAt(y, 4);
    assert TornEnd(h, [x, y], 0, 1);
    BothEndsExactlyWhen(h, [x, y]);
  }

  lemma NoEarlyAcknowledgement(h: Hash, x: Execution)
    ensures Acknowledged(h, x) <==> x.cut > |Planned(h, x)|
  {
    hide AttemptOps;
    NoAcknowledgementInside(h, x.notice, x.rows, AttemptOps(x.task, x.retried, x.outcome));
    var all := Planned(h, x) + [Acknowledge];
    assert all[|Planned(h, x)|] == Acknowledge;
  }

  lemma {:induction false} NoAcknowledgementInside(h: Hash, n: Notice, rows: seq<Endpoint>, ops: seq<Op>)
    ensures Acknowledge !in Steps(h, n, rows, ops)
    decreases |ops|
  {
    if ops != [] {
      NoAcknowledgementInside(h, n, rows, ops[..|ops| - 1]);
    }
  }

  // ---------------------------------------------------------------- from attempts to endpoints

  /** The tasks among the steps, in order. */
  function TasksIn(steps: seq<Step>): seq<EventTask> {
    if steps == [] then []
    else TasksIn(steps[..|steps| - 1]) + if steps[|steps| - 1].Enqueue? then [steps[|steps| - 1].t] else []
  }

  lemma {:induction false} TasksInAppend(a: seq<Step>, b: seq<Step>)
    ensures TasksIn(a + b) == TasksIn(a) + TasksIn(b)
    decreases |b|
  {
    if b == [] {
      assert a + b == a;
    } else {
      assert (a + b)[..|a + b| - 1] == a + b[..|b| - 1];
      TasksInAppend(a, b[..|b| - 1]);
    }
  }

  lemma {:induction false} TasksInEnqueues(ts: seq<EventTask>)
    ensures TasksIn(EnqueueSteps(ts)) == ts
    decreases |ts|
  {
    if ts != [] {
      var init := ts[..|ts| - 1];
      TasksInEnqueues(init);
      assert EnqueueSteps(ts)[..|ts| - 1] == EnqueueSteps(init);
      assert ts == init + [ts[|ts| - 1]];
    }
  }

  function FanoutAll(h: Hash, rows: seq<Endpoint>, n: Notice, es: seq<Event>): seq<EventTask> {
    if es == [] then [] else FanoutAll(h, rows, n, es[..|es| - 1]) + Fanout(h, rows, n, es[|es| - 1])
  }

  /** What is queued is the fan-out of the emitted events and nothing else. */
  lemma {:induction false} TasksFollowEvents(h: Hash, n: Notice, rows: seq<Endpoint>, ops: seq<Op>)
    ensures TasksIn(Steps(h, n, rows, ops)) == FanoutAll(h, rows, n, Events(ops))
    decreases |ops|
  {
    if ops != [] {
      var init, op := ops[..|ops| - 1], ops[|ops| - 1];
      TasksFollowEvents(h, n, rows, init);
      TasksInAppend(Steps(h, n, rows, init), StepsOf(h, n, rows, op));
      if op.Emit? {
        TasksInEnqueues(Fanout(h, rows, n, op.event));
        var es := Events(init);
        assert (es + [op.event])[..|es|] == es;
      } else {
        NoTaskInDb(op);
        assert Events(ops) == Events(init);
      }
    }
  }

  lemma NoTaskInDb(op: Op)
    ensures TasksIn([Db(op)]) == []
  {
    assert [Db(op)][..0] == [];
  }

  /** The words tenants subscribe with and receivers read, for the two statuses a run can end in. */
  function TypeWord(s: Status): string {
    if s == Delivered then "notification.delivered" else "notification.failed"
  }

  function StatusWord(s: Status): string {
    if s == Delivered then "delivered" else "failed"
  }

  /** The task tells the truth about the notification, in those words. */
  ghost predicate Truthful(t: EventTask, h: Hash, n: Notice, ep: Endpoint, w: World) {
    && t.endpoint == ep.id && KindName(t.kind) == TypeWord(w.row.status) && t.status == StatusWord(w.row.status)
    && t.attempts == |w.attempts| && Carries(t, n)
    && t.eventId == "evt_" + h(n.notification + ":" + TypeWord(w.row.status))
    && TaskId(t) == "webhookevent:" + t.eventId + ":" + ep.id
  }

  /**
   The whole path. After a crash-free run whose last attempt reached the provider, with every write
   accepted: exactly one task is offered to the queue for an active endpoint of the tenant that lists the
   word for the final status, and is on it exactly if the queue accepts it. The task tells the truth: its
   status is the row's, its attempts are the recorded attempt rows. For any other endpoint none is offered.
   */
  lemma SubscribersLearnTheTruth(h: Hash, n: Notice, table: set<Endpoint>, rows: seq<Endpoint>, ep: Endpoint,
                                 task: Task, outcome: nat -> Outcome, db: nat -> bool, accepts: nat -> bool)
    requires AllOk(db) && task.decodable && ReachesSend(outcome(LastRetried(task, outcome, 0)))
    requires UniqueIds(table) && ep in table
    requires var o := outcome(LastRetried(task, outcome, 0));
             IsResult(rows, table, n.tenant, if o.Sent? then NotificationDelivered else NotificationFailed)
    ensures var ops := RunOps(task, outcome, 0);
            var w := After(FRESH, 0, ops, db);
            var ts := TasksIn(Steps(h, n, rows, ops));
            if ep.tenant == n.tenant && ep.active && TypeWord(w.row.status) in ep.events
            then exists i :: 0 <= i < |ts| && Truthful(ts[i], h, n, ep, w)
                   && (accepts(i) <==> exists t :: t in Taken(ts, accepts) && t.endpoint == ep.id)
                   && forall j :: 0 <= j < |ts| && ts[j].endpoint == ep.id ==> j == i
            else forall j :: 0 <= j < |ts| ==> ts[j].endpoint != ep.id
  {
    hide *;
    var e := FinalEvent(task, outcome, db);
    var w := After(FRESH, 0, RunOps(task, outcome, 0), db);
    TasksFollowEvents(h, n, rows, RunOps(task, outcome, 0));
    FanoutOne(h, rows, n, e);
    EmitReachesExactlySubscribers(h, table, rows, n, e, ep);
    SubscribesInWords(ep, e.kind, w.row.status);
    var ts := Fanout(h, rows, n, e);
    forall i | 0 <= i < |ts| && ts[i].endpoint == ep.id
      ensures Truthful(ts[i], h, n, ep, w)
    {
      FanoutIsTruthful(h, rows, n, e, ep, w, i);
    }
    TakenExactlyWhen(ts, accepts, ep.id);
  }

  lemma SubscribesInWords(ep: Endpoint, kind: EventKind, s: Status)
    requires kind == if s == Delivered then NotificationDelivered else NotificationFailed
    ensures SubscribesTo(ep, kind) <==> ep.active && TypeWord(s) in ep.events
  {
  }

  lemma FanoutIsTruthful(h: Hash, rows: seq<Endpoint>, n: Notice, e: Event, ep: Endpoint, w: World, i: nat)
    requires i < |rows| && Fanout(h, rows, n, e)[i].endpoint == ep.id && e.attempts == |w.attempts|
    requires e.kind == if w.row.status == Delivered then NotificationDelivered else NotificationFailed
    ensures Truthful(Fanout(h, rows, n, e)[i], h, n, ep, w)
  {
  }

  /** The tasks the queue accepts; it is asked about them in order. */
  function Taken(ts: seq<EventTask>, accepts: nat -> bool): set<EventTask> {
    set i | 0 <= i < |ts| && accepts(i) :: ts[i]
  }

  lemma TakenExactlyWhen(ts: seq<EventTask>, accepts: nat -> bool, id: Uuid)
    ensures forall i :: 0 <= i < |ts| && ts[i].endpoint == id
                        && (forall j :: 0 <= j < |ts| && ts[j].endpoint == id ==> j == i) ==>
              (accepts(i) <==> exists t :: t in Taken(ts, accepts) && t.endpoint == id)
  {
    forall i | 0 <= i < |ts| && ts[i].endpoint == id && accepts(i)
      ensures exists t :: t in Taken(ts, accepts) && t.endpoint == id
    {
      assert ts[i] in Taken(ts, accepts);
    }
  }

  /** The one event of a run that reached the provider, as the tables know it. */
  lemma FinalEvent(task: Task, outcome: nat -> Outcome, db: nat -> bool) returns (e: Event)
    requires AllOk(db) && task.decodable && ReachesSend(outcome(LastRetried(task, outcome, 0)))
    ensures Events(RunOps(task, outcome, 0)) == [e]
    ensures e.kind == if outcome(LastRetried(task, outcome, 0)).Sent? then NotificationDelivered else NotificationFailed
    ensures var w := After(FRESH, 0, RunOps(task, outcome, 0), db);
            e.attempts == |w.attempts| &&
            e.kind == if w.row.status == Delivered then NotificationDelivered else NotificationFailed
  {
    hide RunOps, After, Events;
    var last := LastRetried(task, outcome, 0);
    RunEmitsOnce(task, outcome, 0);
    RunSettles(task, outcome, db);
    e := FinalEvents(task, last, outcome(last))[0];
  }

  lemma FanoutOne(h: Hash, rows: seq<Endpoint>, n: Notice, e: Event)
    ensures FanoutAll(h, rows, n, [e]) == Fanout(h, rows, n, e)
  {
    assert [e][..0] == [];
  }
}
