/**
 The life of one `notification:deliver` task: the dispatcher, the error handler and the queue that
 drives them.

 Both handlers work by an ordered series of side effects, so an attempt is described by the list of
 operations it performs (`DeliverOps`, `ErrorOps`). `After` gives those operations their meaning on
 the notification row, the attempt rows and the emitted events; every database write may be lost,
 because the source logs such an error and carries on. `Worker` performs the same operations in
 place and is proved to follow the lists. The theorems are about whole runs, `RunOps`.
 */
module Delivery {

  datatype Status = Pending | Processing | Retrying | Delivered | Failed

  datatype EventKind = NotificationDelivered | NotificationFailed

  datatype Event = Event(kind: EventKind, attempts: nat)

  datatype Attempt = Attempt(number: nat, success: bool)

  datatype Row = Row(status: Status, retryCount: nat, hasError: bool, deliveredAt: bool, providerMsgId: string)

  /** `trail` lists every value the status column has held, oldest first. */
  datatype World = World(row: Row, attempts: seq<Attempt>, metrics: seq<string>, events: seq<Event>, trail: seq<Status>)

  /** What one attempt meets: the lookups that precede `Send`, then the provider's answer. */
  datatype Outcome =
    | ConfigMissing
    | ProviderMissing
    | TransportError
    | TransientFailure
    | PermanentFailure
    | Sent(msgId: string)

  datatype TaskKind = NotificationDeliver | WebhookEvent | OtherKind

  datatype Task = Task(maxRetry: nat, decodable: bool)

  /** The handler's return value; `skip` says that the error wraps `asynq.SkipRetry`. */
  datatype Return = Ok | Err(skip: bool)

  datatype Op =
    | SetStatus(status: Status, withError: bool)
    | CountRetry
    | RecordAttempt(attempt: Attempt)
    | MarkDelivered
    | StoreMsgId(id: string)
    | UpsertMetric(id: string)
    | Emit(event: Event)

  const FRESH := World(Row(Pending, 0, false, false, ""), [], [], [], [Pending])

  predicate ReachesSend(o: Outcome) {
    !o.ConfigMissing? && !o.ProviderMissing?
  }

  // ---------------------------------------------------------------- effects

  /** One operation on the tables; `ok` says whether the database accepted the write. */
  function Apply(w: World, op: Op, ok: bool): World {
    if op.Emit? then w.(events := w.events + [op.event])
    else if !ok then w
    else Write(w, op)
  }

  function Write(w: World, op: Op): World
    requires !op.Emit?
  {
    match op
    case SetStatus(s, withError) =>
      w.(row := w.row.(status := s, hasError := withError), trail := w.trail + [s])
    case CountRetry => w.(row := w.row.(retryCount := w.row.retryCount + 1, hasError := true))
    case RecordAttempt(a) => w.(attempts := w.attempts + [a])
    case MarkDelivered =>
      w.(row := w.row.(status := Delivered, deliveredAt := true), trail := w.trail + [Delivered])
    case StoreMsgId(id) => w.(row := w.row.(providerMsgId := id))
    case UpsertMetric(id) => w.(metrics := w.metrics + [id])
  }

  /** The tables after `ops`; operation number `at + i` succeeds exactly when `db(at + i)`. */
  function After(w: World, at: nat, ops: seq<Op>, db: nat -> bool): World {
    if ops == [] then w
    else Apply(After(w, at, ops[..|ops| - 1], db), ops[|ops| - 1], db(at + |ops| - 1))
  }

  lemma {:induction false} AfterAppend(w: World, at: nat, a: seq<Op>, b: seq<Op>, db: nat -> bool)
    ensures After(w, at, a + b, db) == After(After(w, at, a, db), at + |a|, b, db)
    decreases |b|
  {
    if b == [] {
      assert a + b == a;
    } else {
      var b' := b[..|b| - 1];
      assert (a + b)[..|a + b| - 1] == a + b';
      AfterAppend(w, at, a, b', db);
    }
  }

  lemma AfterOne(w: World, at: nat, op: Op, db: nat -> bool)
    ensures After(w, at, [op], db) == Apply(w, op, db(at))
  {
    assert [op][..0] == [];
  }

  // ---------------------------------------------------------------- handlers

  /** `HandleNotificationDeliver` on a decodable payload, with asynq's retry counter `retried`. */
  function DeliverOps(retried: nat, o: Outcome): seq<Op> {
    [SetStatus(Processing, false)] +
    match o
    case ConfigMissing => []
    case ProviderMissing => []
    case TransportError => FailureOps(retried) + [SetStatus(Retrying, true)]
    case TransientFailure => FailureOps(retried) + [SetStatus(Retrying, true)]
    case PermanentFailure =>
      FailureOps(retried) + [SetStatus(Failed, true), Emit(Event(NotificationFailed, retried + 1))]
    case Sent(id) => SuccessOps(retried, id)
  }

  function SuccessOps(retried: nat, id: string): seq<Op> {
    [RecordAttempt(Attempt(retried + 1, true)), MarkDelivered]
    + (if id != "" then [StoreMsgId(id), UpsertMetric(id)] else [])
    + [Emit(Event(NotificationDelivered, retried + 1))]
  }

  function FailureOps(retried: nat): seq<Op> {
    [RecordAttempt(Attempt(retried + 1, false)), CountRetry]
  }

  function DeliverReturn(task: Task, o: Outcome): Return {
    if !task.decodable then Err(true)
    else match o
      case ConfigMissing => Err(true)
      case ProviderMissing => Err(true)
      case TransportError => Err(false)
      case TransientFailure => Err(false)
      case PermanentFailure => Err(true)
      case Sent(_) => Ok
  }

  /** `HandleError`, which asynq calls after every failed attempt. */
  function ErrorOps(task: Task, retried: nat, skip: bool): seq<Op> {
    if retried < task.maxRetry || !task.decodable then []
    else [SetStatus(Failed, true)] + if skip then [] else [Emit(Event(NotificationFailed, retried + 1))]
  }

  /** Everything one attempt does, in order. */
  function AttemptOps(task: Task, retried: nat, o: Outcome): seq<Op> {
    (if task.decodable then DeliverOps(retried, o) else [])
    + match DeliverReturn(task, o)
      case Ok => []
      case Err(skip) => ErrorOps(task, retried, skip)
  }

  /** The queue runs the task again only after a failure that may be retried and with budget left. */
  predicate Retries(task: Task, retried: nat, o: Outcome) {
    DeliverReturn(task, o) == Err(false) && retried < task.maxRetry
  }

  /** A whole crash-free run from retry counter `retried`; `outcome(k)` is what attempt `k + 1` meets. */
  function RunOps(task: Task, outcome: nat -> Outcome, retried: nat): seq<Op>
    requires retried <= task.maxRetry
    decreases task.maxRetry - retried
  {
    AttemptOps(task, retried, outcome(retried)) +
    if Retries(task, retried, outcome(retried)) then RunOps(task, outcome, retried + 1) else []
  }

  /** The retry counter of the last attempt of that run. */
  function LastRetried(task: Task, outcome: nat -> Outcome, retried: nat): (last: nat)
    requires retried <= task.maxRetry
    ensures retried <= last <= task.maxRetry
    ensures !Retries(task, last, outcome(last))
    ensures forall k :: retried <= k < last ==> Retries(task, k, outcome(k))
    decreases task.maxRetry - retried
  {
    if Retries(task, retried, outcome(retried)) then LastRetried(task, outcome, retried + 1) else retried
  }

  /** A task that keeps failing retryably is attempted `maxRetry + 1` times, not `maxRetry` times. */
  lemma {:induction false} BudgetIsUsedUp(task: Task, outcome: nat -> Outcome, retried: nat)
    requires task.decodable && retried <= task.maxRetry
    requires forall k :: retried <= k < task.maxRetry ==> outcome(k).TransportError? || outcome(k).TransientFailure?
    ensures LastRetried(task, outcome, retried) == task.maxRetry
    decreases task.maxRetry - retried
  {
    if retried < task.maxRetry {
      BudgetIsUsedUp(task, outcome, retried + 1);
    }
  }

  // ---------------------------------------------------------------- events, whatever the database does

  function Events(ops: seq<Op>): seq<Event> {
    if ops == [] then []
    else Events(ops[..|ops| - 1]) + if ops[|ops| - 1].Emit? then [ops[|ops| - 1].event] else []
  }

  lemma {:induction false} EventsAppend(a: seq<Op>, b: seq<Op>)
    ensures Events(a + b) == Events(a) + Events(b)
    decreases |b|
  {
    if b == [] {
      assert a + b == a;
    } else {
      assert (a + b)[..|a + b| - 1] == a + b[..|b| - 1];
      EventsAppend(a, b[..|b| - 1]);
    }
  }

  predicate Silent(ops: seq<Op>) {
    forall i :: 0 <= i < |ops| ==> !ops[i].Emit?
  }

  lemma {:induction false} SilentHasNoEvents(ops: seq<Op>)
    requires Silent(ops)
    ensures Events(ops) == []
    decreases |ops|
  {
    if ops != [] {
      SilentHasNoEvents(ops[..|ops| - 1]);
    }
  }

  lemma OneEvent(ops: seq<Op>, e: Event)
    requires Silent(ops)
    ensures Events(ops + [Emit(e)]) == [e]
  {
    assert (ops + [Emit(e)])[..|ops|] == ops;
    SilentHasNoEvents(ops);
  }

  /** No lost write can lose or duplicate an event: the event log is that of the operations alone. */
  lemma {:induction false} WritesDoNotAffectEvents(w: World, at: nat, ops: seq<Op>, db: nat -> bool)
    ensures After(w, at, ops, db).events == w.events + Events(ops)
    decreases |ops|
  {
    if ops != [] {
      WritesDoNotAffectEvents(w, at, ops[..|ops| - 1], db);
    }
  }

  /** The event a run must end with, judged from its last attempt alone. */
  function FinalEvents(task: Task, last: nat, o: Outcome): seq<Event> {
    if !task.decodable || !ReachesSend(o) then []
    else [Event(if o.Sent? then NotificationDelivered else NotificationFailed, last + 1)]
  }

  lemma AttemptEvents(task: Task, retried: nat, o: Outcome)
    requires retried <= task.maxRetry
    ensures Events(AttemptOps(task, retried, o)) ==
            if Retries(task, retried, o) then [] else FinalEvents(task, retried, o)
  {
    if !task.decodable || Retries(task, retried, o) || !ReachesSend(o) {
      QuietAttempt(task, retried, o);
    } else if o.PermanentFailure? {
      PermanentAttemptEvents(task, retried);
    } else {
      var ops := AttemptOps(task, retried, o);
      var e := FinalEvents(task, retried, o)[0];
      assert ops == ops[..|ops| - 1] + [Emit(e)];
      OneEvent(ops[..|ops| - 1], e);
    }
  }

  lemma QuietAttempt(task: Task, retried: nat, o: Outcome)
    requires !task.decodable || Retries(task, retried, o) || !ReachesSend(o)
    ensures Events(AttemptOps(task, retried, o)) == []
  {
    SilentHasNoEvents(AttemptOps(task, retried, o));
  }

  /** A permanent failure on the very last attempt reaches both handlers and still emits once. */
  lemma PermanentAttemptEvents(task: Task, retried: nat)
    requires task.decodable
    ensures Events(AttemptOps(task, retried, PermanentFailure)) == [Event(NotificationFailed, retried + 1)]
  {
    var e := Event(NotificationFailed, retried + 1);
    var head := [SetStatus(Processing, false)] + FailureOps(retried) + [SetStatus(Failed, true)];
    var after := ErrorOps(task, retried, true);
    assert AttemptOps(task, retried, PermanentFailure) == (head + [Emit(e)]) + after;
    OneEvent(head, e);
    SilentHasNoEvents(after);
    EventsAppend(head + [Emit(e)], after);
  }

  /**
   Exactly one event is emitted if and only if the last attempt reached the provider; it names the
   true attempt count and the provider's final answer. Lost database writes change nothing.
   */
  lemma {:induction false} RunEmitsOnce(task: Task, outcome: nat -> Outcome, retried: nat)
    requires retried <= task.maxRetry
    ensures var last := LastRetried(task, outcome, retried);
            Events(RunOps(task, outcome, retried)) == FinalEvents(task, last, outcome(last))
    decreases task.maxRetry - retried
  {
    var o := outcome(retried);
    AttemptEvents(task, retried, o);
    if Retries(task, retried, o) {
      RunEmitsOnce(task, outcome, retried + 1);
      EventsAppend(AttemptOps(task, retried, o), RunOps(task, outcome, retried + 1));
    } else {
      assert RunOps(task, outcome, retried) == AttemptOps(task, retried, o);
    }
  }

  // ---------------------------------------------------------------- rows, when every write succeeds

  ghost predicate AllOk(db: nat -> bool) {
    forall n: nat :: db(n)
  }

  /** The status changes the design allows. */
  predicate Allowed(from: Status, to: Status) {
    match from
    case Pending => to == Processing
    case Processing => to == Delivered || to == Retrying || to == Failed
    case Retrying => to == Processing || to == Failed
    case Failed => to == Failed
    case Delivered => false
  }

  predicate Lawful(trail: seq<Status>) {
    forall i :: 0 <= i < |trail| - 1 ==> Allowed(trail[i], trail[i + 1])
  }

  function Failures(n: nat): seq<Attempt> {
    seq(n, i requires 0 <= i => Attempt(i + 1, false))
  }

  /** The tables between two attempts: `retried` attempts have failed and nothing else has happened. */
  ghost predicate Waiting(w: World, retried: nat) {
    && w.row.status == (if retried == 0 then Pending else Retrying)
    && w.row.retryCount == retried && w.row.hasError == (retried > 0)
    && !w.row.deliveredAt && w.row.providerMsgId == "" && w.metrics == []
    && w.attempts == Failures(retried)
    && w.events == []
    && w.trail != [] && w.trail[|w.trail| - 1] == w.row.status
    && Lawful(w.trail)
  }

  /** How a task that ended with attempt `last + 1` meeting `o` must have left the tables. */
  ghost predicate Settled(w: World, task: Task, last: nat, o: Outcome) {
    && w.row.status == (
      if o.Sent? then Delivered
      else if ReachesSend(o) || last == task.maxRetry then Failed
      else Processing)
    && w.row.deliveredAt == o.Sent?
    && w.row.hasError == w.row.status.Failed?
    && w.row.retryCount == last + (if ReachesSend(o) && !o.Sent? then 1 else 0)
    && w.attempts == Failures(last) + (if ReachesSend(o) then [Attempt(last + 1, o.Sent?)] else [])
    && w.row.providerMsgId == (if o.Sent? then o.msgId else "")
    && w.metrics == (if o.Sent? && o.msgId != "" then [o.msgId] else [])
    && w.events == FinalEvents(task, last, o)
    && Lawful(w.trail)
  }

  lemma AfterSnoc(w: World, at: nat, ops: seq<Op>, op: Op, db: nat -> bool)
    requires AllOk(db)
    ensures After(w, at, ops + [op], db) == Apply(After(w, at, ops, db), op, true)
  {
    assert (ops + [op])[..|ops|] == ops;
  }

  lemma LawfulSnoc(trail: seq<Status>, s: Status)
    requires Lawful(trail) && trail != [] && Allowed(trail[|trail| - 1], s)
    ensures Lawful(trail + [s])
  {
  }

  /** The first three operations of an attempt that the provider did not accept. */
  lemma AfterFailure(w: World, at: nat, retried: nat, db: nat -> bool)
    requires AllOk(db) && Waiting(w, retried)
    ensures var ops := [SetStatus(Processing, false)] + FailureOps(retried);
            After(w, at, ops, db) == w.(
            row := w.row.(status := Processing, hasError := true, retryCount := retried + 1),
            attempts := Failures(retried + 1),
            trail := w.trail + [Processing])
    ensures Lawful(w.trail + [Processing])
  {
    var a := SetStatus(Processing, false);
    var b := RecordAttempt(Attempt(retried + 1, false));
    AfterOne(w, at, a, db);
    AfterSnoc(w, at, [a], b, db);
    AfterSnoc(w, at, [a] + [b], CountRetry, db);
    assert [a] + FailureOps(retried) == [a] + [b] + [CountRetry];
    assert Failures(retried + 1) == Failures(retried) + [Attempt(retried + 1, false)];
    LawfulSnoc(w.trail, Processing);
  }

  lemma RetriedAttempt(w: World, at: nat, task: Task, retried: nat, o: Outcome, db: nat -> bool)
    requires AllOk(db) && Waiting(w, retried) && Retries(task, retried, o)
    ensures Waiting(After(w, at, AttemptOps(task, retried, o), db), retried + 1)
  {
    hide After, Lawful;
    var ops := [SetStatus(Processing, false)] + FailureOps(retried);
    AfterFailure(w, at, retried, db);
    AfterSnoc(w, at, ops, SetStatus(Retrying, true), db);
    assert AttemptOps(task, retried, o) == ops + [SetStatus(Retrying, true)];
    LawfulSnoc(w.trail + [Processing], Retrying);
  }

  lemma LookupFailedAttempt(w: World, at: nat, task: Task, retried: nat, o: Outcome, db: nat -> bool)
    requires AllOk(db) && Waiting(w, retried) && task.decodable && retried <= task.maxRetry && !ReachesSend(o)
    ensures Settled(After(w, at, AttemptOps(task, retried, o), db), task, retried, o)
  {
    var a := SetStatus(Processing, false);
    AfterOne(w, at, a, db);
    AfterSnoc(w, at, [a], SetStatus(Failed, true), db);
    LawfulSnoc(w.trail, Processing);
    LawfulSnoc(w.trail + [Processing], Failed);
    assert AttemptOps(task, retried, o) == if retried < task.maxRetry then [a] else [a] + [SetStatus(Failed, true)];
  }

  lemma ExhaustedAttempt(w: World, at: nat, task: Task, o: Outcome, db: nat -> bool)
    requires AllOk(db) && Waiting(w, task.maxRetry) && task.decodable && (o.TransportError? || o.TransientFailure?)
    ensures Settled(After(w, at, AttemptOps(task, task.maxRetry, o), db), task, task.maxRetry, o)
  {
    hide After, Lawful;
    var r := task.maxRetry;
    var ops := [SetStatus(Processing, false)] + FailureOps(r);
    var e := Emit(Event(NotificationFailed, r + 1));
    AfterFailure(w, at, r, db);
    AfterSnoc(w, at, ops, SetStatus(Retrying, true), db);
    AfterSnoc(w, at, ops + [SetStatus(Retrying, true)], SetStatus(Failed, true), db);
    AfterSnoc(w, at, ops + [SetStatus(Retrying, true)] + [SetStatus(Failed, true)], e, db);
    assert AttemptOps(task, r, o) == ops + [SetStatus(Retrying, true)] + [SetStatus(Failed, true)] + [e];
    assert Failures(r + 1) == Failures(r) + [Attempt(r + 1, false)];
    LawfulSnoc(w.trail + [Processing], Retrying);
    LawfulSnoc(w.trail + [Processing] + [Retrying], Failed);
  }

  lemma PermanentAttempt(w: World, at: nat, task: Task, retried: nat, db: nat -> bool)
    requires AllOk(db) && Waiting(w, retried) && task.decodable && retried <= task.maxRetry
    ensures Settled(After(w, at, AttemptOps(task, retried, PermanentFailure), db), task, retried, PermanentFailure)
  {
    hide After, Lawful;
    var ops := [SetStatus(Processing, false)] + FailureOps(retried);
    var e := Emit(Event(NotificationFailed, retried + 1));
    var all := ops + [SetStatus(Failed, true)] + [e];
    AfterFailure(w, at, retried, db);
    AfterSnoc(w, at, ops, SetStatus(Failed, true), db);
    AfterSnoc(w, at, ops + [SetStatus(Failed, true)], e, db);
    AfterSnoc(w, at, all, SetStatus(Failed, true), db);
    assert AttemptOps(task, retried, PermanentFailure) ==
           if retried < task.maxRetry then all else all + [SetStatus(Failed, true)];
    assert Failures(retried + 1) == Failures(retried) + [Attempt(retried + 1, false)];
    LawfulSnoc(w.trail + [Processing], Failed);
    LawfulSnoc(w.trail + [Processing] + [Failed], Failed);
  }

  /** The first three operations of an attempt that the provider accepted. */
  lemma AfterSuccess(w: World, at: nat, retried: nat, db: nat -> bool)
    requires AllOk(db) && Waiting(w, retried)
    ensures var ops := [SetStatus(Processing, false), RecordAttempt(Attempt(retried + 1, true)), MarkDelivered];
            After(w, at, ops, db) == w.(
            row := w.row.(status := Delivered, hasError := false, deliveredAt := true),
            attempts := Failures(retried) + [Attempt(retried + 1, true)],
            trail := w.trail + [Processing] + [Delivered])
    ensures Lawful(w.trail + [Processing] + [Delivered])
  {
    var a := SetStatus(Processing, false);
    var b := RecordAttempt(Attempt(retried + 1, true));
    AfterOne(w, at, a, db);
    AfterSnoc(w, at, [a], b, db);
    AfterSnoc(w, at, [a] + [b], MarkDelivered, db);
    assert [a, b, MarkDelivered] == [a] + [b] + [MarkDelivered];
    LawfulSnoc(w.trail, Processing);
    LawfulSnoc(w.trail + [Processing], Delivered);
  }

  lemma DeliveredAttempt(w: World, at: nat, task: Task, retried: nat, o: Outcome, db: nat -> bool)
    requires AllOk(db) && Waiting(w, retried) && task.decodable && o.Sent?
    ensures Settled(After(w, at, AttemptOps(task, retried, o), db), task, retried, o)
  {
    hide After, Lawful;
    var e := Emit(Event(NotificationDelivered, retried + 1));
    var ops := [SetStatus(Processing, false), RecordAttempt(Attempt(retried + 1, true)), MarkDelivered];
    AfterSuccess(w, at, retried, db);
    if o.msgId == "" {
      AfterSnoc(w, at, ops, e, db);
      assert AttemptOps(task, retried, o) == ops + [e];
    } else {
      AfterSnoc(w, at, ops, StoreMsgId(o.msgId), db);
      AfterSnoc(w, at, ops + [StoreMsgId(o.msgId)], UpsertMetric(o.msgId), db);
      AfterSnoc(w, at, ops + [StoreMsgId(o.msgId)] + [UpsertMetric(o.msgId)], e, db);
      assert AttemptOps(task, retried, o) == ops + [StoreMsgId(o.msgId)] + [UpsertMetric(o.msgId)] + [e];
    }
  }

  lemma LastAttemptSettles(w: World, at: nat, task: Task, retried: nat, o: Outcome, db: nat -> bool)
    requires AllOk(db) && Waiting(w, retried) && task.decodable && retried <= task.maxRetry
             && !Retries(task, retried, o)
    ensures Settled(After(w, at, AttemptOps(task, retried, o), db), task, retried, o)
  {
    match o
    case ConfigMissing => LookupFailedAttempt(w, at, task, retried, o, db);
    case ProviderMissing => LookupFailedAttempt(w, at, task, retried, o, db);
    case TransportError => ExhaustedAttempt(w, at, task, o, db);
    case TransientFailure => ExhaustedAttempt(w, at, task, o, db);
    case PermanentFailure => PermanentAttempt(w, at, task, retried, db);
    case Sent(_) => DeliveredAttempt(w, at, task, retried, o, db);
  }

  lemma RunUnfolds(task: Task, outcome: nat -> Outcome, retried: nat)
    requires retried <= task.maxRetry
    ensures var ops := AttemptOps(task, retried, outcome(retried));
            var again := Retries(task, retried, outcome(retried));
            && (again ==> retried < task.maxRetry)
            && RunOps(task, outcome, retried) == (if again then ops + RunOps(task, outcome, retried + 1) else ops)
            && LastRetried(task, outcome, retried) ==
               (if again then LastRetried(task, outcome, retried + 1) else retried)
  {
    hide AttemptOps;
  }

  lemma RetryStep(w: World, at: nat, task: Task, retried: nat, o: Outcome, rest: seq<Op>, db: nat -> bool)
    returns (next: World, at': nat)
    requires AllOk(db) && Waiting(w, retried) && Retries(task, retried, o)
    ensures Waiting(next, retried + 1)
    ensures After(w, at, AttemptOps(task, retried, o) + rest, db) == After(next, at', rest, db)
  {
    hide After, AttemptOps, Waiting;
    var ops := AttemptOps(task, retried, o);
    next, at' := After(w, at, ops, db), at + |ops|;
    RetriedAttempt(w, at, task, retried, o, db);
    AfterAppend(w, at, ops, rest, db);
  }

  lemma {:induction false} RunSettlesFrom(w: World, at: nat, task: Task,
                                  outcome: nat -> Outcome, retried: nat, db: nat -> bool)
    requires AllOk(db) && task.decodable && retried <= task.maxRetry && Waiting(w, retried)
    ensures var last := LastRetried(task, outcome, retried);
            Settled(After(w, at, RunOps(task, outcome, retried), db), task, last, outcome(last))
    decreases task.maxRetry - retried
  {
    hide AttemptOps, Waiting, Settled;
    RunUnfolds(task, outcome, retried);
    if Retries(task, retried, outcome(retried)) {
      var rest := RunOps(task, outcome, retried + 1);
      var next, at' := RetryStep(w, at, task, retried, outcome(retried), rest, db);
      RunSettlesFrom(next, at', task, outcome, retried + 1, db);
    } else {
      LastAttemptSettles(w, at, task, retried, outcome(retried), db);
    }
  }

  /**
   Every crash-free run of a fresh task ends within `maxRetry + 1` attempts, and its end is determined
   by the last attempt: see `Settled`. A payload that cannot be decoded leaves everything untouched.
   */
  lemma RunSettles(task: Task, outcome: nat -> Outcome, db: nat -> bool)
    requires AllOk(db)
    ensures var last := LastRetried(task, outcome, 0);
            var w := After(FRESH, 0, RunOps(task, outcome, 0), db);
            && last + 1 <= task.maxRetry + 1
            && if task.decodable then Settled(w, task, last, outcome(last)) else w == FRESH
  {
    if task.decodable {
      assert Failures(0) == [];
      RunSettlesFrom(FRESH, 0, task, outcome, 0, db);
    }
  }

  lemma RunConclusion(task: Task, outcome: nat -> Outcome, db: nat -> bool)
    ensures var last := LastRetried(task, outcome, 0);
            var w := After(FRESH, 0, RunOps(task, outcome, 0), db);
            && w.events == FinalEvents(task, last, outcome(last))
            && (AllOk(db) && task.decodable ==> Settled(w, task, last, outcome(last)))
  {
    RunEmitsOnce(task, outcome, 0);
    WritesDoNotAffectEvents(FRESH, 0, RunOps(task, outcome, 0), db);
    if AllOk(db) {
      RunSettles(task, outcome, db);
    }
  }

  /**
   The promise as receivers read it: if the last attempt reached the provider, the final status is
   terminal, the single event names it, and the event's attempt count, the attempt rows 1..k and the
   row's retry counter agree.
   */
  lemma OneTrueEvent(task: Task, outcome: nat -> Outcome, db: nat -> bool)
    requires AllOk(db) && task.decodable
    requires ReachesSend(outcome(LastRetried(task, outcome, 0)))
    ensures var w := After(FRESH, 0, RunOps(task, outcome, 0), db);
            && |w.events| == 1
            && w.events[0].attempts == |w.attempts| <= task.maxRetry + 1
            && w.row.status == (if w.events[0].kind.NotificationDelivered? then Delivered else Failed)
            && (forall i :: 0 <= i < |w.attempts| ==> w.attempts[i].number == i + 1)
            && (forall i :: 0 <= i < |w.attempts| ==>
                  (w.attempts[i].success <==> i == |w.attempts| - 1 && w.row.status == Delivered))
            && w.row.retryCount == |w.attempts| - (if w.row.status == Delivered then 1 else 0)
  {
    RunSettles(task, outcome, db);
  }

  lemma {:induction false} TrailOnlyGrows(w: World, at: nat, ops: seq<Op>, k: nat, db: nat -> bool)
    requires k <= |ops|
    ensures After(w, at, ops[..k], db).trail <= After(w, at, ops, db).trail
    decreases |ops| - k
  {
    if k == |ops| {
      assert ops[..k] == ops;
    } else {
      TrailOnlyGrows(w, at, ops, k + 1, db);
      assert ops[..k + 1][..k] == ops[..k];
    }
  }

  /**
   At every point of every crash-free run, each status ever written followed from the one before it as
   `Allowed`; so once the row says Delivered or Failed it says so for the rest of the run.
   */
  lemma StatusesAreLawful(task: Task, outcome: nat -> Outcome, db: nat -> bool, k: nat)
    requires AllOk(db)
    requires k <= |RunOps(task, outcome, 0)|
    ensures var now := After(FRESH, 0, RunOps(task, outcome, 0)[..k], db);
            var end := After(FRESH, 0, RunOps(task, outcome, 0), db);
            && now.trail <= end.trail
            && Lawful(now.trail)
            && forall i, j :: 0 <= i < j < |end.trail| && (end.trail[i].Delivered? || end.trail[i].Failed?) ==>
                 end.trail[j] == end.trail[i]
  {
    RunSettles(task, outcome, db);
    var end := After(FRESH, 0, RunOps(task, outcome, 0), db);
    TrailOnlyGrows(FRESH, 0, RunOps(task, outcome, 0), k, db);
    forall i, j | 0 <= i < j < |end.trail| && (end.trail[i].Delivered? || end.trail[i].Failed?)
      ensures end.trail[j] == end.trail[i]
    {
      TerminalIsAbsorbing(end.trail, i, j);
    }
  }

  lemma {:induction false} TerminalIsAbsorbing(trail: seq<Status>, i: nat, j: nat)
    requires Lawful(trail) && i < j < |trail| && (trail[i].Delivered? || trail[i].Failed?)
    ensures trail[j] == trail[i]
    decreases j
  {
    assert Allowed(trail[i], trail[i + 1]);
    if i + 1 < j {
      TerminalIsAbsorbing(trail, i, j - 1);
      assert Allowed(trail[j - 1], trail[j]);
    }
  }

  // ---------------------------------------------------------------- between and within attempts

  /** The operations of the first `k` attempts. */
  function FirstAttempts(task: Task, outcome: nat -> Outcome, k: nat): seq<Op> {
    if k == 0 then [] else FirstAttempts(task, outcome, k - 1) + AttemptOps(task, k - 1, outcome(k - 1))
  }

  lemma {:induction false} RunSplits(task: Task, outcome: nat -> Outcome, k: nat)
    requires k <= LastRetried(task, outcome, 0)
    ensures RunOps(task, outcome, 0) == FirstAttempts(task, outcome, k) + RunOps(task, outcome, k)
  {
    hide AttemptOps;
    if k > 0 {
      RunSplits(task, outcome, k - 1);
      RunUnfolds(task, outcome, k - 1);
    }
  }

  lemma FreshWaits(db: nat -> bool)
    ensures Waiting(FRESH, 0) && After(FRESH, 0, [], db) == FRESH
  {
    assert Failures(0) == [];
  }

  lemma {:induction false} WaitsAfter(task: Task, outcome: nat -> Outcome, db: nat -> bool, k: nat)
    requires AllOk(db) && task.decodable && k <= LastRetried(task, outcome, 0)
    ensures Waiting(After(FRESH, 0, FirstAttempts(task, outcome, k), db), k)
  {
    hide AttemptOps, Waiting, After, AllOk, LastRetried, Retries;
    if k == 0 {
      FreshWaits(db);
    } else {
      WaitsAfter(task, outcome, db, k - 1);
      assert Retries(task, k - 1, outcome(k - 1));
      var init, last := FirstAttempts(task, outcome, k - 1), AttemptOps(task, k - 1, outcome(k - 1));
      AfterAppend(FRESH, 0, init, last, db);
      RetriedAttempt(After(FRESH, 0, init, db), |init|, task, k - 1, outcome(k - 1), db);
    }
  }

  /**
   While a task waits for its next attempt, its row says Retrying, holds the last error and counts the
   attempts made, and there is an attempt row for each of them.
   */
  lemma RowWhileWaiting(task: Task, outcome: nat -> Outcome, db: nat -> bool, k: nat)
    requires AllOk(db) && task.decodable && k <= LastRetried(task, outcome, 0)
    ensures FirstAttempts(task, outcome, k) <= RunOps(task, outcome, 0)
    ensures var w := After(FRESH, 0, FirstAttempts(task, outcome, k), db);
            && w.row == Row(if k == 0 then Pending else Retrying, k, k > 0, false, "")
            && w.attempts == seq(k, i requires 0 <= i => Attempt(i + 1, false))
            && w.events == [] && w.metrics == []
  {
    hide AttemptOps, After, FirstAttempts, RunOps;
    RunSplits(task, outcome, k);
    WaitsAfter(task, outcome, db, k);
    assert Failures(k) == seq(k, i requires 0 <= i => Attempt(i + 1, false));
  }

  function FailedRows(attempts: seq<Attempt>): nat {
    if attempts == [] then 0
    else FailedRows(attempts[..|attempts| - 1]) + if attempts[|attempts| - 1].success then 0 else 1
  }

  lemma FailedRowsSnoc(attempts: seq<Attempt>, a: Attempt)
    ensures FailedRows(attempts + [a]) == FailedRows(attempts) + if a.success then 0 else 1
  {
    assert (attempts + [a])[..|attempts|] == attempts;
  }

  lemma {:induction false} FailedRowsOfFailures(n: nat)
    ensures FailedRows(Failures(n)) == n
  {
    if n > 0 {
      FailedRowsOfFailures(n - 1);
      assert Failures(n) == Failures(n - 1) + [Attempt(n, false)];
    }
  }

  /**
   What a worker may leave behind wherever it dies: every retry counted has its attempt row, every
   delivery its successful one, and every event the status it reports.
   */
  ghost predicate PointOk(w: World) {
    && w.row.retryCount <= FailedRows(w.attempts) <= w.row.retryCount + 1
    && (w.row.status == Delivered ==> w.attempts != [] && w.attempts[|w.attempts| - 1].success)
    && (w.row.status == Retrying || w.row.status == Failed ==> w.row.hasError)
    && (w.row.status == Retrying ==> w.row.retryCount == FailedRows(w.attempts))
    && (w.row.providerMsgId != "" ==> w.row.status == Delivered)
    && (w.events != [] ==>
          w.row.status == if w.events[0].kind == NotificationDelivered then Delivered else Failed)
  }

  ghost predicate PointsOk(w: World, ops: seq<Op>)
    decreases |ops|
  {
    PointOk(w) && (ops != [] ==> PointsOk(Apply(w, ops[0], true), ops[1..]))
  }

  lemma PointsNil(w: World)
    requires PointOk(w)
    ensures PointsOk(w, [])
  {
  }

  lemma PointsCons(w: World, op: Op, rest: seq<Op>)
    requires PointOk(w) && PointsOk(Apply(w, op, true), rest)
    ensures PointsOk(w, [op] + rest)
  {
    assert ([op] + rest)[1..] == rest;
  }

  lemma AfterCons(w: World, at: nat, ops: seq<Op>, db: nat -> bool)
    requires AllOk(db) && ops != []
    ensures After(w, at, ops, db) == After(Apply(w, ops[0], true), at + 1, ops[1..], db)
  {
    assert ops == [ops[0]] + ops[1..];
    AfterAppend(w, at, [ops[0]], ops[1..], db);
    AfterOne(w, at, ops[0], db);
  }

  lemma {:induction false} PointsPrefix(w: World, at: nat, ops: seq<Op>, k: nat, db: nat -> bool)
    requires AllOk(db) && PointsOk(w, ops) && k <= |ops|
    ensures PointOk(After(w, at, ops[..k], db))
    decreases k
  {
    hide PointOk, Apply, AllOk;
    if k > 0 {
      AfterCons(w, at, ops[..k], db);
      PointsPrefix(Apply(w, ops[0], true), at + 1, ops[1..], k - 1, db);
      assert ops[..k][1..] == ops[1..][..k - 1];
    }
  }

  lemma {:induction false} PointsAppend(w: World, at: nat, a: seq<Op>, b: seq<Op>, db: nat -> bool)
    requires AllOk(db) && PointsOk(w, a) && PointsOk(After(w, at, a, db), b)
    ensures PointsOk(w, a + b)
    decreases |a|
  {
    hide PointOk, Apply, AllOk;
    if a == [] {
      assert a + b == b;
    } else {
      AfterCons(w, at, a, db);
      hide After;
      PointsAppend(Apply(w, a[0], true), at + 1, a[1..], b, db);
      assert (a + b)[1..] == a[1..] + b;
    }
  }

  lemma FailurePoints(w: World, retried: nat, rest: seq<Op>)
    requires PointOk(w) && Waiting(w, retried)
    requires PointsOk(Failing(w, retried), rest)
    ensures PointsOk(w, [SetStatus(Processing, false)] + FailureOps(retried) + rest)
  {
    var a, b := SetStatus(Processing, false), RecordAttempt(Attempt(retried + 1, false));
    var w1 := Apply(w, a, true);
    var w2 := Apply(w1, b, true);
    FailedRowsOfFailures(retried);
    FailedRowsSnoc(w1.attempts, b.attempt);
    PointsCons(w2, CountRetry, rest);
    PointsCons(w1, b, [CountRetry] + rest);
    PointsCons(w, a, [b] + ([CountRetry] + rest));
    assert [a] + FailureOps(retried) + rest == [a] + ([b] + ([CountRetry] + rest));
  }

  /** The world after the failure has been recorded, and before the status says so. */
  ghost function Failing(w: World, retried: nat): World {
    w.(row := w.row.(status := Processing, hasError := true, retryCount := retried + 1),
       attempts := Failures(retried) + [Attempt(retried + 1, false)],
       trail := w.trail + [Processing])
  }

  lemma FailingPoint(w: World, retried: nat)
    requires PointOk(w) && Waiting(w, retried)
    ensures var v := Failing(w, retried);
            PointOk(v) && FailedRows(v.attempts) == retried + 1 == v.row.retryCount
            && v.events == [] && v.row.providerMsgId == ""
  {
    FailedRowsOfFailures(retried);
    FailedRowsSnoc(Failures(retried), Attempt(retried + 1, false));
  }

  lemma PermanentPoints(w: World, task: Task, retried: nat)
    requires PointOk(w) && Waiting(w, retried) && task.decodable
    ensures PointsOk(w, AttemptOps(task, retried, PermanentFailure))
  {
    FailingPoint(w, retried);
    hide Waiting, PointsOk, FailedRows;
    var v := Failing(w, retried);
    var e, fail := Emit(Event(NotificationFailed, retried + 1)), SetStatus(Failed, true);
    var v1 := Apply(v, fail, true);
    var v2 := Apply(v1, e, true);
    var rest := if retried < task.maxRetry then [] else [fail] + [];
    PointsNil(v2);
    PointsNil(Apply(v2, fail, true));
    PointsCons(v2, fail, []);
    PointsCons(v1, e, rest);
    PointsCons(v, fail, [e] + rest);
    FailurePoints(w, retried, [fail] + ([e] + rest));
    assert AttemptOps(task, retried, PermanentFailure) ==
           [SetStatus(Processing, false)] + FailureOps(retried) + ([fail] + ([e] + rest));
  }

  lemma RetryablePoints(w: World, task: Task, retried: nat, o: Outcome)
    requires PointOk(w) && Waiting(w, retried) && task.decodable && (o.TransportError? || o.TransientFailure?)
    ensures PointsOk(w, AttemptOps(task, retried, o))
  {
    FailingPoint(w, retried);
    hide Waiting, PointsOk, FailedRows, AttemptOps, FailureOps;
    var v := Failing(w, retried);
    var e, fail, again :=
      Emit(Event(NotificationFailed, retried + 1)), SetStatus(Failed, true), SetStatus(Retrying, true);
    var v1 := Apply(v, again, true);
    var v2 := Apply(v1, fail, true);
    var rest := if retried < task.maxRetry then [] else [fail] + ([e] + []);
    PointsNil(v1);
    PointsNil(Apply(v2, e, true));
    PointsCons(v2, e, []);
    PointsCons(v1, fail, [e] + []);
    PointsCons(v, again, rest);
    FailurePoints(w, retried, [again] + rest);
    RetryableOps(task, retried, o);
  }

  lemma RetryableOps(task: Task, retried: nat, o: Outcome)
    requires task.decodable && (o.TransportError? || o.TransientFailure?)
    ensures var e, fail, again :=
              Emit(Event(NotificationFailed, retried + 1)), SetStatus(Failed, true), SetStatus(Retrying, true);
            AttemptOps(task, retried, o) ==
            [SetStatus(Processing, false)] + FailureOps(retried)
            + ([again] + if retried < task.maxRetry then [] else [fail] + ([e] + []))
  {
  }

  /** What follows once the row says Delivered. */
  lemma DeliveredPoints(w: World, e: Event, id: string)
    requires PointOk(w) && w.row.status == Delivered && w.events == [] && e.kind == NotificationDelivered
    ensures PointsOk(w, (if id != "" then [StoreMsgId(id), UpsertMetric(id)] else []) + [Emit(e)])
  {
    hide PointsOk, FailedRows;
    if id == "" {
      PointsNil(Apply(w, Emit(e), true));
      PointsCons(w, Emit(e), []);
      assert [] + [Emit(e)] == [Emit(e)] + [];
    } else {
      var w1 := Apply(w, StoreMsgId(id), true);
      var w2 := Apply(w1, UpsertMetric(id), true);
      PointsNil(Apply(w2, Emit(e), true));
      PointsCons(w2, Emit(e), []);
      PointsCons(w1, UpsertMetric(id), [Emit(e)] + []);
      PointsCons(w, StoreMsgId(id), [UpsertMetric(id)] + ([Emit(e)] + []));
      assert [StoreMsgId(id), UpsertMetric(id)] + [Emit(e)] ==
             [StoreMsgId(id)] + ([UpsertMetric(id)] + ([Emit(e)] + []));
    }
  }

  lemma SentPoints(w: World, task: Task, retried: nat, o: Outcome)
    requires PointOk(w) && Waiting(w, retried) && task.decodable && o.Sent?
    ensures PointsOk(w, AttemptOps(task, retried, o))
  {
    var a, b := SetStatus(Processing, false), RecordAttempt(Attempt(retried + 1, true));
    var e := Event(NotificationDelivered, retried + 1);
    var w1 := Apply(w, a, true);
    var w2 := Apply(w1, b, true);
    FailedRowsSnoc(w1.attempts, b.attempt);
    FailedRowsOfFailures(retried);
    hide PointsOk, FailedRows, AttemptOps, Lawful;
    var rest := (if o.msgId != "" then [StoreMsgId(o.msgId), UpsertMetric(o.msgId)] else []) + [Emit(e)];
    DeliveredPoints(Apply(w2, MarkDelivered, true), e, o.msgId);
    PointsCons(w2, MarkDelivered, rest);
    PointsCons(w1, b, [MarkDelivered] + rest);
    PointsCons(w, a, [b] + ([MarkDelivered] + rest));
    SentOps(task, retried, o);
  }

  lemma SentOps(task: Task, retried: nat, o: Outcome)
    requires task.decodable && o.Sent?
    ensures var rest := (if o.msgId != "" then [StoreMsgId(o.msgId), UpsertMetric(o.msgId)] else [])
                        + [Emit(Event(NotificationDelivered, retried + 1))];
            AttemptOps(task, retried, o) ==
            [SetStatus(Processing, false)] + ([RecordAttempt(Attempt(retried + 1, true))] + ([MarkDelivered] + rest))
  {
  }

  lemma LookupFailedPoints(w: World, task: Task, retried: nat, o: Outcome)
    requires PointOk(w) && Waiting(w, retried) && task.decodable && !ReachesSend(o)
    ensures PointsOk(w, AttemptOps(task, retried, o))
  {
    var a, fail := SetStatus(Processing, false), SetStatus(Failed, true);
    var w1 := Apply(w, a, true);
    var rest := if retried < task.maxRetry then [] else [fail];
    assert PointsOk(w1, rest) by {
      if retried >= task.maxRetry {
        PointsCons(w1, fail, []);
        assert [fail] + [] == [fail];
      }
    }
    PointsCons(w, a, rest);
    assert AttemptOps(task, retried, o) == [a] + rest;
  }

  lemma AttemptPoints(w: World, task: Task, retried: nat, o: Outcome)
    requires Waiting(w, retried) && task.decodable
    ensures PointsOk(w, AttemptOps(task, retried, o))
  {
    hide AttemptOps, PointsOk;
    FailedRowsOfFailures(retried);
    match o
    case ConfigMissing => LookupFailedPoints(w, task, retried, o);
    case ProviderMissing => LookupFailedPoints(w, task, retried, o);
    case TransportError => RetryablePoints(w, task, retried, o);
    case TransientFailure => RetryablePoints(w, task, retried, o);
    case PermanentFailure => PermanentPoints(w, task, retried);
    case Sent(_) => SentPoints(w, task, retried, o);
  }

  lemma {:induction false} RunPoints(w: World, at: nat, task: Task, outcome: nat -> Outcome, retried: nat,
                                     db: nat -> bool)
    requires AllOk(db) && task.decodable && retried <= task.maxRetry && Waiting(w, retried)
    ensures PointsOk(w, RunOps(task, outcome, retried))
    decreases task.maxRetry - retried
  {
    hide AttemptOps, Waiting, PointsOk;
    var o := outcome(retried);
    RunUnfolds(task, outcome, retried);
    AttemptPoints(w, task, retried, o);
    if Retries(task, retried, o) {
      var ops := AttemptOps(task, retried, o);
      RetriedAttempt(w, at, task, retried, o, db);
      RunPoints(After(w, at, ops, db), at + |ops|, task, outcome, retried + 1, db);
      PointsAppend(w, at, ops, RunOps(task, outcome, retried + 1), db);
    }
  }

  /** At every point of every run, wherever the worker might die, the tables are in step with each other. */
  lemma TablesStayInStep(task: Task, outcome: nat -> Outcome, db: nat -> bool, k: nat)
    requires AllOk(db) && task.decodable && k <= |RunOps(task, outcome, 0)|
    ensures PointOk(After(FRESH, 0, RunOps(task, outcome, 0)[..k], db))
  {
    assert Failures(0) == [];
    RunPoints(FRESH, 0, task, outcome, 0, db);
    PointsPrefix(FRESH, 0, RunOps(task, outcome, 0), k, db);
  }

  // ---------------------------------------------------------------- the workers, in place

  /** The dispatcher, the error handler and the tables they share, driven by the queue. */
  class Worker {
    const task: Task
    const db: nat -> bool
    var calls: nat
    var row: Row
    var attempts: seq<Attempt>
    var metrics: seq<string>
    var events: seq<Event>
    var trail: seq<Status>
    ghost var log: seq<Op>

    ghost function View(): World
      reads this
    {
      World(row, attempts, metrics, events, trail)
    }

    ghost predicate Valid()
      reads this
    {
      calls == |log| && View() == After(FRESH, 0, log, db)
    }

    constructor (task: Task, db: nat -> bool)
      ensures Valid() && log == [] && this.task == task && this.db == db
    {
      this.task, this.db := task, db;
      calls, log := 0, [];
      row, attempts, metrics, events, trail := FRESH.row, [], [], [], [Pending];
    }

    method UpdateStatus(status: Status, withError: bool) returns (ok: bool)
      requires Valid()
      modifies this
      ensures Valid() && log == old(log) + [SetStatus(status, withError)] && ok == db(old(calls))
      ensures row == if ok then old(row).(status := status, hasError := withError) else old(row)
      ensures attempts == old(attempts) && metrics == old(metrics) && events == old(events)
    {
      ok := db(calls);
      if ok {
        row := row.(status := status, hasError := withError);
        trail := trail + [status];
      }
      calls, log := calls + 1, log + [SetStatus(status, withError)];
    }

    method MarkDelivered() returns (ok: bool)
      requires Valid()
      modifies this
      ensures Valid() && log == old(log) + [Op.MarkDelivered] && ok == db(old(calls))
      ensures row == if ok then old(row).(status := Delivered, deliveredAt := true) else old(row)
      ensures attempts == old(attempts) && metrics == old(metrics) && events == old(events)
    {
      ok := db(calls);
      if ok {
        row := row.(status := Delivered, deliveredAt := true);
        trail := trail + [Delivered];
      }
      calls, log := calls + 1, log + [Op.MarkDelivered];
    }

    method IncrementRetry() returns (ok: bool)
      requires Valid()
      modifies this
      ensures Valid() && log == old(log) + [CountRetry] && ok == db(old(calls))
      ensures row == if ok then old(row).(retryCount := old(row).retryCount + 1, hasError := true) else old(row)
      ensures attempts == old(attempts) && metrics == old(metrics) && events == old(events)
    {
      ok := db(calls);
      if ok {
        row := row.(retryCount := row.retryCount + 1, hasError := true);
      }
      calls, log := calls + 1, log + [CountRetry];
    }

    method CreateAttempt(attempt: Attempt) returns (ok: bool)
      requires Valid()
      modifies this
      ensures Valid() && log == old(log) + [RecordAttempt(attempt)] && ok == db(old(calls))
      ensures attempts == if ok then old(attempts) + [attempt] else old(attempts)
      ensures row == old(row) && metrics == old(metrics) && events == old(events)
    {
      ok := db(calls);
      if ok {
        attempts := attempts + [attempt];
      }
      calls, log := calls + 1, log + [RecordAttempt(attempt)];
    }

    method UpsertMetric(id: string)
      requires Valid()
      modifies this
      ensures Valid() && log == old(log) + [Op.UpsertMetric(id)]
      ensures metrics == if db(old(calls)) then old(metrics) + [id] else old(metrics)
      ensures row == old(row) && attempts == old(attempts) && events == old(events)
    {
      if db(calls) {
        metrics := metrics + [id];
      }
      calls, log := calls + 1, log + [Op.UpsertMetric(id)];
    }

    method RecordMessageId(id: string)
      requires Valid()
      modifies this
      ensures Valid() && log == old(log) + [StoreMsgId(id), Op.UpsertMetric(id)]
      ensures row == if db(old(calls)) then old(row).(providerMsgId := id) else old(row)
      ensures metrics == if db(old(calls) + 1) then old(metrics) + [id] else old(metrics)
      ensures attempts == old(attempts) && events == old(events)
    {
      if db(calls) {
        row := row.(providerMsgId := id);
      }
      calls, log := calls + 1, log + [StoreMsgId(id)];
      UpsertMetric(id);
    }

    method EmitTerminalEvent(kind: EventKind, attempts: nat)
      requires Valid()
      modifies this
      ensures Valid() && log == old(log) + [Emit(Event(kind, attempts))]
      ensures events == old(events) + [Event(kind, attempts)]
      ensures row == old(row) && this.attempts == old(this.attempts) && metrics == old(metrics)
    {
      events := events + [Event(kind, attempts)];
      calls, log := calls + 1, log + [Emit(Event(kind, attempts))];
    }

    method HandleNotificationDeliver(retried: nat, o: Outcome) returns (ret: Return)
      requires Valid()
      modifies this
      ensures Valid() && log == old(log) + (if task.decodable then DeliverOps(retried, o) else [])
      ensures ret == DeliverReturn(task, o)
    {
      hide After, SuccessOps, FailureOps;
      if !task.decodable {
        return Err(true);
      }
      var attemptNumber := retried + 1;
      var _ := UpdateStatus(Processing, false);
      match o {
        case ConfigMissing => ret := Err(true);
        case ProviderMissing => ret := Err(true);
        case TransportError => ret := HandleRetryableFailure(attemptNumber);
        case TransientFailure => ret := HandleRetryableFailure(attemptNumber);
        case PermanentFailure => ret := HandlePermanentFailure(attemptNumber);
        case Sent(id) =>
          RecordSuccessfulDelivery(attemptNumber, id);
          ret := Ok;
      }
    }

    /** `handleDeliveryError`, and `handleProviderFailure` when the failure is not permanent. */
    method HandleRetryableFailure(attemptNumber: nat) returns (ret: Return)
      requires Valid() && attemptNumber > 0
      modifies this
      ensures Valid() && log == old(log) + (FailureOps(attemptNumber - 1) + [SetStatus(Retrying, true)])
      ensures ret == Err(false)
    {
      var _ := CreateAttempt(Attempt(attemptNumber, false));
      var _ := IncrementRetry();
      var _ := UpdateStatus(Retrying, true);
      ret := Err(false);
    }

    method HandlePermanentFailure(attemptNumber: nat) returns (ret: Return)
      requires Valid() && attemptNumber > 0
      modifies this
      ensures Valid()
      ensures log == old(log) + (FailureOps(attemptNumber - 1) +
                                          [SetStatus(Failed, true), Emit(Event(NotificationFailed, attemptNumber))])
      ensures ret == Err(true)
    {
      var _ := CreateAttempt(Attempt(attemptNumber, false));
      var _ := IncrementRetry();
      var _ := UpdateStatus(Failed, true);
      EmitTerminalEvent(NotificationFailed, attemptNumber);
      ret := Err(true);
    }

    method RecordSuccessfulDelivery(attemptNumber: nat, id: string)
      requires Valid() && attemptNumber > 0
      modifies this
      ensures Valid() && log == old(log) + SuccessOps(attemptNumber - 1, id)
    {
      hide After;
      var _ := CreateAttempt(Attempt(attemptNumber, true));
      var _ := MarkDelivered();
      if id != "" {
        RecordMessageId(id);
      }
      EmitTerminalEvent(NotificationDelivered, attemptNumber);
    }

    /** `failed` is the task that failed; the end of a webhook event is only logged. */
    method HandleError(kind: TaskKind, failed: Task, retried: nat, skip: bool)
      requires Valid()
      modifies this
      ensures Valid()
      ensures log == old(log) + if kind == NotificationDeliver then ErrorOps(failed, retried, skip) else []
    {
      if retried < failed.maxRetry || kind != NotificationDeliver || !failed.decodable {
        return;
      }
      var _ := UpdateStatus(Failed, true);
      if skip {
        return;
      }
      EmitTerminalEvent(NotificationFailed, retried + 1);
    }

    /** asynq's side of one attempt: the error handler runs on every failure, then archive or retry. */
    method ProcessOnce(retried: nat, o: Outcome) returns (again: bool)
      requires Valid()
      modifies this
      ensures Valid() && log == old(log) + AttemptOps(task, retried, o)
      ensures again == Retries(task, retried, o)
    {
      hide After, DeliverOps, ErrorOps;
      var ret := HandleNotificationDeliver(retried, o);
      if ret == Ok {
        return false;
      }
      HandleError(NotificationDeliver, task, retried, ret.skip);
      again := !(ret.skip || retried >= task.maxRetry);
    }

    /** The queue's loop over the attempts. */
    method Drive(outcome: nat -> Outcome) returns (attempted: nat)
      requires Valid() && log == []
      modifies this
      ensures Valid() && log == RunOps(task, outcome, 0)
      ensures attempted == LastRetried(task, outcome, 0) + 1
    {
      hide AttemptOps, RunOps, LastRetried, Retries, After;
      var retried, again := 0, true;
      while again
        invariant Valid() && retried <= task.maxRetry
        invariant LastRetried(task, outcome, retried) == LastRetried(task, outcome, 0)
        invariant again ==> log + RunOps(task, outcome, retried) == RunOps(task, outcome, 0)
        invariant !again ==> log == RunOps(task, outcome, 0) && LastRetried(task, outcome, 0) == retried
        decreases again, task.maxRetry - retried
      {
        RunUnfolds(task, outcome, retried);
        again := ProcessOnce(retried, outcome(retried));
        if again {
          retried := retried + 1;
        }
      }
      attempted := retried + 1;
    }

    method Process(outcome: nat -> Outcome) returns (attempted: nat)
      requires Valid() && log == []
      modifies this
      ensures Valid() && log == RunOps(task, outcome, 0)
      ensures attempted == LastRetried(task, outcome, 0) + 1 <= task.maxRetry + 1
      ensures events == FinalEvents(task, attempted - 1, outcome(attempted - 1))
      ensures AllOk(db) && task.decodable ==> Settled(View(), task, attempted - 1, outcome(attempted - 1))
    {
      hide AttemptOps, RunOps, Settled, After;
      attempted := Drive(outcome);
      RunConclusion(task, outcome, db);
    }
  }
}
