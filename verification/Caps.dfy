/**
 Per-tenant caps on webhook endpoints and API keys. Both repositories run the same kind of transaction:
 lock the tenant row, count, insert, commit. Deletes and revocations are single statements that take no
 lock. Transactions of any number of tenants interleave step by step and may be abandoned at any point.
 */
module Caps {
  import opened Common

  datatype Kind = WebhookEndpoint | ApiKey

  datatype Row = Row(tenant: nat, kind: Kind, revoked: bool)

  datatype Failure = NotFound | LimitReached | Aborted

  /** `Counted` and `Inserted` remember the count the transaction read. */
  datatype Stage =
    | Begun
    | Locked
    | Counted(n: nat)
    | Inserted(n: nat)
    | Committed
    | RolledBack(why: Failure)

  datatype Txn = Txn(tenant: nat, kind: Kind, id: nat, stage: Stage)

  /** `rows` are the committed ones; `locks` maps a tenant to the transaction holding its row. */
  datatype World = World(tenants: set<nat>, rows: map<nat, Row>, locks: map<nat, nat>, txns: seq<Txn>)

  /** The cap for each tenant and kind, fixed for the run. */
  type Limits = (nat, Kind) -> nat

  datatype Action =
    | Begin(tenant: nat, kind: Kind, id: nat)
    | Lock(i: nat)
    | Count(i: nat)
    | Insert(i: nat)
    | Commit(i: nat)
    | Abort(i: nat)
    | DeleteEndpoint(id: nat, owner: nat)
    | RevokeKey(id: nat, owner: nat)

  ghost function Live(rows: map<nat, Row>, tenant: nat, kind: Kind): set<nat> {
    set id | id in rows && rows[id].tenant == tenant && rows[id].kind == kind && !rows[id].revoked
  }

  /** What `SELECT COUNT(*)` returns for the tenant; revoked keys are not counted. */
  ghost function CountLive(rows: map<nat, Row>, tenant: nat, kind: Kind): nat {
    |Live(rows, tenant, kind)|
  }

  predicate Holding(s: Stage) {
    s.Locked? || s.Counted? || s.Inserted?
  }

  predicate Open(s: Stage) {
    s.Begun? || Holding(s)
  }

  predicate Enabled(w: World, a: Action) {
    match a
    case Begin(_, _, _) => true
    case Lock(i) =>
      i < |w.txns| && w.txns[i].stage.Begun? && (w.txns[i].tenant in w.tenants ==> w.txns[i].tenant !in w.locks)
    case Count(i) => i < |w.txns| && w.txns[i].stage.Locked?
    case Insert(i) => i < |w.txns| && w.txns[i].stage.Counted?
    case Commit(i) => i < |w.txns| && w.txns[i].stage.Inserted?
    case Abort(i) => i < |w.txns| && Open(w.txns[i].stage)
    case DeleteEndpoint(_, _) => true
    case RevokeKey(_, _) => true
  }

  function Move(w: World, i: nat, s: Stage): World
    requires i < |w.txns|
  {
    w.(txns := w.txns[i := w.txns[i].(stage := s)])
  }

  /** Commit and rollback both release the row lock. */
  function Finish(w: World, i: nat, s: Stage): World
    requires i < |w.txns|
  {
    var released := if Holding(w.txns[i].stage) then w.locks - {w.txns[i].tenant} else w.locks;
    Move(w, i, s).(locks := released)
  }

  ghost function Next(w: World, a: Action, limit: Limits): World
    requires Enabled(w, a)
  {
    match a
    case Begin(t, k, id) => w.(txns := w.txns + [Txn(t, k, id, Begun)])
    case Lock(i) =>
      var t := w.txns[i].tenant;
      if t !in w.tenants then Finish(w, i, RolledBack(NotFound))
      else Move(w, i, Locked).(locks := w.locks[t := i])
    case Count(i) =>
      var n := CountLive(w.rows, w.txns[i].tenant, w.txns[i].kind);
      if n >= limit(w.txns[i].tenant, w.txns[i].kind) then Finish(w, i, RolledBack(LimitReached))
      else Move(w, i, Counted(n))
    case Insert(i) =>
      if w.txns[i].id in w.rows then Finish(w, i, RolledBack(Aborted))
      else Move(w, i, Inserted(w.txns[i].stage.n))
    case Commit(i) =>
      var x := w.txns[i];
      if x.id in w.rows then Finish(w, i, RolledBack(Aborted))
      else Finish(w, i, Committed).(rows := w.rows[x.id := Row(x.tenant, x.kind, false)])
    case Abort(i) => Finish(w, i, RolledBack(Aborted))
    case DeleteEndpoint(id, owner) =>
      if id in w.rows && w.rows[id].kind.WebhookEndpoint? && w.rows[id].tenant == owner
      then w.(rows := w.rows - {id}) else w
    case RevokeKey(id, owner) =>
      if id in w.rows && w.rows[id].kind.ApiKey? && w.rows[id].tenant == owner && !w.rows[id].revoked
      then w.(rows := w.rows[id := w.rows[id].(revoked := true)]) else w
  }

  ghost function Exec(w: World, run: seq<Action>, limit: Limits): Option<World> {
    if run == [] then Some(w)
    else
      var before := Exec(w, run[..|run| - 1], limit);
      var a := run[|run| - 1];
      if before.Some? && Enabled(before.value, a) then Some(Next(before.value, a, limit)) else None
  }

  // ---------------------------------------------------------------- counting

  lemma CountGrows(rows: map<nat, Row>, id: nat, r: Row, tenant: nat, kind: Kind)
    requires id !in rows
    ensures CountLive(rows[id := r], tenant, kind) ==
            CountLive(rows, tenant, kind) + if r.tenant == tenant && r.kind == kind && !r.revoked then 1 else 0
  {
    var before, after := Live(rows, tenant, kind), Live(rows[id := r], tenant, kind);
    assert id !in before;
    forall x
      ensures x in after <==> x in before || (r.tenant == tenant && r.kind == kind && !r.revoked && x == id)
    {
    }
    if r.tenant == tenant && r.kind == kind && !r.revoked {
      assert after == before + {id};
    } else {
      assert after == before;
    }
  }

  lemma CountOfFewer(rows: map<nat, Row>, rows': map<nat, Row>, tenant: nat, kind: Kind)
    requires Live(rows', tenant, kind) <= Live(rows, tenant, kind)
    ensures CountLive(rows', tenant, kind) <= CountLive(rows, tenant, kind)
  {
    var a, b := Live(rows', tenant, kind), Live(rows, tenant, kind);
    assert b == a + (b - a);
  }

  // ---------------------------------------------------------------- the invariant

  /** A tenant's lock is held by exactly the transaction that is between its lock and its end. */
  ghost predicate LocksOk(w: World) {
    && (forall i :: 0 <= i < |w.txns| && Holding(w.txns[i].stage) ==>
          w.txns[i].tenant in w.locks && w.locks[w.txns[i].tenant] == i)
    && (forall t :: t in w.locks ==>
          w.locks[t] < |w.txns| && w.txns[w.locks[t]].tenant == t && Holding(w.txns[w.locks[t]].stage))
  }

  /** The count a transaction read is still an upper bound, and leaves room for one more row. */
  ghost predicate CountsOk(w: World, limit: Limits) {
    forall i :: 0 <= i < |w.txns| && (w.txns[i].stage.Counted? || w.txns[i].stage.Inserted?) ==>
      CountLive(w.rows, w.txns[i].tenant, w.txns[i].kind) <= w.txns[i].stage.n < limit(w.txns[i].tenant, w.txns[i].kind)
  }

  /** Every count is within its cap, or no higher than it was among the rows `first`. */
  ghost predicate Within(rows: map<nat, Row>, first: map<nat, Row>, limit: Limits) {
    forall t: nat, k: Kind :: CountLive(rows, t, k) <= limit(t, k) || CountLive(rows, t, k) <= CountLive(first, t, k)
  }

  ghost predicate Inv(w: World, first: map<nat, Row>, limit: Limits) {
    LocksOk(w) && CountsOk(w, limit) && Within(w.rows, first, limit)
  }

  /** A transaction that ends gives its lock back; one that never had it changes nothing. */
  lemma FinishKeepsLocks(w: World, i: nat, s: Stage)
    requires LocksOk(w) && i < |w.txns| && !Holding(s)
    ensures LocksOk(Finish(w, i, s))
  {
  }

  lemma MoveKeepsLocks(w: World, i: nat, s: Stage)
    requires LocksOk(w) && i < |w.txns| && Holding(s) && Holding(w.txns[i].stage)
    ensures LocksOk(Move(w, i, s))
  {
  }

  lemma AcquireKeepsLocks(w: World, i: nat)
    requires LocksOk(w) && i < |w.txns| && w.txns[i].stage.Begun? && w.txns[i].tenant !in w.locks
    ensures LocksOk(Move(w, i, Locked).(locks := w.locks[w.txns[i].tenant := i]))
  {
  }

  lemma BeginKeepsLocks(w: World, t: nat, k: Kind, id: nat)
    requires LocksOk(w)
    ensures LocksOk(w.(txns := w.txns + [Txn(t, k, id, Begun)]))
  {
  }

  lemma LocksKept(w: World, a: Action, limit: Limits)
    requires LocksOk(w) && Enabled(w, a)
    ensures LocksOk(Next(w, a, limit))
  {
    hide CountLive, Finish, Move, LocksOk;
    match a
    case Begin(t, k, id) => BeginKeepsLocks(w, t, k, id);
    case Lock(i) =>
      if w.txns[i].tenant in w.tenants {
        AcquireKeepsLocks(w, i);
      } else {
        FinishKeepsLocks(w, i, RolledBack(NotFound));
      }
    case Count(i) =>
      FinishKeepsLocks(w, i, RolledBack(LimitReached));
      MoveKeepsLocks(w, i, Counted(CountLive(w.rows, w.txns[i].tenant, w.txns[i].kind)));
    case Insert(i) =>
      FinishKeepsLocks(w, i, RolledBack(Aborted));
      MoveKeepsLocks(w, i, Inserted(w.txns[i].stage.n));
    case Commit(i) =>
      FinishKeepsLocks(w, i, RolledBack(Aborted));
      FinishKeepsLocks(w, i, Committed);
      LocksIgnoreRows(Finish(w, i, Committed), w.rows[w.txns[i].id := Row(w.txns[i].tenant, w.txns[i].kind, false)]);
    case Abort(i) => FinishKeepsLocks(w, i, RolledBack(Aborted));
    case DeleteEndpoint(id, _) => LocksIgnoreRows(w, Next(w, a, limit).rows);
    case RevokeKey(id, _) => LocksIgnoreRows(w, Next(w, a, limit).rows);
  }

  lemma LocksIgnoreRows(w: World, rows: map<nat, Row>)
    requires LocksOk(w)
    ensures LocksOk(w.(rows := rows))
  {
  }

  /** Deletes and revocations only take live rows away. */
  lemma ShrinkKeeps(w: World, rows': map<nat, Row>, first: map<nat, Row>, limit: Limits)
    requires CountsOk(w, limit) && Within(w.rows, first, limit)
    requires forall t: nat, k: Kind :: Live(rows', t, k) <= Live(w.rows, t, k)
    ensures CountsOk(w.(rows := rows'), limit) && Within(rows', first, limit)
  {
    forall t: nat, k: Kind
      ensures CountLive(rows', t, k) <= CountLive(w.rows, t, k)
    {
      CountOfFewer(w.rows, rows', t, k);
    }
  }

  /** The committing transaction holds its tenant's lock, so nobody else's count is disturbed. */
  lemma CommitKeeps(w: World, i: nat, first: map<nat, Row>, limit: Limits)
    requires Inv(w, first, limit) && Enabled(w, Commit(i)) && w.txns[i].id !in w.rows
    ensures var v := Next(w, Commit(i), limit); CountsOk(v, limit) && Within(v.rows, first, limit)
  {
    hide CountLive;
    var x := w.txns[i];
    var v := Next(w, Commit(i), limit);
    var r := Row(x.tenant, x.kind, false);
    forall t: nat, k: Kind
      ensures CountLive(v.rows, t, k) <= limit(t, k) || CountLive(v.rows, t, k) <= CountLive(first, t, k)
    {
      CountGrows(w.rows, x.id, r, t, k);
    }
    forall j | 0 <= j < |v.txns| && (v.txns[j].stage.Counted? || v.txns[j].stage.Inserted?)
      ensures CountLive(v.rows, v.txns[j].tenant, v.txns[j].kind) <= v.txns[j].stage.n
              < limit(v.txns[j].tenant, v.txns[j].kind)
    {
      assert j != i && v.txns[j] == w.txns[j];
      assert w.txns[j].tenant != x.tenant;
      CountGrows(w.rows, x.id, r, v.txns[j].tenant, v.txns[j].kind);
    }
  }

  /** Steps that leave the rows alone keep the counts; only `Count` records a new one. */
  lemma OtherStepsKeepCounts(w: World, a: Action, limit: Limits)
    requires CountsOk(w, limit) && Enabled(w, a) && Next(w, a, limit).rows == w.rows
    ensures CountsOk(Next(w, a, limit), limit)
  {
    hide CountLive, LocksOk, Within;
    var v := Next(w, a, limit);
    forall j | 0 <= j < |v.txns| && (v.txns[j].stage.Counted? || v.txns[j].stage.Inserted?)
      ensures CountLive(v.rows, v.txns[j].tenant, v.txns[j].kind) <= v.txns[j].stage.n
              < limit(v.txns[j].tenant, v.txns[j].kind)
    {
      assert j < |w.txns|;
    }
  }

  lemma StepKeepsInv(w: World, a: Action, first: map<nat, Row>, limit: Limits)
    requires Inv(w, first, limit) && Enabled(w, a)
    ensures Inv(Next(w, a, limit), first, limit)
  {
    hide CountLive, LocksOk, CountsOk, Within;
    LocksKept(w, a, limit);
    if a.Commit? && w.txns[a.i].id !in w.rows {
      CommitKeeps(w, a.i, first, limit);
    } else if a.DeleteEndpoint? || a.RevokeKey? {
      ShrinkKeeps(w, Next(w, a, limit).rows, first, limit);
    } else {
      OtherStepsKeepCounts(w, a, limit);
    }
  }

  /** Before any transaction has begun. */
  ghost predicate Initial(w: World) {
    w.txns == [] && w.locks == map[]
  }

  lemma {:induction false} RunKeepsInv(start: World, run: seq<Action>, limit: Limits)
    requires Initial(start) && Exec(start, run, limit).Some?
    ensures Inv(Exec(start, run, limit).value, start.rows, limit)
    decreases |run|
  {
    hide CountLive, Next;
    if run != [] {
      var init := run[..|run| - 1];
      RunKeepsInv(start, init, limit);
      StepKeepsInv(Exec(start, init, limit).value, run[|run| - 1], start.rows, limit);
    }
  }

  /**
   In every interleaving of creates, deletes, revocations, aborts and crashes, of both kinds and over
   any number of tenants: a tenant that starts within one of its caps stays within it, and one that
   starts above, after a downgrade say, never climbs higher. No tenant's excess affects another's cap.
   */
  lemma CapsHold(start: World, run: seq<Action>, limit: Limits, tenant: nat, kind: Kind)
    requires Initial(start) && Exec(start, run, limit).Some?
    ensures var first, last := CountLive(start.rows, tenant, kind),
                               CountLive(Exec(start, run, limit).value.rows, tenant, kind);
            last <= if first <= limit(tenant, kind) then limit(tenant, kind) else first
  {
    hide CountLive;
    RunKeepsInv(start, run, limit);
  }

  /** Two transactions of one tenant are never both between lock and commit, whatever they create. */
  lemma OneHolderPerTenant(start: World, run: seq<Action>, limit: Limits, i: nat, j: nat)
    requires Initial(start) && Exec(start, run, limit).Some?
    requires var w := Exec(start, run, limit).value;
             && i < |w.txns| && j < |w.txns| && Holding(w.txns[i].stage) && Holding(w.txns[j].stage)
             && w.txns[i].tenant == w.txns[j].tenant
    ensures i == j
  {
    RunKeepsInv(start, run, limit);
  }

  // ---------------------------------------------------------------- truthful answers

  /** A creation is reported as done exactly if its row is new, and then it is there; otherwise no row changes. */
  lemma CommitIsTruthful(w: World, i: nat, limit: Limits)
    requires Enabled(w, Commit(i))
    ensures var x, v := w.txns[i], Next(w, Commit(i), limit);
            && (v.txns[i].stage.Committed? <==> x.id !in w.rows)
            && (v.txns[i].stage.Committed? ==> v.rows == w.rows[x.id := Row(x.tenant, x.kind, false)])
            && (!v.txns[i].stage.Committed? ==> v.rows == w.rows)
  {
  }

  // ---------------------------------------------------------------- removal

  function Removal(id: nat, kind: Kind, owner: nat): Action {
    if kind.WebhookEndpoint? then DeleteEndpoint(id, owner) else RevokeKey(id, owner)
  }

  /**
   Deleting an endpoint or revoking a key, by its owner, takes exactly that one off the count and leaves
   every other row alone; the endpoint's row goes and the key's stays, revoked. By anyone else, or a second
   time, it does nothing.
   */
  lemma RemovalIsExact(w: World, id: nat, owner: nat, kind: Kind, limit: Limits)
    ensures var v := Next(w, Removal(id, kind, owner), limit);
            && v.txns == w.txns && v.locks == w.locks
            && (forall other :: other != id ==> (other in v.rows <==> other in w.rows))
            && (forall other :: other != id && other in w.rows ==> v.rows[other] == w.rows[other])
            && if id in Live(w.rows, owner, kind)
               then && CountLive(v.rows, owner, kind) == CountLive(w.rows, owner, kind) - 1
                    && if kind.WebhookEndpoint? then id !in v.rows
                       else id in v.rows && v.rows[id] == Row(owner, kind, true)
               else kind.ApiKey? || !(id in w.rows && w.rows[id].kind == kind && w.rows[id].tenant == owner) ==> v == w
  {
    var v := Next(w, Removal(id, kind, owner), limit);
    if id in Live(w.rows, owner, kind) {
      assert Live(v.rows, owner, kind) == Live(w.rows, owner, kind) - {id};
    }
  }

  // ---------------------------------------------------------------- isolation

  /** The action is, or begins, something done on behalf of the tenant. */
  predicate ActsFor(a: Action, tenant: nat) {
    match a
    case Begin(t, _, _) => t == tenant
    case DeleteEndpoint(_, owner) => owner == tenant
    case RevokeKey(_, owner) => owner == tenant
    case _ => false
  }

  ghost function RowsOf(rows: map<nat, Row>, tenant: nat): map<nat, Row> {
    map id | id in rows && rows[id].tenant == tenant :: rows[id]
  }

  /** Nothing that other tenants do, in any interleaving, adds, removes or revokes a row of this one. */
  lemma {:induction false} TenantsAreIsolated(start: World, run: seq<Action>, limit: Limits, tenant: nat)
    requires Initial(start) && Exec(start, run, limit).Some?
    requires forall i :: 0 <= i < |run| ==> !ActsFor(run[i], tenant)
    ensures var w := Exec(start, run, limit).value;
            && RowsOf(w.rows, tenant) == RowsOf(start.rows, tenant)
            && forall i :: 0 <= i < |w.txns| ==> w.txns[i].tenant != tenant
    decreases |run|
  {
    hide CountLive;
    if run != [] {
      var init := run[..|run| - 1];
      TenantsAreIsolated(start, init, limit, tenant);
      OthersTouchNothing(Exec(start, init, limit).value, run[|run| - 1], limit, tenant);
    }
  }

  lemma OthersTouchNothing(w: World, a: Action, limit: Limits, tenant: nat)
    requires Enabled(w, a) && !ActsFor(a, tenant)
    requires forall i :: 0 <= i < |w.txns| ==> w.txns[i].tenant != tenant
    ensures var v := Next(w, a, limit);
            && RowsOf(v.rows, tenant) == RowsOf(w.rows, tenant)
            && forall i :: 0 <= i < |v.txns| ==> v.txns[i].tenant != tenant
  {
    hide CountLive;
  }

  /** Lock, count, insert, commit with nothing in between. */
  ghost function CreateAlone(w: World, i: nat, limit: Limits): World
    requires Enabled(w, Lock(i)) && w.txns[i].tenant in w.tenants
  {
    var w1 := Next(w, Lock(i), limit);
    var w2 := Next(w1, Count(i), limit);
    if !w2.txns[i].stage.Counted? then w2
    else
      var w3 := Next(w2, Insert(i), limit);
      if !w3.txns[i].stage.Inserted? then w3 else Next(w3, Commit(i), limit)
  }

  /** Uncontended, a create adds exactly its row if there is room and refuses without a trace otherwise. */
  lemma CreateAloneIsExact(w: World, i: nat, limit: Limits)
    requires LocksOk(w) && Enabled(w, Lock(i)) && w.txns[i].tenant in w.tenants && w.txns[i].id !in w.rows
    ensures var x := w.txns[i];
            var v := CreateAlone(w, i, limit);
            && v.locks == w.locks
            && if CountLive(w.rows, x.tenant, x.kind) < limit(x.tenant, x.kind)
               then v.rows == w.rows[x.id := Row(x.tenant, x.kind, false)] && v.txns[i].stage == Committed
               else v.rows == w.rows && v.txns[i].stage == RolledBack(LimitReached)
  {
    hide CountLive;
    assert w.locks[w.txns[i].tenant := i] - {w.txns[i].tenant} == w.locks;
  }
}
