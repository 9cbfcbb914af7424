/**
 The message quota over a whole billing period: stretches of overlapping requests with a night of
 maintenance between any two of them. A night purges rows past the retention window and then overwrites
 the counter with the number of the period's rows that are left, so the limit depends on which rows these
 are. Rows also leave with a deleted channel, at any time.

 A stretch runs from one reconcile to the next. The purge that belongs to a reconcile comes a fixed time
 before it, and takes its cutoff then.
 */
module QuotaPeriod {
  import opened Common
  import opened Quota
  import Retention

  /**
   The requests since the last reconcile, as they stand, with the creation times of the rows they stored;
   and how many rows of the period went since the reconcile before that, in a purge and with a channel.
   */
  datatype Stretch = Stretch(purged: nat, cascaded: nat, world: World, born: seq<int>)

  type History = seq<Stretch>

  function Stored(s: Stretch): nat {
    Total(s.world.procs, StoredBy)
  }

  /** Sums over the stretches of a period. */
  function Sum(h: History, f: Stretch -> nat): nat {
    if h == [] then 0 else Sum(h[..|h| - 1], f) + f(h[|h| - 1])
  }

  function Purged(h: History): nat {
    Sum(h, (s: Stretch) => s.purged)
  }

  function Cascaded(h: History): nat {
    Sum(h, (s: Stretch) => s.cascaded)
  }

  function StoredIn(h: History): nat {
    Sum(h, Stored)
  }

  function Queued(h: History): nat {
    Sum(h, (s: Stretch) => Total(s.world.procs, QueuedBy))
  }

  function Lost(h: History): nat {
    Sum(h, (s: Stretch) => Total(s.world.procs, LostOnSend))
  }

  function Unreserved(h: History): nat {
    Sum(h, (s: Stretch) => Total(s.world.procs, Shortfall))
  }

  /** The rows of the period that are still in the table. */
  function Rows(h: History): int {
    StoredIn(h) - Purged(h) - Cascaded(h)
  }

  /**
   No request is under way, so the night's count holds when requests resume. One that has merely arrived
   has touched nothing, and counts as arriving in the next stretch.
   */
  predicate Quiescent(w: World) {
    forall p :: p in w.procs ==> p.phase.Arrived? || p.phase.Closed?
  }

  /** A period so far: each stretch begins with the counter its night's reconcile wrote, the first with zero. */
  ghost predicate Legal(limit: int, h: History) {
    h != [] ==>
      var init, last := h[..|h| - 1], h[|h| - 1];
      && Legal(limit, init)
      && (init != [] ==> Quiescent(init[|init| - 1].world))
      && last.purged + last.cascaded <= Rows(init) && |last.born| == Stored(last)
      && Reachable(last.world) && last.world.limit == limit
      && last.world.base == Rows(init) - last.purged - last.cascaded
  }

  /**
   What a night does to one tenant whose deletion, count and counter write all work: the reconcile writes
   the rows of the period there were, less those that the purge before it removed.
   */
  lemma NightWritesRowsLeft(ns: Retention.Notifications, done: set<nat>, t: nat, plans: map<nat, Retention.Plan>)
    requires done <= plans.Keys && t in done
    ensures var p := plans[t];
            Retention.Usage(Retention.Kept(ns, done, plans), t, p.periodStart, p.periodEnd) ==
            Retention.Usage(ns, t, p.periodStart, p.periodEnd) - |Retention.PurgedOf(ns, t, p)|
  {
    hide Retention.Kept;
    var p := plans[t];
    Retention.PurgedUsage(ns, done, t, plans);
    var all, left := Retention.CreatedIn(ns, t, p.periodStart, p.periodEnd),
                     Retention.CreatedIn(ns, t, Retention.Max(p.periodStart, p.cutoff), p.periodEnd);
    assert all == left + Retention.PurgedOf(ns, t, p);
  }

  /** No request of the period carries an undercounted body. */
  predicate Honest(h: History) {
    forall i :: 0 <= i < |h| ==> forall p :: p in h[i].world.procs ==> !Undercounted(p.req)
  }

  // ---------------------------------------------------------------- the bound

  lemma {:induction false} QueuedHasRows(limit: int, h: History)
    requires Legal(limit, h)
    ensures Queued(h) <= StoredIn(h)
    decreases |h|
  {
    hide Reachable, Total;
    if h != [] {
      QueuedHasRows(limit, h[..|h| - 1]);
      QueuedIsStored(h[|h| - 1].world);
    }
  }

  /**
   Over a whole period the queued tasks exceed the message limit by no more than the single sends whose
   reply was lost, what undercounted requests did not reserve, and the period's rows that were gone before
   a reconcile counted them, in a purge or with a deleted channel. A reconcile alone never breaks the
   limit, for every task has its row.
   */
  lemma {:induction false} QueuedInPeriod(limit: int, h: History)
    requires Legal(limit, h)
    ensures Queued(h) <= (if limit < 0 then 0 else limit) + Lost(h) + Unreserved(h)
                         + Purged(h) + Cascaded(h)
    decreases |h|
  {
    hide Reachable, Total;
    if h != [] {
      var init, last := h[..|h| - 1], h[|h| - 1];
      QueuedInPeriod(limit, init);
      QueuedHasRows(limit, init);
      QueuedTasksNeverExceedLimit(last.world);
    }
  }

  lemma {:induction false} HonestReserves(h: History)
    requires Honest(h)
    ensures Unreserved(h) == 0
    decreases |h|
  {
    hide Total;
    if h != [] {
      HonestReserves(h[..|h| - 1]);
      TotalOfZeros(h[|h| - 1].world.procs, Shortfall);
    }
  }

  // ---------------------------------------------------------------- building periods

  lemma SumsSnoc(h: History, s: Stretch)
    ensures Queued(h + [s]) == Queued(h) + Total(s.world.procs, QueuedBy)
    ensures Lost(h + [s]) == Lost(h) + Total(s.world.procs, LostOnSend)
    ensures Purged(h + [s]) == Purged(h) + s.purged
    ensures Cascaded(h + [s]) == Cascaded(h) + s.cascaded
    ensures Rows(h + [s]) == Rows(h) - s.purged - s.cascaded + Stored(s)
  {
    hide Total;
    assert (h + [s])[..|h|] == h;
  }

  ghost predicate Resting(limit: int, h: History) {
    Legal(limit, h) && Honest(h) && (h != [] ==> Quiescent(h[|h| - 1].world))
  }

  lemma LegalSnoc(limit: int, h: History, s: Stretch)
    requires Resting(limit, h) && s.purged + s.cascaded <= Rows(h) && |s.born| == Stored(s)
    requires Reachable(s.world) && s.world.limit == limit && s.world.base == Rows(h) - s.purged - s.cascaded
    ensures Legal(limit, h + [s])
  {
    hide Reachable, Rows, Quiescent, Honest, Stored;
    assert (h + [s])[..|h|] == h;
  }

  lemma HonestSnoc(h: History, s: Stretch)
    requires Honest(h) && forall p :: p in s.world.procs ==> p.req == Send(true)
    ensures Honest(h + [s])
  {
  }

  /**
   One more stretch of single sends at time `at`, `lost` of them with a lost reply, before which rows went
   in a purge and with a channel.
   */
  lemma Extend(limit: nat, h: History, purged: nat, cascaded: nat, lost: nat, paid: nat, at: int)
    returns (s: Stretch)
    requires Resting(limit, h) && purged + cascaded <= Rows(h)
    requires var base := Rows(h) - purged - cascaded; base + paid <= limit && (lost > 0 ==> base < limit)
    ensures Resting(limit, h + [s]) && s.purged == purged && s.cascaded == cascaded
    ensures s.born == seq(lost + paid, _ => at) && s.world.base == Rows(h) - purged - cascaded
    ensures Rows(h + [s]) == Rows(h) - purged - cascaded + lost + paid
    ensures Queued(h + [s]) == Queued(h) + lost + paid && Lost(h + [s]) == Lost(h) + lost
    ensures Purged(h + [s]) == Purged(h) + purged && Cascaded(h + [s]) == Cascaded(h) + cascaded
  {
    hide Exec, Total, Legal, Honest, Rows, Queued, Lost, Purged, Cascaded;
    var run, w := OverrunRun(limit, Rows(h) - purged - cascaded, lost, paid);
    s := Stretch(purged, cascaded, w, seq(lost + paid, _ => at));
    assert Reachable(w);
    SumsSnoc(h, s);
    LegalSnoc(limit, h, s);
    HonestSnoc(h, s);
  }

  lemma NothingYet(limit: int)
    ensures Resting(limit, []) && Rows([]) == Queued([]) == Lost([]) == Purged([]) == Cascaded([]) == 0
  {
  }

  /** Single sends, whose rows go one by one; what is still to go is the last row, if any. */
  lemma {:induction false} ForgottenSends(limit: nat, purged: nat, cascaded: nat) returns (h: History)
    requires limit >= 1
    ensures Resting(limit, h) && Queued(h) == purged + cascaded && Lost(h) == 0
    ensures Purged(h) == purged - (if cascaded == 0 < purged then 1 else 0)
    ensures Cascaded(h) == cascaded - (if cascaded > 0 then 1 else 0)
    ensures Rows(h) == if purged + cascaded > 0 then 1 else 0
    decreases purged + cascaded
  {
    hide Resting, Rows, Queued, Lost, Purged, Cascaded;
    if purged + cascaded == 0 {
      h := [];
      NothingYet(limit);
    } else {
      var p, c := if cascaded > 0 then purged else purged - 1, if cascaded > 0 then cascaded - 1 else 0;
      var init := ForgottenSends(limit, p, c);
      var s := Extend(limit, init, if c == 0 < p then 1 else 0, if c > 0 then 1 else 0, 0, 1, 0);
      h := init + [s];
    }
  }

  /** A period of honest requests with this many lost replies, purged rows and rows gone with a channel. */
  ghost predicate Losing(limit: int, h: History, lost: nat, purged: nat, cascaded: nat) {
    Legal(limit, h) && Honest(h) && Lost(h) == lost && Purged(h) == purged && Cascaded(h) == cascaded
  }

  /**
   The condition is exact. Of the periods with given numbers of lost replies, purged rows and rows gone
   with a channel, all stay within the limit if and only if these are zero; the excess that the bound
   allows is always reached.
   */
  lemma LimitHoldsExactlyWhen(limit: nat, lost: nat, purged: nat, cascaded: nat)
    requires limit >= 1
    ensures lost == purged == cascaded == 0 <==>
            forall h: History :: Losing(limit, h, lost, purged, cascaded) ==> Queued(h) <= limit
    ensures exists h: History ::
              Losing(limit, h, lost, purged, cascaded) && Queued(h) == limit + lost + purged + cascaded
  {
    hide Legal, Queued, Lost, Purged, Cascaded, Honest, Quiescent, Rows;
    forall h: History | Losing(limit, h, lost, purged, cascaded)
      ensures Queued(h) <= limit + lost + purged + cascaded
    {
      QueuedInPeriod(limit, h);
      HonestReserves(h);
    }
    var h := ForgottenSends(limit, purged, cascaded);
    var s := Extend(limit, h, if cascaded == 0 < purged then 1 else 0, if cascaded > 0 then 1 else 0, lost, limit, 0);
    assert Losing(limit, h + [s], lost, purged, cascaded);
  }

  /** One send a day and a purge overnight, at limit one: two tasks, with no reply lost. */
  lemma PurgeOverruns()
    ensures exists h: History :: Losing(1, h, 0, 1, 0) && |h| == 2 && Queued(h) == 2
  {
    hide Legal, Queued, Lost, Purged, Cascaded, Honest, Quiescent, Rows;
    NothingYet(1);
    var s := Extend(1, [], 0, 0, 0, 1, 0);
    var s' := Extend(1, [] + [s], 1, 0, 0, 1, 0);
    assert Losing(1, [] + [s] + [s'], 0, 1, 0);
  }

  /**
   On every plan, whatever its limit and retention: a tenant that uses up the limit each day and deletes
   the channel each evening has its limit again after every night, and nothing is left to be purged.
   */
  lemma {:induction false} ChannelDeletionOverruns(limit: nat, nights: nat) returns (h: History)
    ensures Resting(limit, h) && Losing(limit, h, 0, 0, nights * limit) && |h| == nights + 1
    ensures Queued(h) == (nights + 1) * limit && Rows(h) == limit
  {
    hide Legal, Queued, Lost, Purged, Cascaded, Honest, Quiescent, Rows;
    if nights == 0 {
      NothingYet(limit);
      var s := Extend(limit, [], 0, 0, 0, limit, 0);
      h := [] + [s];
    } else {
      var init := ChannelDeletionOverruns(limit, nights - 1);
      var s := Extend(limit, init, 0, limit, 0, limit, 0);
      h := init + [s];
    }
  }

  // ---------------------------------------------------------------- the clock

  const HOUR: int := 3_600_000_000_000
  const DAY: int := 24 * HOUR

  /** A period, the first purge whose reconcile falls after its start, the reconcile's lag, and the retention. */
  datatype Clock = Clock(start: int, end: int, first: int, lag: int, retention: nat)

  function PurgeTime(c: Clock, k: int): int {
    c.first + (k - 1) * DAY
  }

  function ReconcileTime(c: Clock, k: int): int {
    PurgeTime(c, k) + c.lag
  }

  function Cutoff(c: Clock, k: int): int {
    PurgeTime(c, k) - c.retention * DAY
  }

  /** Stretch k lies between the k-th reconcile and the next, stretch 0 between the start and the first. */
  function Begin(c: Clock, k: nat): int {
    if k == 0 then c.start else ReconcileTime(c, k)
  }

  predicate ClockOk(c: Clock) {
    0 <= c.lag < DAY && c.start < ReconcileTime(c, 1) <= c.start + DAY
  }

  /**
   Which rows a purge finds expired: all those of the stretches more than `retention` + 1 back, and of the
   stretch exactly that far back those that were stored before its own purge.
   */
  lemma ExpiresExactlyWhen(c: Clock, createdAt: int, i: nat, k: nat)
    requires ClockOk(c) && Begin(c, i) <= createdAt < ReconcileTime(c, i + 1)
    ensures createdAt < Cutoff(c, k) <==>
            i + c.retention + 1 < k || (i + c.retention + 1 == k && createdAt < PurgeTime(c, i + 1))
  {
    var d := k - (i + c.retention + 1);
    assert Cutoff(c, k) == PurgeTime(c, i + 1) + d * DAY;
  }

  /** The times among `born` from `cut` on. */
  function CountFrom(born: seq<int>, cut: int): nat {
    if born == [] then 0 else CountFrom(born[..|born| - 1], cut) + if born[|born| - 1] >= cut then 1 else 0
  }

  /** The rows stored in `h` that a purge with this cutoff leaves. */
  function Younger(h: History, cut: int): nat {
    if h == [] then 0 else Younger(h[..|h| - 1], cut) + CountFrom(h[|h| - 1].born, cut)
  }

  /**
   The history keeps to the clock and no channel is deleted: rows are stored within their stretch and the
   period, and every reconcile counts what its purge has left of the rows before it.
   */
  ghost predicate Timed(c: Clock, h: History) {
    h != [] ==>
      var k, init, last := |h| - 1, h[..|h| - 1], h[|h| - 1];
      && Timed(c, init)
      && Begin(c, k) < c.end && last.cascaded == 0
      && last.world.base == Younger(init, Cutoff(c, k))
      && forall b :: b in last.born ==> Begin(c, k) <= b < ReconcileTime(c, k + 1) && b < c.end
  }

  /** Nightly maintenance, honest requests, no lost reply and no deleted channel. */
  ghost predicate Ordinary(limit: int, c: Clock, h: History) {
    Legal(limit, h) && Honest(h) && Lost(h) == 0 && Timed(c, h)
  }

  lemma {:induction false} CountAll(born: seq<int>, cut: int)
    ensures CountFrom(born, cut) <= |born|
    ensures (forall b :: b in born ==> b >= cut) ==> CountFrom(born, cut) == |born|
    ensures (forall b :: b in born ==> b < cut) ==> CountFrom(born, cut) == 0
  {
    if born != [] {
      var init, last := born[..|born| - 1], born[|born| - 1];
      CountAll(init, cut);
      assert last in born && forall b :: b in init ==> b in born;
    }
  }

  lemma {:induction false} CountShrinks(born: seq<int>, cut: int, cut': int)
    requires cut <= cut'
    ensures CountFrom(born, cut') <= CountFrom(born, cut)
  {
    if born != [] {
      CountShrinks(born[..|born| - 1], cut, cut');
    }
  }

  lemma {:induction false} YoungerShrinks(h: History, cut: int, cut': int)
    requires cut <= cut'
    ensures Younger(h, cut') <= Younger(h, cut)
  {
    if h != [] {
      YoungerShrinks(h[..|h| - 1], cut, cut');
      CountShrinks(h[|h| - 1].born, cut, cut');
    }
  }

  lemma OrdinaryPrefix(limit: int, c: Clock, h: History)
    requires Ordinary(limit, c, h) && h != []
    ensures Ordinary(limit, c, h[..|h| - 1])
  {
    hide Total, Reachable, Younger, Rows;
  }

  // ---------------------------------------------------------------- the table behind the counts

  /** The creation times of all rows stored so far. */
  function Births(h: History): seq<int> {
    if h == [] then [] else Births(h[..|h| - 1]) + h[|h| - 1].born
  }

  lemma {:induction false} CountAppend(a: seq<int>, b: seq<int>, cut: int)
    ensures CountFrom(a + b, cut) == CountFrom(a, cut) + CountFrom(b, cut)
    decreases |b|
  {
    if b == [] {
      assert a + b == a;
    } else {
      assert (a + b)[..|a + b| - 1] == a + b[..|b| - 1];
      CountAppend(a, b[..|b| - 1], cut);
    }
  }

  lemma {:induction false} YoungerCountsBirths(h: History, cut: int)
    ensures Younger(h, cut) == CountFrom(Births(h), cut)
    decreases |h|
  {
    if h != [] {
      YoungerCountsBirths(h[..|h| - 1], cut);
      CountAppend(Births(h[..|h| - 1]), h[|h| - 1].born, cut);
    }
  }

  /** The tenant's rows of the period are those in `ids`, created at the times in `born`. */
  ghost predicate TableOf(ns: Retention.Notifications, t: nat, c: Clock, ids: seq<nat>, born: seq<int>) {
    && |ids| == |born| && (forall i, j :: 0 <= i < j < |ids| ==> ids[i] != ids[j])
    && (forall i :: 0 <= i < |ids| ==> ids[i] in ns && ns[ids[i]].tenant == t && ns[ids[i]].createdAt == born[i])
    && (forall i :: 0 <= i < |born| ==> c.start <= born[i] < c.end)
    && (forall id :: id in ns && ns[id].tenant == t && c.start <= ns[id].createdAt < c.end ==> id in ids)
  }

  function Chosen(ids: seq<nat>, born: seq<int>, cut: int): set<nat>
    requires |ids| == |born|
  {
    set i | 0 <= i < |ids| && born[i] >= cut :: ids[i]
  }

  lemma {:induction false} CountOfIds(ids: seq<nat>, born: seq<int>, cut: int)
    requires |ids| == |born| && forall i, j :: 0 <= i < j < |ids| ==> ids[i] != ids[j]
    ensures |Chosen(ids, born, cut)| == CountFrom(born, cut)
  {
    if ids == [] {
      assert Chosen(ids, born, cut) == {};
    } else {
      var n := |ids| - 1;
      CountOfIds(ids[..n], born[..n], cut);
      assert Chosen(ids, born, cut) == Chosen(ids[..n], born[..n], cut) + if born[n] >= cut then {ids[n]} else {};
    }
  }

  lemma UsageOfTable(ns: Retention.Notifications, t: nat, c: Clock, ids: seq<nat>, born: seq<int>, cut: int)
    requires TableOf(ns, t, c, ids, born)
    ensures Retention.Usage(ns, t, Retention.Max(c.start, cut), c.end) == CountFrom(born, cut)
  {
    CountOfIds(ids, born, cut);
    assert Retention.CreatedIn(ns, t, Retention.Max(c.start, cut), c.end) == Chosen(ids, born, cut);
  }

  /**
   The counter a stretch begins with is what its night writes: on a table that holds the rows stored before
   it, the purge at that night's cutoff and the reconcile after it leave exactly this number.
   */
  lemma ReconcileWritesBase(limit: int, c: Clock, h: History, ns: Retention.Notifications, t: nat, ids: seq<nat>)
    requires Ordinary(limit, c, h) && h != [] && TableOf(ns, t, c, ids, Births(h[..|h| - 1]))
    ensures var plans := map[t := Retention.Plan(c.start, c.end, Cutoff(c, |h| - 1))];
            Retention.Usage(Retention.Kept(ns, {t}, plans), t, c.start, c.end) == h[|h| - 1].world.base
  {
    hide Legal, Honest, Retention.Usage, Retention.Kept, TableOf, Cutoff;
    var init, cut := h[..|h| - 1], Cutoff(c, |h| - 1);
    Retention.PurgedUsage(ns, {t}, t, map[t := Retention.Plan(c.start, c.end, cut)]);
    UsageOfTable(ns, t, c, ids, Births(init), cut);
    YoungerCountsBirths(init, cut);
  }

  // ---------------------------------------------------------------- plans whose limit holds

  /** No purge of the period, of those whose reconcile it still sees, takes its cutoff past the start. */
  ghost predicate KeepsPeriod(c: Clock) {
    forall k: nat :: k >= 1 && ReconcileTime(c, k) < c.end ==> Cutoff(c, k) <= c.start
  }

  lemma {:induction false} NothingExpires(limit: int, c: Clock, h: History)
    requires Legal(limit, h) && Timed(c, h) && ClockOk(c) && KeepsPeriod(c)
    ensures Purged(h) == Cascaded(h) == 0
    ensures forall cut :: cut <= c.start ==> Younger(h, cut) == StoredIn(h)
    decreases |h|
  {
    hide Total, Reachable, Quiescent;
    if h != [] {
      var k, last := |h| - 1, h[|h| - 1];
      NothingExpires(limit, c, h[..k]);
      forall cut | cut <= c.start
        ensures CountFrom(last.born, cut) == |last.born|
      {
        CountAll(last.born, cut);
      }
    }
  }

  // ---------------------------------------------------------------- plans that allow more

  /** One more stretch of `paid` sends at its very beginning, after a night as the clock demands. */
  lemma NextStretch(limit: nat, c: Clock, h: History, paid: nat) returns (s: Stretch)
    requires Ordinary(limit, c, h) && Resting(limit, h) && ClockOk(c) && Begin(c, |h|) < c.end
    requires Younger(h, Cutoff(c, |h|)) + paid <= limit
    ensures Ordinary(limit, c, h + [s]) && Resting(limit, h + [s]) && Queued(h + [s]) == Queued(h) + paid
    ensures forall cut :: Younger(h + [s], cut) == Younger(h, cut) + if Begin(c, |h|) >= cut then paid else 0
  {
    hide Legal, Honest, Quiescent, Queued, Lost;
    var k := |h|;
    SurvivorsAreThere(limit, c, h);
    s := Extend(limit, h, Rows(h) - Younger(h, Cutoff(c, k)), 0, 0, paid, Begin(c, k));
    assert (h + [s])[..k] == h;
    forall cut
      ensures CountFrom(s.born, cut) == if Begin(c, k) >= cut then paid else 0
    {
      CountAll(s.born, cut);
    }
  }

  lemma SurvivorsAreThere(limit: int, c: Clock, h: History)
    requires Legal(limit, h) && Timed(c, h)
    ensures Younger(h, Cutoff(c, |h|)) <= Rows(h)
  {
    hide Total, Reachable, Quiescent;
    if h != [] {
      var k := |h| - 1;
      YoungerShrinks(h[..k], Cutoff(c, k), Cutoff(c, k + 1));
      CountAll(h[k].born, Cutoff(c, k + 1));
    }
  }

  /** Stretches in which nothing happens. */
  lemma {:induction false} IdleStretches(limit: nat, c: Clock, h: History, idle: nat) returns (h': History)
    requires Ordinary(limit, c, h) && Resting(limit, h) && ClockOk(c)
    requires idle > 0 ==> Begin(c, |h| + idle - 1) < c.end
    requires Younger(h, Cutoff(c, |h|)) <= limit
    ensures Ordinary(limit, c, h') && Resting(limit, h') && |h'| == |h| + idle && Queued(h') == Queued(h)
    ensures forall cut :: Younger(h', cut) == Younger(h, cut)
    decreases idle
  {
    hide Ordinary, Resting, Queued, Younger;
    if idle == 0 {
      h' := h;
    } else {
      var s := NextStretch(limit, c, h, 0);
      YoungerShrinks(h, Cutoff(c, |h|), Cutoff(c, |h| + 1));
      h' := IdleStretches(limit, c, h + [s], idle - 1);
    }
  }

  lemma NothingOrdinary(limit: int, c: Clock)
    ensures Ordinary(limit, c, []) && Resting(limit, []) && Queued([]) == 0
    ensures forall cut :: Younger([], cut) == 0
  {
  }

  /** If some purge reaches past the start, what was sent then can be sent again after its reconcile. */
  lemma SlotsComeBack(limit: nat, c: Clock, k: nat) returns (h: History)
    requires ClockOk(c) && k >= 1 && ReconcileTime(c, k) < c.end && Cutoff(c, k) > c.start
    ensures Ordinary(limit, c, h) && Queued(h) == 2 * limit
  {
    hide Ordinary, Resting, Queued, Younger;
    NothingOrdinary(limit, c);
    var s := NextStretch(limit, c, [], limit);
    var h1 := IdleStretches(limit, c, [] + [s], k - 1);
    var s' := NextStretch(limit, c, h1, limit);
    h := h1 + [s'];
  }

  /**
   What a plan must be like for its limit to hold. With maintenance every night, no reply lost and no
   channel deleted, honest requests stay within the limit in every history of the period if and only if
   no purge, of those whose reconcile falls in the period, takes its cutoff past the period's start.
   */
  lemma PlanHoldsExactlyWhen(limit: nat, c: Clock)
    requires limit >= 1 && ClockOk(c)
    ensures KeepsPeriod(c) <==> forall h: History :: Ordinary(limit, c, h) ==> Queued(h) <= limit
  {
    hide Queued, Lost, Honest, Legal, Timed;
    if KeepsPeriod(c) {
      forall h: History | Ordinary(limit, c, h)
        ensures Queued(h) <= limit
      {
        NothingExpires(limit, c, h);
        HonestReserves(h);
        QueuedInPeriod(limit, h);
      }
    } else {
      var k: nat :| k >= 1 && ReconcileTime(c, k) < c.end && Cutoff(c, k) > c.start;
      var h := SlotsComeBack(limit, c, k);
    }
  }

  /** The period is whole days long, and neither starts nor ends while maintenance is on. */
  predicate WholeDays(c: Clock, days: nat) {
    c.end == c.start + days * DAY && c.start < c.first && c.first + c.lag < c.start + DAY
  }

  /** In days: the retention must be at least as long as the period. */
  lemma DaysHoldExactlyWhen(limit: nat, c: Clock, days: nat)
    requires limit >= 1 && ClockOk(c) && WholeDays(c, days)
    ensures days <= c.retention <==> forall h: History :: Ordinary(limit, c, h) ==> Queued(h) <= limit
  {
    hide KeepsPeriod, Ordinary, Queued;
    PlanHoldsExactlyWhen(limit, c);
    KeepsPeriodInDays(c, days);
  }

  lemma KeepsPeriodInDays(c: Clock, days: nat)
    requires ClockOk(c) && WholeDays(c, days)
    ensures KeepsPeriod(c) <==> days <= c.retention
  {
    if days > c.retention {
      var k := c.retention + 1;
      assert ReconcileTime(c, k) < c.end && Cutoff(c, k) > c.start;
    }
  }

  // ---------------------------------------------------------------- how much more

  /** The tasks of the last `m` stretches. */
  function Recent(h: History, m: nat): nat {
    if h == [] || m == 0 then 0 else Recent(h[..|h| - 1], m - 1) + Total(h[|h| - 1].world.procs, QueuedBy)
  }

  lemma {:induction false} RecentGrows(h: History, m: nat)
    ensures Recent(h, m) <= Recent(h, m + 1)
  {
    hide Total;
    if h != [] && m > 0 {
      RecentGrows(h[..|h| - 1], m - 1);
    }
  }

  lemma {:induction false} RecentSplits(h: History, m: nat)
    requires m <= |h|
    ensures Queued(h) == Queued(h[..|h| - m]) + Recent(h, m)
    decreases m
  {
    hide Total;
    if m == 0 {
      assert h[..|h|] == h;
    } else {
      RecentSplits(h[..|h| - 1], m - 1);
      assert h[..|h| - 1][..|h| - m] == h[..|h| - m];
    }
  }

  /** Tasks of a stretch none of whose rows has expired are among the rows that count. */
  lemma {:induction false} RecentSurvives(limit: int, c: Clock, h: History, m: nat, k: nat)
    requires Legal(limit, h) && Timed(c, h) && ClockOk(c) && k + m <= |h| + c.retention
    ensures Recent(h, m) <= Younger(h, Cutoff(c, k))
    decreases m
  {
    hide Total, Reachable, Quiescent, Rows;
    if h != [] && m > 0 {
      var i, last := |h| - 1, h[|h| - 1];
      RecentSurvives(limit, c, h[..i], m - 1, k);
      forall b | b in last.born
        ensures b >= Cutoff(c, k)
      {
        ExpiresExactlyWhen(c, b, i, k);
      }
      CountAll(last.born, Cutoff(c, k));
      QueuedIsStored(last.world);
    }
  }

  /** Any `retention` + 1 stretches in a row queue no more than the limit. */
  lemma {:induction false} RecentWithinLimit(limit: nat, c: Clock, h: History)
    requires Ordinary(limit, c, h) && ClockOk(c)
    ensures Recent(h, c.retention + 1) <= limit
    decreases |h|
  {
    hide Total, Reachable, Quiescent, Rows, Honest, Younger;
    if h != [] {
      var init, last := h[..|h| - 1], h[|h| - 1];
      OrdinaryPrefix(limit, c, h);
      RecentWithinLimit(limit, c, init);
      RecentGrows(init, c.retention);
      RecentSurvives(limit, c, init, c.retention, |init|);
      StretchWithinRoom(limit, c, h);
    }
  }

  lemma StretchWithinRoom(limit: nat, c: Clock, h: History)
    requires Ordinary(limit, c, h) && h != []
    ensures var w := h[|h| - 1].world; Total(w.procs, QueuedBy) <= Room(w) && w.limit == limit
  {
    hide Total, Reachable, Quiescent, Rows, Undercounted;
    var w := h[|h| - 1].world;
    QueuedTasksNeverExceedLimit(w);
    TotalOfZeros(w.procs, Shortfall);
  }

  /** How many times the limit fits into `n` stretches: the ceiling of n / m. */
  function Uses(n: nat, m: nat): nat
    requires m >= 1
  {
    if n == 0 then 0 else if n <= m then 1 else Uses(n - m, m) + 1
  }

  lemma {:induction false} UsesIsCeiling(n: nat, m: nat)
    requires m >= 1
    ensures m * Uses(n, m) >= n && (n > 0 ==> m * (Uses(n, m) - 1) < n)
  {
    if n > m {
      UsesIsCeiling(n - m, m);
      assert m * Uses(n, m) == m * Uses(n - m, m) + m;
    }
  }

  lemma {:induction false} QueuedWithinUses(limit: nat, c: Clock, h: History)
    requires Ordinary(limit, c, h) && ClockOk(c)
    ensures Queued(h) <= limit * Uses(|h|, c.retention + 1)
    decreases |h|
  {
    hide Ordinary, Recent, Queued;
    var m := c.retention + 1;
    if h == [] {
      NothingOrdinary(limit, c);
    } else {
      var n := if |h| <= m then 0 else |h| - m;
      RecentWithinLimit(limit, c, h);
      PrefixOrdinary(limit, c, h, n);
      QueuedWithinUses(limit, c, h[..n]);
      RecentSplits(h, |h| - n);
      if |h| <= m {
        RecentWhole(h, m);
      }
      assert limit * Uses(|h|, m) == limit * Uses(n, m) + limit;
    }
  }

  lemma {:induction false} RecentWhole(h: History, m: nat)
    requires m >= |h|
    ensures Recent(h, m) == Recent(h, |h|)
  {
    hide Total;
    if h != [] {
      RecentWhole(h[..|h| - 1], m - 1);
    }
  }

  lemma {:induction false} PrefixOrdinary(limit: int, c: Clock, h: History, n: nat)
    requires Ordinary(limit, c, h) && n <= |h|
    ensures Ordinary(limit, c, h[..n])
    decreases |h|
  {
    hide Ordinary;
    if n == |h| {
      assert h[..n] == h;
    } else {
      OrdinaryPrefix(limit, c, h);
      PrefixOrdinary(limit, c, h[..|h| - 1], n);
      assert h[..|h| - 1][..n] == h[..n];
    }
  }

  /** The stretch `retention` + 1 back has expired, and times only grow. */
  lemma BusyTimes(c: Clock, j: nat, n: nat)
    requires ClockOk(c) && c.start < c.first && j < n && (j > 0 ==> n == j + c.retention + 1)
    ensures j > 0 ==> Begin(c, j - 1) < Cutoff(c, n - 1)
    ensures Cutoff(c, n - 1) < Cutoff(c, n)
    ensures forall i: nat :: i < n ==> Begin(c, i) <= Begin(c, n - 1)
  {
  }

  /** The limit used up at the beginning of every stretch that is a multiple of `retention` + 1 before the last. */
  lemma {:induction false} BusyPeriod(limit: nat, c: Clock, n: nat) returns (h: History)
    requires ClockOk(c) && c.start < c.first && (n > 0 ==> Begin(c, n - 1) < c.end)
    ensures Ordinary(limit, c, h) && Resting(limit, h) && |h| == n
    ensures Queued(h) == limit * Uses(n, c.retention + 1)
    ensures forall cut :: (n > 0 ==> cut > Begin(c, n - 1)) ==> Younger(h, cut) == 0
    ensures Younger(h, Cutoff(c, n)) <= limit
    decreases n
  {
    hide Ordinary, Resting, Queued, Younger, Cutoff, Begin;
    var m := c.retention + 1;
    if n == 0 {
      NothingOrdinary(limit, c);
      h := [];
    } else {
      var j := if n <= m then 0 else n - m;
      BusyTimes(c, j, n);
      var h0 := BusyPeriod(limit, c, j);
      var h1 := IdleStretches(limit, c, h0, n - 1 - j);
      var s := NextStretch(limit, c, h1, limit);
      h := h1 + [s];
      assert limit * Uses(n, m) == limit * Uses(j, m) + limit;
    }
  }

  /**
   How often a limit can be used. A period that does not start during maintenance admits, over its first
   `n` stretches, the limit times the ceiling of n / (retention + 1) tasks, and no more.
   */
  lemma MostThatIsQueued(limit: nat, c: Clock, n: nat)
    requires ClockOk(c) && c.start < c.first && (n > 0 ==> Begin(c, n - 1) < c.end)
    ensures forall h: History :: Ordinary(limit, c, h) && |h| == n ==> Queued(h) <= limit * Uses(n, c.retention + 1)
    ensures exists h: History ::
              Ordinary(limit, c, h) && |h| == n && Queued(h) == limit * Uses(n, c.retention + 1)
  {
    hide Ordinary, Queued, Uses;
    forall h: History | Ordinary(limit, c, h) && |h| == n
      ensures Queued(h) <= limit * Uses(n, c.retention + 1)
    {
      QueuedWithinUses(limit, c, h);
    }
    var h := BusyPeriod(limit, c, n);
  }

  /** The default plan, from midnight on the first, with maintenance at 03:00 and 03:30. */
  function FreePlan(start: int, days: nat): Clock {
    Clock(start, start + days * DAY, start + 3 * HOUR, HOUR / 2, 7)
  }

  /** It allows 1000 messages a calendar month; the code lets 4000 through, and not more. */
  lemma FreePlanOverruns(start: int, days: nat)
    requires 28 <= days <= 31
    ensures var c := FreePlan(start, days);
            && (exists h: History :: Ordinary(1000, c, h) && |h| == days + 1 && Queued(h) == 4000)
            && (forall h: History :: Ordinary(1000, c, h) ==> Queued(h) <= 4000)
  {
    hide Ordinary, Queued;
    var c := FreePlan(start, days);
    assert Uses(days - 23, 8) == 1 && Uses(days - 15, 8) == 2 && Uses(days - 7, 8) == 3 && Uses(days + 1, 8) == 4;
    MostThatIsQueued(1000, c, days + 1);
    forall h: History | Ordinary(1000, c, h)
      ensures Queued(h) <= 4000
    {
      StretchesOfPeriod(1000, c, h, days);
      QueuedWithinUses(1000, c, h);
      UsesGrow(|h|, days + 1, 8);
    }
  }

  lemma StretchesOfPeriod(limit: int, c: Clock, h: History, days: nat)
    requires Ordinary(limit, c, h) && ClockOk(c) && WholeDays(c, days)
    ensures |h| <= days + 1
  {
    hide Legal, Honest, Younger;
  }

  lemma {:induction false} UsesGrow(n: nat, n': nat, m: nat)
    requires n <= n' && m >= 1
    ensures Uses(n, m) <= Uses(n', m)
  {
    if n > m {
      UsesGrow(n - m, n' - m, m);
    }
  }
}
