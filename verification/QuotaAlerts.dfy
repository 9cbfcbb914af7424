/**
 The quota service as one caller at a time sees it: `Reserve` and `notifyThreshold` on the counter and
 the alert keys of one tenant and period, and how often the billing webhook fires over a whole run.
 */
module QuotaAlerts {
  import opened Common

  datatype Alert = Alert(percent: int, usage: int)

  /** `keys` holds the percentages whose deduplication key exists; an empty webhook URL disables alerts. */
  datatype Ledger = Ledger(limit: int, alerting: bool, counter: int, keys: set<int>, alerts: seq<Alert>)

  datatype Decision = Decision(allowed: bool, used: int, limit: int)

  /** `limit * pct / 100` in int64 arithmetic. */
  function Threshold(limit: int, percent: int): int {
    Quotient(Wrap(limit * percent), 100)
  }

  predicate Crossed(prev: int, now: int, limit: int, percent: int) {
    prev < Threshold(limit, percent) <= now
  }

  /**
   At most one alert per percentage: SET NX lets only the first crossing through. Any error from it
   suppresses the alert, and one whose reply was lost leaves the key behind as well.
   */
  function Notified(l: Ledger, used: int, percent: int, setNx: Reply := Accepted): Ledger {
    if !l.alerting || percent in l.keys || setNx.Refused? then l
    else l.(keys := l.keys + {percent}, alerts := l.alerts + if setNx.Lost? then [] else [Alert(percent, used)])
  }

  /** An atomic check-and-add followed by the alerts it gives rise to; `nx` answers each SET NX. */
  function Reserved(l: Ledger, n: nat, nx: int -> Reply := percent => Accepted): Ledger {
    var used := l.counter + n;
    if used > l.limit then Notified(l, l.counter, 100, nx(100))
    else
      var l1 := l.(counter := used);
      var l2 := if Crossed(l.counter, used, l.limit, 80) then Notified(l1, used, 80, nx(80)) else l1;
      if used == l.limit then Notified(l2, used, 100, nx(100)) else l2
  }

  /** What the outside world answers to one reservation. */
  datatype Answers = Answers(entitled: bool, expired: bool, incr: Reply, decr: Reply, nx: int -> Reply)

  class Service {
    const limit: int
    const alerting: bool
    var counter: int
    var keys: set<int>
    var alerts: seq<Alert>

    ghost function View(): Ledger
      reads this
    {
      Ledger(limit, alerting, counter, keys, alerts)
    }

    constructor (limit: int, alerting: bool)
      ensures View() == Ledger(limit, alerting, 0, {}, [])
    {
      this.limit, this.alerting := limit, alerting;
      counter, keys, alerts := 0, {}, [];
    }

    method NotifyThreshold(used: int, percent: int, setNx: Reply)
      modifies this`keys, this`alerts
      ensures View() == Notified(old(View()), used, percent, setNx)
    {
      if !alerting || percent in keys || setNx.Refused? {
        return;
      }
      keys := keys + {percent};
      if setNx.Lost? {
        return;
      }
      alerts := alerts + [Alert(percent, used)];
    }

    /**
     IncrBy, compare, then DecrBy if over. If both commands take effect this amounts to `Reserved`; a
     rollback that does not leaves the counter too high and nothing else. No decision is made, and no
     alert sent, without entitlements, after the period's end or on an error from IncrBy.
     */
    method Reserve(n: nat, o: Answers) returns (d: Option<Decision>)
      modifies this
      ensures d.Some? <==> o.entitled && !o.expired && o.incr.Accepted?
      ensures d.None? ==> View() == old(View()).(counter :=
                          if o.entitled && !o.expired && o.incr.Lost? then old(counter) + n else old(counter))
      ensures d.Some? ==>
                && (d.value.allowed <==> old(counter) + n <= limit)
                && d.value.limit == limit
                && d.value.used == Reserved(old(View()), n, o.nx).counter
                && View() == Reserved(old(View()), n, o.nx).(counter :=
                   if d.value.allowed || o.decr.Refused? then old(counter) + n else old(counter))
    {
      if !o.entitled || o.expired {
        return None;
      }
      if !o.incr.Refused? {
        counter := counter + n;
      }
      if !o.incr.Accepted? {
        return None;
      }
      var used := counter;
      if used > limit {
        var rolledBack := used - n;
        if !o.decr.Refused? {
          counter := counter - n;
        }
        NotifyThreshold(rolledBack, 100, o.nx(100));
        return Some(Decision(false, rolledBack, limit));
      }
      var prev := used - n;
      if Crossed(prev, used, limit, 80) {
        NotifyThreshold(used, 80, o.nx(80));
      }
      if used == limit {
        NotifyThreshold(used, 100, o.nx(100));
      }
      d := Some(Decision(true, used, limit));
    }

    /** The negative branch corrects with a second command, leaving the counter at zero. */
    method Refund(n: nat)
      modifies this`counter
      ensures counter == if old(counter) < n then 0 else old(counter) - n
    {
      counter := counter - n;
      if counter < 0 {
        counter := counter + -counter;
      }
    }
  }

  // ---------------------------------------------------------------- whole runs

  /** Requests served one after another, with no refund in between. */
  function Serve(l: Ledger, ns: seq<nat>): Ledger {
    if ns == [] then l else Reserved(Serve(l, ns[..|ns| - 1]), ns[|ns| - 1])
  }

  /** Some request of the run was turned down. */
  predicate AnyDenied(l: Ledger, ns: seq<nat>) {
    ns != [] && (
      || AnyDenied(l, ns[..|ns| - 1])
      || Serve(l, ns[..|ns| - 1]).counter + ns[|ns| - 1] > l.limit)
  }

  function Fired(alerts: seq<Alert>, percent: int): nat {
    if alerts == [] then 0
    else Fired(alerts[..|alerts| - 1], percent) + if alerts[|alerts| - 1].percent == percent then 1 else 0
  }

  lemma FiredSnoc(alerts: seq<Alert>, a: Alert, percent: int)
    ensures Fired(alerts + [a], percent) == Fired(alerts, percent) + if a.percent == percent then 1 else 0
  {
    assert (alerts + [a])[..|alerts|] == alerts;
  }

  /** Every key was set by exactly one alert. */
  ghost predicate KeysMatch(l: Ledger) {
    forall percent :: Fired(l.alerts, percent) == if percent in l.keys then 1 else 0
  }

  /** Every alert reports a usage that was reached, and the 80 % alert one at or past its threshold. */
  ghost predicate UsageOk(l: Ledger) {
    forall i :: 0 <= i < |l.alerts| ==>
      var a := l.alerts[i];
      && 0 <= a.usage <= l.counter
      && (a.percent == 80 || a.percent == 100)
      && (a.percent == 80 ==> Threshold(l.limit, 80) <= a.usage)
  }

  lemma NotifiedKeepsKeys(l: Ledger, used: int, percent: int)
    requires KeysMatch(l)
    ensures KeysMatch(Notified(l, used, percent))
  {
    forall p: int {
      FiredSnoc(l.alerts, Alert(percent, used), p);
    }
  }

  lemma ReservedKeepsKeys(l: Ledger, n: nat)
    requires KeysMatch(l)
    ensures KeysMatch(Reserved(l, n))
  {
    hide Crossed, Notified;
    var used := l.counter + n;
    var l1 := l.(counter := used);
    assert KeysMatch(l1);
    NotifiedKeepsKeys(l, l.counter, 100);
    NotifiedKeepsKeys(l1, used, 80);
    NotifiedKeepsKeys(Notified(l1, used, 80), used, 100);
    NotifiedKeepsKeys(l1, used, 100);
  }

  lemma {:induction false} ServeInvariant(limit: nat, ns: seq<nat>)
    requires forall i :: 0 <= i < |ns| ==> ns[i] >= 1
    ensures var start := Ledger(limit, true, 0, {}, []);
            var l := Serve(start, ns);
            && l.limit == limit && l.alerting && 0 <= l.counter <= limit
            && KeysMatch(l) && UsageOk(l)
            && (80 in l.keys <==> 0 < Threshold(limit, 80) <= l.counter)
            && (100 in l.keys <==> AnyDenied(start, ns) || (ns != [] && l.counter == limit))
    decreases |ns|
  {
    hide Threshold, KeysMatch;
    if ns == [] {
      NoAlertsYet(limit);
    } else {
      var l := Serve(Ledger(limit, true, 0, {}, []), ns[..|ns| - 1]);
      ServeInvariant(limit, ns[..|ns| - 1]);
      ReservedKeepsKeys(l, ns[|ns| - 1]);
    }
  }

  lemma NoAlertsYet(limit: nat)
    ensures KeysMatch(Ledger(limit, true, 0, {}, []))
  {
  }

  /** In int64 arithmetic the threshold is the floor of four fifths wherever the product fits. */
  lemma ThresholdIsFloor(limit: nat)
    requires FitsInt64(limit * 80)
    ensures Threshold(limit, 80) == limit * 80 / 100 <= limit
  {
  }

  /**
   Over a whole refund-free run of non-overlapping reservations, starting an unused period:
   the 80 % alert fires exactly once if usage reached a positive threshold and otherwise never; the
   100 % alert fires exactly once if the limit was hit or a request was denied, and otherwise never. No
   other alert fires, and each reports a usage that was really reached.
   */
  lemma AlertsFireExactlyOnce(limit: nat, ns: seq<nat>)
    requires forall i :: 0 <= i < |ns| ==> ns[i] >= 1
    ensures var start := Ledger(limit, true, 0, {}, []);
            var end := Serve(start, ns);
            && Fired(end.alerts, 80) == (if 0 < Threshold(limit, 80) <= end.counter then 1 else 0)
            && Fired(end.alerts, 100) == (if AnyDenied(start, ns) || (ns != [] && end.counter == limit) then 1 else 0)
            && UsageOk(end)
            && (FitsInt64(limit * 80) ==> Threshold(limit, 80) == limit * 80 / 100)
  {
    ServeInvariant(limit, ns);
    if FitsInt64(limit * 80) {
      ThresholdIsFloor(limit);
    }
  }

  /** What calls for an alert: a request that crosses 80 %, one that hits the limit, or one that is denied. */
  predicate CalledFor(before: int, n: nat, limit: int, a: Alert) {
    var used := before + n;
    if used > limit then a == Alert(100, before)
    else (a == Alert(80, used) && before < Threshold(limit, 80) <= used) || (a == Alert(100, used) && used == limit)
  }

  /**
   Every alert of such a run was called for by one of its requests and reports the usage it met: the
   counter as it then stood, or, if the request was denied, as it was left.
   */
  lemma {:induction false} AlertsReportWhatHappened(limit: nat, ns: seq<nat>, a: Alert)
    requires var start := Ledger(limit, true, 0, {}, []); a in Serve(start, ns).alerts
    ensures var start := Ledger(limit, true, 0, {}, []);
            exists i :: 0 <= i < |ns| && CalledFor(Serve(start, ns[..i]).counter, ns[i], limit, a)
    decreases |ns|
  {
    hide Threshold;
    var start := Ledger(limit, true, 0, {}, []);
    if ns != [] {
      var k := |ns| - 1;
      var before := Serve(start, ns[..k]);
      ServeKeepsLimit(start, ns[..k]);
      if a in before.alerts {
        AlertsReportWhatHappened(limit, ns[..k], a);
        var i :| 0 <= i < k && CalledFor(Serve(start, ns[..k][..i]).counter, ns[..k][i], limit, a);
        assert ns[..k][..i] == ns[..i];
      } else {
        assert CalledFor(before.counter, ns[k], limit, a);
      }
    }
  }

  lemma {:induction false} ServeKeepsLimit(l: Ledger, ns: seq<nat>)
    ensures Serve(l, ns).limit == l.limit && Serve(l, ns).alerting == l.alerting
    decreases |ns|
  {
    if ns != [] {
      ServeKeepsLimit(l, ns[..|ns| - 1]);
    }
  }

  /** A request that crosses 80 % and hits the limit at once raises both alerts, the lower first. */
  lemma BothAlertsInOrder(l: Ledger, n: nat)
    requires l.alerting && l.keys == {} && l.counter + n == l.limit && Crossed(l.counter, l.limit, l.limit, 80)
    ensures Reserved(l, n).alerts == l.alerts + [Alert(80, l.limit), Alert(100, l.limit)]
  {
  }

  /** A step of an arbitrary history: a reservation with whatever answers, or a counter changed by others. */
  datatype Event = Reservation(n: nat, nx: int -> Reply) | Elsewhere(counter: int)

  function History(l: Ledger, es: seq<Event>): Ledger {
    if es == [] then l
    else
      var before := History(l, es[..|es| - 1]);
      match es[|es| - 1]
      case Reservation(n, nx) => Reserved(before, n, nx)
      case Elsewhere(c) => before.(counter := c)
  }

  /** No percentage is reported more often than its key was set, and none at all without a webhook. */
  ghost predicate Restrained(l: Ledger) {
    forall percent :: Fired(l.alerts, percent) <= if l.alerting && percent in l.keys then 1 else 0
  }

  lemma NotifiedRestrains(l: Ledger, used: int, percent: int, setNx: Reply)
    requires Restrained(l)
    ensures Restrained(Notified(l, used, percent, setNx))
  {
    forall p: int {
      FiredSnoc(l.alerts, Alert(percent, used), p);
    }
    assert l.alerts + [] == l.alerts;
  }

  lemma ReservedRestrains(l: Ledger, n: nat, nx: int -> Reply)
    requires Restrained(l)
    ensures Restrained(Reserved(l, n, nx))
  {
    hide Crossed, Notified;
    var used := l.counter + n;
    var l1 := l.(counter := used);
    assert Restrained(l1);
    NotifiedRestrains(l, l.counter, 100, nx(100));
    NotifiedRestrains(l1, used, 80, nx(80));
    NotifiedRestrains(Notified(l1, used, 80, nx(80)), used, 100, nx(100));
    NotifiedRestrains(l1, used, 100, nx(100));
  }

  /**
   Whatever the counter does in between, refunds, lost commands and reconciles included, and whatever
   SET NX answers: each percentage is reported at most once in a period.
   */
  lemma {:induction false} AlertsNeverRepeat(l: Ledger, es: seq<Event>)
    requires l.alerts == []
    ensures Restrained(History(l, es))
    decreases |es|
  {
    if es != [] {
      AlertsNeverRepeat(l, es[..|es| - 1]);
      var before := History(l, es[..|es| - 1]);
      match es[|es| - 1]
      case Reservation(n, nx) => ReservedRestrains(before, n, nx);
      case Elsewhere(c) => assert Restrained(before.(counter := c));
    }
  }
}
