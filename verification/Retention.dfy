/**
 Nightly maintenance: paging over the tenants, purging history past each tenant's retention window, and
 overwriting the usage counters with the database's count for the current period.
 */
module Retention {
  import opened Common

  const PAGE_SIZE: nat := 500

  datatype Notification = Notification(tenant: nat, channel: nat, createdAt: int)

  /** What the entitlements say of a tenant; `cutoff` is the start of its retention window. */
  datatype Plan = Plan(periodStart: int, periodEnd: int, cutoff: int)

  type Notifications = map<nat, Notification>

  /** Attempt and metric rows, by their own id, with the notification they belong to. */
  type Children = map<nat, nat>

  // ---------------------------------------------------------------- paging

  /** `LIMIT size OFFSET offset` over a list of tenants that stays put. */
  function Page(tenants: seq<nat>, offset: nat): seq<nat> {
    if offset >= |tenants| then []
    else if offset + PAGE_SIZE >= |tenants| then tenants[offset..]
    else tenants[offset..offset + PAGE_SIZE]
  }

  /** The tenants whose entitlements could be loaded, in order; the others are logged and skipped. */
  function Loaded(tenants: seq<nat>, plans: map<nat, Plan>): seq<nat> {
    if tenants == [] then []
    else Loaded(tenants[..|tenants| - 1], plans)
         + if tenants[|tenants| - 1] in plans then [tenants[|tenants| - 1]] else []
  }

  lemma {:induction false} LoadedAppend(a: seq<nat>, b: seq<nat>, plans: map<nat, Plan>)
    ensures Loaded(a + b, plans) == Loaded(a, plans) + Loaded(b, plans)
    decreases |b|
  {
    if b == [] {
      assert a + b == a;
    } else {
      assert (a + b)[..|a + b| - 1] == a + b[..|b| - 1];
      LoadedAppend(a, b[..|b| - 1], plans);
    }
  }

  lemma {:induction false} LoadedMembers(tenants: seq<nat>, plans: map<nat, Plan>)
    ensures forall t :: t in Loaded(tenants, plans) <==> t in tenants && t in plans
    ensures (forall i, j :: 0 <= i < j < |tenants| ==> tenants[i] != tenants[j]) ==>
              forall i, j :: 0 <= i < j < |Loaded(tenants, plans)| ==>
                Loaded(tenants, plans)[i] != Loaded(tenants, plans)[j]
    decreases |tenants|
  {
    if tenants != [] {
      var init := tenants[..|tenants| - 1];
      LoadedMembers(init, plans);
      assert tenants == init + [tenants[|tenants| - 1]];
    }
  }

  /** Consecutive pages tile the list. */
  lemma PageTiles(tenants: seq<nat>, offset: nat)
    requires offset <= |tenants|
    ensures var end := if offset + PAGE_SIZE >= |tenants| then |tenants| else offset + PAGE_SIZE;
            tenants[..offset] + Page(tenants, offset) == tenants[..end]
  {
  }

  method VisitPage(page: seq<nat>, plans: map<nat, Plan>) returns (order: seq<nat>)
    ensures order == Loaded(page, plans)
  {
    order := [];
    for k := 0 to |page|
      invariant order == Loaded(page[..k], plans)
    {
      assert page[..k + 1][..k] == page[..k];
      if page[k] in plans {
        order := order + [page[k]];
      }
    }
    assert page[..|page|] == page;
  }

  /**
   `forEachTenant` over a stable list of any length: it terminates and hands each loadable tenant to the
   callback exactly once, in order. `order` is the sequence of callbacks made. If the query for the page
   at some offset fails, which `lists` says, the loop ends there with an error.
   */
  method ForEachTenant(tenants: seq<nat>, plans: map<nat, Plan>, lists: nat -> bool)
    returns (order: seq<nat>, seen: nat, failed: bool)
    ensures seen <= |tenants| && order == Loaded(tenants[..seen], plans)
    ensures if failed then seen % 500 == 0 && !lists(seen) else seen == |tenants|
    ensures forall k: nat :: k * 500 < seen ==> lists(k * 500)
  {
    hide Page;
    assert tenants[..0] == [];
    order, seen, failed := [], 0, false;
    ghost var pages := 0;
    while true
      invariant seen <= |tenants| && seen == pages * PAGE_SIZE
      invariant order == Loaded(tenants[..seen], plans)
      invariant forall k: nat :: k < pages ==> lists(k * PAGE_SIZE)
      decreases |tenants| - seen
    {
      if !lists(seen) {
        failed := true;
        return;
      }
      var page, total := Page(tenants, seen), |tenants|;
      var part := VisitPage(page, plans);
      order := order + part;
      LoadedAppend(tenants[..seen], page, plans);
      PageTiles(tenants, seen);
      if seen + PAGE_SIZE >= total || |page| == 0 {
        seen := total;
        return;
      }
      seen, pages := seen + PAGE_SIZE, pages + 1;
    }
  }

  // ---------------------------------------------------------------- tables

  /** The rows the purge of one tenant removes. */
  function Expired(ns: Notifications, tenant: nat, cutoff: int): set<nat> {
    set id | id in ns && ns[id].tenant == tenant && ns[id].createdAt < cutoff
  }

  ghost predicate NoOrphans(children: Children, ns: Notifications) {
    forall c :: c in children ==> children[c] in ns
  }

  /** Every notification's channel exists, as its foreign key demands. */
  ghost predicate Housed(ns: Notifications, channels: map<nat, nat>) {
    forall id :: id in ns ==> ns[id].channel in channels
  }

  /** The rows that go with a channel when it is deleted. */
  function OfChannel(ns: Notifications, channel: nat): set<nat> {
    set id | id in ns && ns[id].channel == channel
  }

  /** The rows that still have their notification. */
  function Adopted(children: Children, ns: Notifications): Children {
    map c | c in children && children[c] in ns :: children[c]
  }

  /** `COUNT(*)` of the tenant's rows created in [from, until). */
  function Usage(ns: Notifications, tenant: nat, from: int, until: int): (count: nat)
    ensures count == |set id | id in ns && ns[id].tenant == tenant && from <= ns[id].createdAt < until|
  {
    assert CreatedIn(ns, tenant, from, until) ==
           set id | id in ns && ns[id].tenant == tenant && from <= ns[id].createdAt < until;
    |CreatedIn(ns, tenant, from, until)|
  }

  /** Counting is exact: nothing counts for nothing, and a new row for one if it is covered and for none if not. */
  lemma UsageCounts(ns: Notifications, tenant: nat, from: int, until: int, id: nat, n: Notification)
    ensures Usage(map[], tenant, from, until) == 0
    ensures id !in ns ==>
              Usage(ns[id := n], tenant, from, until) ==
              Usage(ns, tenant, from, until) + if n.tenant == tenant && from <= n.createdAt < until then 1 else 0
  {
    hide Usage;
    assert CreatedIn(map[], tenant, from, until) == {};
    if id !in ns {
      var before, after := CreatedIn(ns, tenant, from, until), CreatedIn(ns[id := n], tenant, from, until);
      assert after == before + if n.tenant == tenant && from <= n.createdAt < until then {id} else {};
      UsageIsSize(ns[id := n], tenant, from, until);
    }
    UsageIsSize(ns, tenant, from, until);
    UsageIsSize(map[], tenant, from, until);
  }

  lemma UsageIsSize(ns: Notifications, tenant: nat, from: int, until: int)
    ensures Usage(ns, tenant, from, until) == |CreatedIn(ns, tenant, from, until)|
  {
  }

  function CreatedIn(ns: Notifications, tenant: nat, from: int, until: int): set<nat> {
    set id | id in ns && ns[id].tenant == tenant && from <= ns[id].createdAt < until
  }

  /** The rows of the period that a purge removes. */
  function PurgedOf(ns: Notifications, tenant: nat, p: Plan): set<nat> {
    set id | id in CreatedIn(ns, tenant, p.periodStart, p.periodEnd) && ns[id].createdAt < p.cutoff
  }

  /** What is left after the tenants in `done` have been purged. */
  function Kept(ns: Notifications, done: set<nat>, plans: map<nat, Plan>): Notifications
    requires done <= plans.Keys
  {
    map id | id in ns && !(ns[id].tenant in done && ns[id].createdAt < plans[ns[id].tenant].cutoff) :: ns[id]
  }

  /** The tenants of a list whose entitlements load and whose own step succeeds. */
  function Covered(tenants: seq<nat>, plans: map<nat, Plan>, works: nat -> bool): (done: set<nat>)
    ensures done <= plans.Keys
  {
    set t | t in tenants && t in plans && works(t)
  }

  class Store {
    var notifications: Notifications
    var attempts: Children
    var metrics: Children
    var counters: map<nat, nat>

    /** Channel configurations, by id, with the tenant that owns each. */
    var channels: map<nat, nat>

    ghost predicate Valid()
      reads this
    {
      && NoOrphans(attempts, notifications) && NoOrphans(metrics, notifications)
      && Housed(notifications, channels)
    }

    /**
     `PgChannelConfigRepo.Delete`. The schema's cascades take the channel's notifications along, and their
     attempts and metrics with them; nothing asks whether they belong to the running period.
     */
    method DeleteChannel(channel: nat, tenant: nat) returns (found: bool)
      requires Valid()
      modifies this`channels, this`notifications, this`attempts, this`metrics
      ensures Valid()
      ensures found <==> channel in old(channels) && old(channels)[channel] == tenant
      ensures channels == if found then old(channels) - {channel} else old(channels)
      ensures notifications ==
              if found then old(notifications) - OfChannel(old(notifications), channel) else old(notifications)
      ensures attempts == Adopted(old(attempts), notifications) && metrics == Adopted(old(metrics), notifications)
    {
      if channel !in channels || channels[channel] != tenant {
        return false;
      }
      var victims := OfChannel(notifications, channel);
      attempts := map c | c in attempts && attempts[c] !in victims :: attempts[c];
      metrics := map c | c in metrics && metrics[c] !in victims :: metrics[c];
      notifications := notifications - victims;
      channels := channels - {channel};
      found := true;
    }

    /** One transaction: children first, then the notifications themselves; rolled back on any error. */
    method DeleteOlderThan(tenant: nat, cutoff: int, works: bool) returns (deleted: Option<nat>)
      requires Valid()
      modifies this`notifications, this`attempts, this`metrics
      ensures Valid()
      ensures deleted.Some? <==> works
      ensures !works ==> notifications == old(notifications) && attempts == old(attempts) && metrics == old(metrics)
      ensures works ==> notifications == old(notifications) - Expired(old(notifications), tenant, cutoff)
      ensures works ==> deleted.value == |Expired(old(notifications), tenant, cutoff)|
      ensures attempts == Adopted(old(attempts), notifications) && metrics == Adopted(old(metrics), notifications)
    {
      if !works {
        return None;
      }
      var victims := Expired(notifications, tenant, cutoff);
      attempts := map c | c in attempts && attempts[c] !in victims :: attempts[c];
      metrics := map c | c in metrics && metrics[c] !in victims :: metrics[c];
      notifications := notifications - victims;
      deleted := Some(|victims|);
    }

    /** `HandleRetentionPurge`; a tenant whose deletion fails is logged and left as it was. */
    method Purge(tenants: seq<nat>, plans: map<nat, Plan>, lists: nat -> bool, deletes: nat -> bool)
      returns (seen: nat, failed: bool)
      requires Valid()
      modifies this`notifications, this`attempts, this`metrics
      ensures Valid()
      ensures seen <= |tenants| && if failed then !lists(seen) else seen == |tenants|
      ensures notifications == Kept(old(notifications), Covered(tenants[..seen], plans, deletes), plans)
      ensures attempts == Adopted(old(attempts), notifications) && metrics == Adopted(old(metrics), notifications)
    {
      hide Loaded, Expired, Kept, NoOrphans, Adopted, Housed;
      var order;
      order, seen, failed := ForEachTenant(tenants, plans, lists);
      LoadedMembers(tenants[..seen], plans);
      ghost var done: set<nat> := {};
      KeptAll(notifications, plans);
      AdoptedAll(attempts, notifications);
      AdoptedAll(metrics, notifications);
      for i := 0 to |order|
        invariant Valid()
        invariant done == set k | 0 <= k < i && deletes(order[k]) :: order[k]
        invariant done <= plans.Keys
        invariant notifications == Kept(old(notifications), done, plans)
        invariant attempts == Adopted(old(attempts), notifications) && metrics == Adopted(old(metrics), notifications)
      {
        var t := order[i];
        assert t in order;
        ghost var before := notifications;
        var _ := DeleteOlderThan(t, plans[t].cutoff, deletes(t));
        AdoptedTwice(old(attempts), before, notifications);
        AdoptedTwice(old(metrics), before, notifications);
        if deletes(t) {
          KeptStep(old(notifications), done, t, plans);
          done := done + {t};
        }
      }
      assert done == Covered(tenants[..seen], plans, deletes);
    }

    /** `HandleUsageReconcile`; a tenant whose count or counter write fails keeps its counter. */
    method Reconcile(tenants: seq<nat>, plans: map<nat, Plan>, lists: nat -> bool, writes: nat -> bool)
      returns (seen: nat, failed: bool)
      modifies this`counters
      ensures seen <= |tenants| && if failed then !lists(seen) else seen == |tenants|
      ensures forall t :: t in Covered(tenants[..seen], plans, writes) ==>
                var p := plans[t];
                && t in counters
                && counters[t] == |set id | id in notifications && notifications[id].tenant == t
                                            && p.periodStart <= notifications[id].createdAt < p.periodEnd|
      ensures forall t :: t !in Covered(tenants[..seen], plans, writes) && t in old(counters) ==>
                t in counters && counters[t] == old(counters)[t]
    {
      hide Loaded, Usage;
      var order;
      order, seen, failed := ForEachTenant(tenants, plans, lists);
      LoadedMembers(tenants[..seen], plans);
      for i := 0 to |order|
        invariant forall k :: 0 <= k < i && writes(order[k]) ==> Counted(order[k], plans)
        invariant forall t :: !(t in order && writes(t)) && t in old(counters) ==>
                    t in counters && counters[t] == old(counters)[t]
      {
        var t := order[i];
        assert t in order;
        if writes(t) {
          counters := counters[t := Usage(notifications, t, plans[t].periodStart, plans[t].periodEnd)];
        }
      }
      forall t | t in Covered(tenants[..seen], plans, writes)
        ensures Counted(t, plans)
      {
        assert t in order;
      }
    }

    ghost predicate Counted(t: nat, plans: map<nat, Plan>)
      reads this
    {
      && t in counters && t in plans
      && counters[t] == Usage(notifications, t, plans[t].periodStart, plans[t].periodEnd)
    }

    /**
     The night's two jobs in turn, with nothing else going on. A tenant reached by the reconcile ends up
     with the count of its rows of the period as they were before the night, less those the purge removed.
     */
    method Night(tenants: seq<nat>, plans: map<nat, Plan>, lists: nat -> bool, lists': nat -> bool,
                 deletes: nat -> bool, writes: nat -> bool)
      returns (purged: nat, reconciled: nat)
      requires Valid()
      modifies this
      ensures Valid() && purged <= |tenants| && reconciled <= |tenants|
      ensures (forall k: nat :: lists(k) && lists'(k)) ==> purged == reconciled == |tenants|
      ensures forall t :: t in Covered(tenants[..reconciled], plans, writes) ==>
                var p := plans[t];
                var from := if t in Covered(tenants[..purged], plans, deletes)
                            then Max(p.periodStart, p.cutoff) else p.periodStart;
                && t in counters
                && counters[t] == |set id | id in old(notifications) && old(notifications)[id].tenant == t
                                            && from <= old(notifications)[id].createdAt < p.periodEnd|
      ensures forall t :: t !in Covered(tenants[..reconciled], plans, writes) && t in old(counters) ==>
                t in counters && counters[t] == old(counters)[t]
    {
      hide Usage, Kept, NoOrphans, Covered, Housed;
      var failed, failed';
      purged, failed := Purge(tenants, plans, lists, deletes);
      reconciled, failed' := Reconcile(tenants, plans, lists', writes);
      forall t | t in Covered(tenants[..reconciled], plans, writes)
        ensures var p := plans[t];
                var from := if t in Covered(tenants[..purged], plans, deletes)
                            then Max(p.periodStart, p.cutoff) else p.periodStart;
                Usage(notifications, t, p.periodStart, p.periodEnd) == Usage(old(notifications), t, from, p.periodEnd)
      {
        KeptUsage(old(notifications), Covered(tenants[..purged], plans, deletes), t, plans);
      }
    }
  }

  lemma AdoptedAll(children: Children, ns: Notifications)
    requires NoOrphans(children, ns)
    ensures Adopted(children, ns) == children
  {
  }

  lemma AdoptedTwice(children: Children, ns: Notifications, ns': Notifications)
    requires ns'.Keys <= ns.Keys
    ensures Adopted(Adopted(children, ns), ns') == Adopted(children, ns')
  {
  }

  lemma KeptAll(ns: Notifications, plans: map<nat, Plan>)
    ensures Kept(ns, {}, plans) == ns
  {
  }

  /** A later purge, with later cutoffs, leaves what it would have left without the earlier one. */
  lemma KeptTwice(ns: Notifications, done: set<nat>, plans: map<nat, Plan>, plans': map<nat, Plan>)
    requires done <= plans.Keys && done <= plans'.Keys
    requires forall t :: t in done ==> plans[t].cutoff <= plans'[t].cutoff
    ensures Kept(Kept(ns, done, plans), done, plans') == Kept(ns, done, plans')
  {
  }

  lemma KeptStep(ns: Notifications, done: set<nat>, t: nat, plans: map<nat, Plan>)
    requires done <= plans.Keys && t in plans
    ensures var kept := Kept(ns, done, plans);
            kept - Expired(kept, t, plans[t].cutoff) == Kept(ns, done + {t}, plans)
  {
  }

  // ---------------------------------------------------------------- purge, then reconcile

  /** However rows come to be deleted, the count falls by those of them that it covered. */
  lemma RemovalLowersUsage(ns: Notifications, gone: set<nat>, t: nat, from: int, until: int)
    ensures Usage(ns - gone, t, from, until) == Usage(ns, t, from, until) - |CreatedIn(ns, t, from, until) * gone|
  {
    var all, left := CreatedIn(ns, t, from, until), CreatedIn(ns - gone, t, from, until);
    assert all == left + all * gone;
  }

  function Max(a: int, b: int): int {
    if a < b then b else a
  }

  /**
   After a quiescent purge the count the reconcile writes is that of the rows created in
   [max(periodStart, cutoff), periodEnd).
   */
  lemma PurgedUsage(ns: Notifications, done: set<nat>, t: nat, plans: map<nat, Plan>)
    requires done <= plans.Keys && t in done
    ensures var p := plans[t];
            Usage(Kept(ns, done, plans), t, p.periodStart, p.periodEnd) ==
            Usage(ns, t, Max(p.periodStart, p.cutoff), p.periodEnd)
  {
    var p := plans[t];
    assert CreatedIn(Kept(ns, done, plans), t, p.periodStart, p.periodEnd) ==
           CreatedIn(ns, t, Max(p.periodStart, p.cutoff), p.periodEnd);
  }

  lemma KeptUsage(ns: Notifications, done: set<nat>, t: nat, plans: map<nat, Plan>)
    requires done <= plans.Keys && t in plans
    ensures var p := plans[t];
            Usage(Kept(ns, done, plans), t, p.periodStart, p.periodEnd) ==
            Usage(ns, t, if t in done then Max(p.periodStart, p.cutoff) else p.periodStart, p.periodEnd)
  {
    var p := plans[t];
    if t in done {
      PurgedUsage(ns, done, t, plans);
    } else {
      assert CreatedIn(Kept(ns, done, plans), t, p.periodStart, p.periodEnd) ==
             CreatedIn(ns, t, p.periodStart, p.periodEnd);
    }
  }

  /** So the counter keeps the period's true usage exactly when no row of the period predates the cutoff. */
  lemma ReconcileIsExactWhen(ns: Notifications, done: set<nat>, t: nat, plans: map<nat, Plan>)
    requires done <= plans.Keys && t in done
    ensures var p := plans[t];
            Usage(Kept(ns, done, plans), t, p.periodStart, p.periodEnd) == Usage(ns, t, p.periodStart, p.periodEnd) <==>
            forall id :: id in ns && ns[id].tenant == t && p.periodStart <= ns[id].createdAt < p.periodEnd ==>
              ns[id].createdAt >= p.cutoff
  {
    PurgedUsage(ns, done, t, plans);
    var p := plans[t];
    var all := CreatedIn(ns, t, p.periodStart, p.periodEnd);
    var left := CreatedIn(ns, t, Max(p.periodStart, p.cutoff), p.periodEnd);
    assert all == left + (all - left);
    assert |all| == |left| <==> all - left == {};
    assert all - left == set id | id in all && ns[id].createdAt < p.cutoff;
    assert forall id :: id in all <==>
           id in ns && ns[id].tenant == t && p.periodStart <= ns[id].createdAt < p.periodEnd;
  }
}
