/** The hourly sweep over expired trials (backend/src/modules/billing/billing-cron.service.ts:77-122 over
  * backend/src/modules/billing/subscription.repository.ts:138-183). */
module TrialSweep {
  import opened JsonValues

  datatype Status = TRIALING | ACTIVE | PAST_DUE | CANCELED | INCOMPLETE | UNPAID | PAUSED

  datatype Subscription = Subscription(organizationId: string, planId: string, status: Status, trialEnd: Option<int>)

  /** How a trial ended. */
  datatype Outcome = Converted | DowngradedToFree

  /** A recorded change of type TRIAL_END. */
  datatype TrialEnd = TrialEnd(subscriptionId: string, fromPlanId: string, toPlanId: string, effectiveAt: int, outcome: Outcome)

  datatype Billing = Billing(
    subscriptions: map<string, Subscription>,
    trialEnds: seq<TrialEnd>,
    withPaymentMethod: set<string>,
    freePlan: Option<string>)

  /** Which call of one item's `try` block throws, if any. */
  datatype Fault = NoFault | AtPaymentCheck | AtPlanLookup | AtUpdate | AtRecordChange

  /** A row as the sweep read it when it began. */
  datatype Found = Found(id: string, subscription: Subscription)

  predicate Expired(s: Subscription, now: int) {
    s.status == TRIALING && s.trialEnd.Some? && s.trialEnd.value < now
  }

  /** What `findExpiredTrials` returns, in any order. */
  ghost predicate IsExpiredList(subscriptions: map<string, Subscription>, now: int, found: seq<Found>) {
    (forall i, j | 0 <= i < j < |found| :: found[i].id != found[j].id) &&
    (forall f | f in found :: f.id in subscriptions && subscriptions[f.id] == f.subscription && Expired(f.subscription, now)) &&
    (forall id | id in subscriptions && Expired(subscriptions[id], now) :: exists i :: 0 <= i < |found| && found[i].id == id)
  }

  /** One item: the status and plan change first, then the record of it; a failing call ends the item
    * where it stands. */
  function Swept(b: Billing, f: Found, fault: Fault, now: int): Billing {
    var paying := f.subscription.organizationId in b.withPaymentMethod;
    if fault == AtPaymentCheck || f.id !in b.subscriptions || fault == AtUpdate then b
    else if !paying && (fault == AtPlanLookup || b.freePlan.None?) then b
    else
      var plan := if paying then f.subscription.planId else b.freePlan.value;
      var row := b.subscriptions[f.id].(status := ACTIVE);
      var updated := b.(subscriptions := b.subscriptions[f.id := if paying then row else row.(planId := plan)]);
      if fault == AtRecordChange then updated
      else
        updated.(trialEnds := updated.trialEnds +
          [TrialEnd(f.id, f.subscription.planId, plan, now, if paying then Converted else DowngradedToFree)])
  }

  function SweptAll(b: Billing, found: seq<Found>, faults: seq<Fault>, now: int): Billing
    requires |faults| == |found|
  {
    if found == [] then b
    else Swept(SweptAll(b, found[..|found|-1], faults[..|faults|-1], now), found[|found|-1], faults[|faults|-1], now)
  }

  function EndsOf(ends: seq<TrialEnd>, id: string): nat {
    if ends == [] then 0
    else EndsOf(ends[..|ends|-1], id) + (if ends[|ends|-1].subscriptionId == id then 1 else 0)
  }

  class BillingCronService {
    var subscriptions: map<string, Subscription>
    var trialEnds: seq<TrialEnd>
    var withPaymentMethod: set<string>
    var freePlan: Option<string>

    function State(): Billing
      reads this
    {
      Billing(subscriptions, trialEnds, withPaymentMethod, freePlan)
    }

    constructor (plan: Option<string>)
      ensures State() == Billing(map[], [], {}, plan)
    {
      subscriptions := map[];
      trialEnds := [];
      withPaymentMethod := {};
      freePlan := plan;
    }

    method SweepOne(f: Found, fault: Fault, now: int)
      modifies this`subscriptions, this`trialEnds
      ensures State() == Swept(old(State()), f, fault, now)
    {
      if fault == AtPaymentCheck { return; }
      var hasPaymentMethod := f.subscription.organizationId in withPaymentMethod;
      if hasPaymentMethod {
        if fault == AtUpdate || f.id !in subscriptions { return; }
        subscriptions := subscriptions[f.id := subscriptions[f.id].(status := ACTIVE)];
        if fault == AtRecordChange { return; }
        trialEnds := trialEnds + [TrialEnd(f.id, f.subscription.planId, f.subscription.planId, now, Converted)];
        return;
      }
      if fault == AtPlanLookup || freePlan.None? { return; }
      if fault == AtUpdate || f.id !in subscriptions { return; }
      subscriptions := subscriptions[f.id := subscriptions[f.id].(planId := freePlan.value, status := ACTIVE)];
      if fault == AtRecordChange { return; }
      trialEnds := trialEnds + [TrialEnd(f.id, f.subscription.planId, freePlan.value, now, DowngradedToFree)];
    }

    /** One failing item does not stop the others. A sweep in which nothing fails leaves no expired trial,
      * and gives every trial it found exactly one TRIAL_END. */
    method SweepExpiredTrials(found: seq<Found>, faults: seq<Fault>, now: int)
      requires IsExpiredList(subscriptions, now, found) && |faults| == |found|
      modifies this`subscriptions, this`trialEnds
      ensures State() == SweptAll(old(State()), found, faults, now)
      ensures subscriptions.Keys == old(subscriptions).Keys
      ensures forall id | id in subscriptions ::
        var was := old(subscriptions)[id];
        !(was.status == TRIALING && was.trialEnd.Some? && was.trialEnd.value < now) ==> subscriptions[id] == was
      ensures forall id | id in subscriptions && subscriptions[id].planId != old(subscriptions)[id].planId ::
        freePlan == Some(subscriptions[id].planId) && subscriptions[id].organizationId !in withPaymentMethod
      ensures (forall i | 0 <= i < |faults| :: faults[i] == NoFault) && freePlan.Some? ==>
        forall id | id in subscriptions ::
          var was := old(subscriptions)[id];
          var ended := was.status == TRIALING && was.trialEnd.Some? && was.trialEnd.value < now;
          !Expired(subscriptions[id], now) && (ended ==> subscriptions[id].status == ACTIVE) &&
          EndsOf(trialEnds, id) == EndsOf(old(trialEnds), id) + (if ended then 1 else 0)
    {
      for i := 0 to |found|
        invariant State() == SweptAll(old(State()), found[..i], faults[..i], now)
      {
        SweepOne(found[i], faults[i], now);
        assert found[..i+1][..i] == found[..i] && faults[..i+1][..i] == faults[..i];
      }
      assert found[..|found|] == found && faults[..|faults|] == faults;
      SweepTouches(old(State()), found, faults, now);
      forall id | id in old(subscriptions)
        ensures subscriptions[id].planId != old(subscriptions)[id].planId ==>
          freePlan == Some(subscriptions[id].planId) && subscriptions[id].organizationId !in withPaymentMethod
      {
        SweepMoves(old(State()), found, faults, now, id);
      }
      if (forall i | 0 <= i < |faults| :: faults[i] == NoFault) && freePlan.Some? {
        SweepComplete(old(State()), found, faults, now);
      }
    }
  }

  predicate Lists(found: seq<Found>, id: string) {
    exists i :: 0 <= i < |found| && found[i].id == id
  }

  lemma ListsSnoc(found: seq<Found>, id: string)
    requires found != []
    ensures Lists(found, id) <==> Lists(found[..|found|-1], id) || found[|found|-1].id == id
  {}

  /** One item to the letter: where it stops, the row it leaves and the change it records, from the plan the list was read
    * with to that plan or the free one. */
  lemma SweptExactly(b: Billing, f: Found, fault: Fault, now: int)
    ensures
      var after := Swept(b, f, fault, now);
      var paying := f.subscription.organizationId in b.withPaymentMethod;
      var stops := fault == AtPaymentCheck || fault == AtUpdate || f.id !in b.subscriptions ||
        (!paying && (fault == AtPlanLookup || b.freePlan.None?));
      (stops ==> after == b) &&
      (!stops ==>
         var was := b.subscriptions[f.id];
         var plan := f.subscription.planId;
         after.subscriptions == b.subscriptions[f.id :=
           Subscription(was.organizationId, if paying then was.planId else b.freePlan.value, ACTIVE, was.trialEnd)] &&
         after.withPaymentMethod == b.withPaymentMethod && after.freePlan == b.freePlan &&
         after.trialEnds ==
           if fault == AtRecordChange then b.trialEnds
           else if paying then b.trialEnds + [TrialEnd(f.id, plan, plan, now, Converted)]
           else b.trialEnds + [TrialEnd(f.id, plan, b.freePlan.value, now, DowngradedToFree)])
  {}

  /** What one item can do: touch its own subscription, move it to the free plan when its organization has
    * no payment method, and log one trial end. */
  lemma SweptOne(b: Billing, f: Found, fault: Fault, now: int)
    ensures var after := Swept(b, f, fault, now);
      after.subscriptions.Keys == b.subscriptions.Keys &&
      after.withPaymentMethod == b.withPaymentMethod && after.freePlan == b.freePlan &&
      (forall id | id in b.subscriptions && id != f.id :: after.subscriptions[id] == b.subscriptions[id]) &&
      (forall id | id in b.subscriptions :: after.subscriptions[id].organizationId == b.subscriptions[id].organizationId) &&
      (f.id in b.subscriptions && after.subscriptions[f.id].planId != b.subscriptions[f.id].planId ==>
         b.freePlan == Some(after.subscriptions[f.id].planId) && f.subscription.organizationId !in b.withPaymentMethod)
  {}

  lemma SweptEnds(b: Billing, f: Found, fault: Fault, now: int, id: string)
    ensures var after := Swept(b, f, fault, now);
      EndsOf(b.trialEnds, id) <= EndsOf(after.trialEnds, id) &&
      EndsOf(after.trialEnds, id) <= EndsOf(b.trialEnds, id) + (if f.id == id then 1 else 0) &&
      (EndsOf(after.trialEnds, id) > EndsOf(b.trialEnds, id) ==>
         id in after.subscriptions && after.subscriptions[id].status == ACTIVE) &&
      (fault == NoFault && b.freePlan.Some? && f.id == id && id in b.subscriptions ==>
         EndsOf(after.trialEnds, id) == EndsOf(b.trialEnds, id) + 1 && after.subscriptions[id].status == ACTIVE)
  {
    var paying := f.subscription.organizationId in b.withPaymentMethod;
    var to := if paying || b.freePlan.None? then f.subscription.planId else b.freePlan.value;
    EndsSnoc(b.trialEnds, TrialEnd(f.id, f.subscription.planId, to, now, if paying then Converted else DowngradedToFree), id);
  }

  lemma EndsSnoc(ends: seq<TrialEnd>, e: TrialEnd, id: string)
    ensures EndsOf(ends + [e], id) == EndsOf(ends, id) + (if e.subscriptionId == id then 1 else 0)
  {
    assert (ends + [e])[..|ends|] == ends;
  }

  /** A sweep changes nothing but the subscriptions it found and the log of trial ends. */
  lemma {:induction false} SweepTouches(b: Billing, found: seq<Found>, faults: seq<Fault>, now: int)
    requires |faults| == |found|
    ensures var after := SweptAll(b, found, faults, now);
      after.subscriptions.Keys == b.subscriptions.Keys &&
      after.withPaymentMethod == b.withPaymentMethod && after.freePlan == b.freePlan &&
      (forall id | id in b.subscriptions && !Lists(found, id) :: after.subscriptions[id] == b.subscriptions[id]) &&
      (forall id | id in b.subscriptions :: after.subscriptions[id].organizationId == b.subscriptions[id].organizationId)
  {
    hide Swept;
    if found != [] {
      var n := |found| - 1;
      SweepTouches(b, found[..n], faults[..n], now);
      SweptOne(SweptAll(b, found[..n], faults[..n], now), found[n], faults[n], now);
      forall id ensures Lists(found, id) <==> Lists(found[..n], id) || found[n].id == id { ListsSnoc(found, id); }
    }
  }

  ghost predicate IsSnapshot(b: Billing, found: seq<Found>) {
    forall f | f in found :: f.id in b.subscriptions && b.subscriptions[f.id] == f.subscription
  }

  /** A plan changes only to the free plan, and only without a payment method. */
  lemma {:induction false} SweepMoves(b: Billing, found: seq<Found>, faults: seq<Fault>, now: int, id: string)
    requires |faults| == |found| && IsSnapshot(b, found) && id in b.subscriptions
    ensures var after := SweptAll(b, found, faults, now);
      id in after.subscriptions &&
      (after.subscriptions[id].planId != b.subscriptions[id].planId ==>
         b.freePlan == Some(after.subscriptions[id].planId) && b.subscriptions[id].organizationId !in b.withPaymentMethod)
  {
    hide Swept;
    if found != [] {
      var n := |found| - 1;
      SweepTouches(b, found[..n], faults[..n], now);
      SweepMoves(b, found[..n], faults[..n], now, id);
      SweptOne(SweptAll(b, found[..n], faults[..n], now), found[n], faults[n], now);
      assert found[n] in found;
    }
  }

  lemma {:induction false} SweepEnds(b: Billing, found: seq<Found>, faults: seq<Fault>, now: int, id: string)
    requires |faults| == |found| && b.freePlan.Some? && id in b.subscriptions
    requires forall i | 0 <= i < |faults| :: faults[i] == NoFault
    requires forall i, j | 0 <= i < j < |found| :: found[i].id != found[j].id
    ensures var after := SweptAll(b, found, faults, now);
      EndsOf(after.trialEnds, id) == EndsOf(b.trialEnds, id) + (if Lists(found, id) then 1 else 0) &&
      id in after.subscriptions && (Lists(found, id) ==> after.subscriptions[id].status == ACTIVE)
  {
    hide Swept, EndsOf;
    if found != [] {
      var n := |found| - 1;
      var front := SweptAll(b, found[..n], faults[..n], now);
      SweepEnds(b, found[..n], faults[..n], now, id);
      SweepTouches(b, found[..n], faults[..n], now);
      SweptOne(front, found[n], faults[n], now);
      SweptEnds(front, found[n], faults[n], now, id);
      ListsSnoc(found, id);
      forall i | 0 <= i < n ensures found[..n][i].id != found[n].id { assert found[..n][i] == found[i]; }
    }
  }

  lemma SweepComplete(b: Billing, found: seq<Found>, faults: seq<Fault>, now: int)
    requires |faults| == |found| && b.freePlan.Some? && IsExpiredList(b.subscriptions, now, found)
    requires forall i | 0 <= i < |faults| :: faults[i] == NoFault
    ensures var after := SweptAll(b, found, faults, now);
      forall id | id in after.subscriptions :: id in b.subscriptions && !Expired(after.subscriptions[id], now) &&
        (Expired(b.subscriptions[id], now) ==> after.subscriptions[id].status == ACTIVE) &&
        EndsOf(after.trialEnds, id) == EndsOf(b.trialEnds, id) + (if Expired(b.subscriptions[id], now) then 1 else 0)
  {
    var after := SweptAll(b, found, faults, now);
    SweepTouches(b, found, faults, now);
    forall id | id in after.subscriptions
      ensures id in b.subscriptions && !Expired(after.subscriptions[id], now)
      ensures Expired(b.subscriptions[id], now) ==> after.subscriptions[id].status == ACTIVE
      ensures EndsOf(after.trialEnds, id) == EndsOf(b.trialEnds, id) + (if Expired(b.subscriptions[id], now) then 1 else 0)
    {
      SweepEnds(b, found, faults, now, id);
      if i :| 0 <= i < |found| && found[i].id == id { assert found[i] in found; }
      assert Lists(found, id) <==> Expired(b.subscriptions[id], now);
    }
  }
}
