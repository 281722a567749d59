/**
 * The service engine: create (insert or upsert), read with lazy expiry, change plan, cancel and
 * renew a user's single subscription, through the repository and a read-only plan catalog.
 */
module Services {
  import opened Wrappers
  import opened Clock
  import opened Models
  import opened Repository

  /**
   * The service's cancel verdict on a found row: a lapsed ACTIVE row is refused as already
   * expired, any other non-ACTIVE row as not active.
   */
  function CancelRejection(s: Subscription, now: Time): (r: Option<Error>)
    ensures r.None? <==> s.status == Active && !After(now, s.expiresAt)
    ensures r == Some(AlreadyExpired) <==> DueForExpiry(s, now)
    ensures r == Some(CancelNotActive) <==> s.status != Active
  {
    if s.status == Active && After(now, s.expiresAt) then Some(AlreadyExpired)
    else if s.status != Active then Some(CancelNotActive)
    else None
  }

  class SubscriptionService {
    const repo: SubscriptionRepository
    /** The plan catalog, read by identifier and never written. */
    const plans: map<ObjectId, Plan>

    /** The repository's invariant, and a catalog that files every plan under its own identifier. */
    ghost predicate Valid()
      reads this, repo
    {
      repo.Valid() && CatalogKeyed(plans)
    }

    constructor(repo: SubscriptionRepository, plans: map<ObjectId, Plan>)
      requires CatalogKeyed(plans)
      ensures this.repo == repo && this.plans == plans
    {
      this.repo := repo;
      this.plans := plans;
    }

    /**
     * Give the user the requested plan, ACTIVE from `now`: insert a row when the user has none,
     * upsert over the existing row otherwise. An unknown plan or an unrecognised duration class
     * writes nothing. In the upsert case the returned subscription carries the zero identifier.
     */
    method CreateSubscription(userId: string, planId: ObjectId, now: Time) returns (r: Result<View, Error>)
      requires Valid() && Clock.Valid(now)
      modifies repo
      ensures Valid() && NoNewInactive(old(repo.rows), repo.rows)
      ensures planId !in plans ==>
        r == Err(PlanNotFound) && repo.rows == old(repo.rows) && repo.nextId == old(repo.nextId)
      ensures planId in plans && ExpiryFor(plans[planId].duration, now).None? ==>
        r == Err(InvalidPlanDuration) && repo.rows == old(repo.rows) && repo.nextId == old(repo.nextId)
      ensures planId in plans && ExpiryFor(plans[planId].duration, now).Some? ==>
        var expiry := ExpiryFor(plans[planId].duration, now).value;
        var existed := userId in old(repo.rows);
        var id := if existed then old(repo.rows)[userId].id else old(repo.nextId);
        && repo.rows == old(repo.rows)[userId := Subscription(id, userId, planId, Active, now, expiry, now)]
        && repo.nextId == old(repo.nextId) + 1
        && r == Ok(View(Subscription(if existed then NilObjectId else id, userId, planId, Active, now, expiry, now),
                        Some(plans[planId])))
      ensures r.Ok? ==> !DueForExpiry(repo.rows[userId], now)
    {
      if planId !in plans {
        return Err(PlanNotFound);
      }
      var plan := plans[planId];
      var existing := repo.GetByUserID(userId);
      var expiry := ExpiryFor(plan.duration, now);
      if expiry.None? {
        return Err(InvalidPlanDuration);
      }
      var subscription := Subscription(NilObjectId, userId, planId, Active, now, expiry.value, ZeroTime);
      if existing.Ok? {
        subscription := repo.Upsert(subscription, now);
      } else {
        var created := repo.Create(subscription, now);
        // No row exists for the user, so the unique index cannot refuse the insert.
        assert created.Ok?;
        subscription := created.value;
      }
      r := Ok(View(subscription, Some(plan)));
    }

    /**
     * Read the user's subscription at `now`. A lapsed ACTIVE row is returned as EXPIRED and its
     * status is written back; otherwise nothing is written. The plan is joined in when the
     * catalog has it.
     */
    method GetSubscription(userId: string, now: Time) returns (r: Result<View, Error>)
      requires Valid()
      modifies repo
      ensures Valid() && repo.nextId == old(repo.nextId) && NoNewInactive(old(repo.rows), repo.rows)
      ensures userId !in old(repo.rows) ==> r == Err(NoDocuments) && repo.rows == old(repo.rows)
      ensures userId in old(repo.rows) ==>
        var seen := Refreshed(old(repo.rows)[userId], now);
        && repo.rows == old(repo.rows)[userId := seen]
        && r == Ok(View(seen, PlanOf(plans, seen.planId)))
      ensures userId in old(repo.rows) && !DueForExpiry(old(repo.rows)[userId], now) ==>
        repo.rows == old(repo.rows)
      ensures r.Ok? && r.value.plan.Some? ==> r.value.plan.value.id == r.value.sub.planId
    {
      var found := repo.GetByUserID(userId);
      if found.Err? {
        return Err(found.error);
      }
      var subscription := found.value;
      if subscription.status == Active && After(now, subscription.expiresAt) {
        subscription := subscription.(status := Expired);
        repo.Update(userId, subscription);
      }
      var plan := PlanOf(plans, subscription.planId);
      r := Ok(View(subscription, plan));
    }

    /**
     * Move an ACTIVE, unexpired subscription to another plan, restarting it at `now` with the
     * expiry the new plan's duration class gives (kept as it was when the class is unrecognised).
     * A lapsed row is written back as EXPIRED and refused; other non-ACTIVE rows are refused
     * without a write; the new plan is looked up only after both guards.
     */
    method UpdateSubscription(userId: string, newPlanId: ObjectId, now: Time) returns (r: Result<View, Error>)
      requires Valid() && Clock.Valid(now)
      modifies repo
      ensures Valid() && repo.nextId == old(repo.nextId) && NoNewInactive(old(repo.rows), repo.rows)
      ensures userId !in old(repo.rows) ==> r == Err(SubscriptionNotFound) && repo.rows == old(repo.rows)
      ensures userId in old(repo.rows) && DueForExpiry(old(repo.rows)[userId], now) ==>
        r == Err(UpdateExpired) && repo.rows == old(repo.rows)[userId := old(repo.rows)[userId].(status := Expired)]
      ensures userId in old(repo.rows) && !DueForExpiry(old(repo.rows)[userId], now) &&
              old(repo.rows)[userId].status != Active ==>
        r == Err(UpdateNotActive) && repo.rows == old(repo.rows)
      ensures userId in old(repo.rows) && !DueForExpiry(old(repo.rows)[userId], now) &&
              old(repo.rows)[userId].status == Active && newPlanId !in plans ==>
        r == Err(PlanNotFound) && repo.rows == old(repo.rows)
      ensures userId in old(repo.rows) && !DueForExpiry(old(repo.rows)[userId], now) &&
              old(repo.rows)[userId].status == Active && newPlanId in plans ==>
        var row := old(repo.rows)[userId];
        var expiry := ExpiryFor(plans[newPlanId].duration, now);
        var changed := row.(planId := newPlanId, startDate := now,
                            expiresAt := if expiry.Some? then expiry.value else row.expiresAt);
        && repo.rows == old(repo.rows)[userId := changed]
        && r == Ok(View(changed, Some(plans[newPlanId])))
    {
      var found := repo.GetByUserID(userId);
      if found.Err? {
        return Err(SubscriptionNotFound);
      }
      var subscription := found.value;
      if subscription.status == Active && After(now, subscription.expiresAt) {
        subscription := subscription.(status := Expired);
        repo.Update(userId, subscription);
        return Err(UpdateExpired);
      }
      if subscription.status != Active {
        return Err(UpdateNotActive);
      }
      if newPlanId !in plans {
        return Err(PlanNotFound);
      }
      var newPlan := plans[newPlanId];
      subscription := subscription.(planId := newPlanId);
      subscription := subscription.(startDate := now);
      var expiry := ExpiryFor(newPlan.duration, now);
      if expiry.Some? {
        subscription := subscription.(expiresAt := expiry.value);
      }
      repo.Update(userId, subscription);
      r := Ok(View(subscription, Some(newPlan)));
    }

    /**
     * Cancel an ACTIVE, unexpired subscription: only its status changes, to CANCELLED. A lapsed
     * row is written back as EXPIRED and refused as already expired.
     */
    method CancelSubscription(userId: string, now: Time) returns (err: Option<Error>)
      requires Valid()
      modifies repo
      ensures Valid() && repo.nextId == old(repo.nextId) && NoNewInactive(old(repo.rows), repo.rows)
      ensures userId !in old(repo.rows) ==> err == Some(SubscriptionNotFound) && repo.rows == old(repo.rows)
      ensures userId in old(repo.rows) ==>
        var row := old(repo.rows)[userId];
        && err == CancelRejection(row, now)
        && repo.rows == old(repo.rows)[userId := if err.None? then row.(status := Cancelled) else Refreshed(row, now)]
    {
      var found := repo.GetByUserID(userId);
      if found.Err? {
        return Some(SubscriptionNotFound);
      }
      var subscription := found.value;
      if subscription.status == Active && After(now, subscription.expiresAt) {
        subscription := subscription.(status := Expired);
        repo.Update(userId, subscription);
        return Some(AlreadyExpired);
      }
      if subscription.status != Active {
        return Some(CancelNotActive);
      }
      subscription := subscription.(status := Cancelled);
      repo.Update(userId, subscription);
      err := None;
    }

    /**
     * Renew a CANCELLED subscription on its existing plan: ACTIVE again, started and created at
     * `now`, with the expiry the plan's duration class gives (kept as it was when the class is
     * unrecognised). The row is written with an upsert, so it keeps its identifier.
     */
    method RenewSubscription(userId: string, now: Time) returns (r: Result<View, Error>)
      requires Valid() && Clock.Valid(now)
      modifies repo
      ensures Valid() && NoNewInactive(old(repo.rows), repo.rows)
      ensures userId !in old(repo.rows) ==>
        r == Err(SubscriptionNotFound) && repo.rows == old(repo.rows) && repo.nextId == old(repo.nextId)
      ensures userId in old(repo.rows) && old(repo.rows)[userId].status != Cancelled ==>
        r == Err(RenewNotCancelled) && repo.rows == old(repo.rows) && repo.nextId == old(repo.nextId)
      ensures userId in old(repo.rows) && old(repo.rows)[userId].status == Cancelled &&
              old(repo.rows)[userId].planId !in plans ==>
        r == Err(PlanNotFound) && repo.rows == old(repo.rows) && repo.nextId == old(repo.nextId)
      ensures userId in old(repo.rows) && old(repo.rows)[userId].status == Cancelled &&
              old(repo.rows)[userId].planId in plans ==>
        var row := old(repo.rows)[userId];
        var plan := plans[row.planId];
        var expiry := ExpiryFor(plan.duration, now);
        var renewed := row.(status := Active, startDate := now, createdAt := now,
                            expiresAt := if expiry.Some? then expiry.value else row.expiresAt);
        && repo.rows == old(repo.rows)[userId := renewed]
        && repo.nextId == old(repo.nextId) + 1
        && r == Ok(View(renewed, Some(plan)))
    {
      var found := repo.GetByUserID(userId);
      if found.Err? {
        return Err(SubscriptionNotFound);
      }
      var subscription := found.value;
      if subscription.status != Cancelled {
        return Err(RenewNotCancelled);
      }
      if subscription.planId !in plans {
        return Err(PlanNotFound);
      }
      var plan := plans[subscription.planId];
      subscription := subscription.(status := Active);
      subscription := subscription.(startDate := now);
      subscription := subscription.(createdAt := now);
      var expiry := ExpiryFor(plan.duration, now);
      if expiry.Some? {
        subscription := subscription.(expiresAt := expiry.value);
      }
      subscription := repo.Upsert(subscription, now);
      r := Ok(View(subscription, Some(plan)));
    }
  }
}
