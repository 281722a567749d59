/**
 * A client of the service engine, driving one user's subscription through its lifecycle on a
 * fresh collection with a one-plan catalog. Everything it proves follows from the contracts alone.
 */
module Scenarios {
  import opened Wrappers
  import opened Clock
  import opened Models
  import opened Repository
  import opened Services

  /**
   * Subscribe "u1" to a monthly plan at `start`, cancel at `cancelAt` (no later than the expiry),
   * renew at `renewAt`; a read for "u2", who never subscribed, finds nothing.
   */
  method CreateCancelRenew(start: Time, cancelAt: Time, renewAt: Time)
    returns (created: Result<View, Error>, cancelled: Option<Error>,
             renewed: Result<View, Error>, missing: Result<View, Error>)
    requires Clock.Valid(start) && Clock.Valid(renewAt)
    requires !After(cancelAt, AddDate(start, 0, 1))
    ensures created.Ok? && created.value.sub.status == Active && created.value.sub.planId == 7
    ensures created.value.sub.startDate == start && created.value.sub.expiresAt == AddDate(start, 0, 1)
    ensures cancelled == None
    ensures renewed.Ok? && renewed.value.sub.status == Active && renewed.value.sub.planId == 7
    ensures renewed.value.sub.startDate == renewed.value.sub.createdAt == renewAt
    ensures renewed.value.sub.expiresAt == AddDate(renewAt, 0, 1)
    ensures missing == Err(NoDocuments)
  {
    var monthly := Plan(7, "Basic", 9.99, ["support"], "monthly");
    var repo := new SubscriptionRepository();
    var service := new SubscriptionService(repo, map[7 := monthly]);
    created := service.CreateSubscription("u1", 7, start);
    assert repo.rows.Keys == {"u1"} && repo.rows["u1"].planId == 7;
    assert repo.rows["u1"].status == Active && repo.rows["u1"].expiresAt == AddDate(start, 0, 1);
    cancelled := service.CancelSubscription("u1", cancelAt);
    assert repo.rows.Keys == {"u1"} && repo.rows["u1"].planId == 7 && repo.rows["u1"].status == Cancelled;
    renewed := service.RenewSubscription("u1", renewAt);
    assert "u2" !in repo.rows;
    missing := service.GetSubscription("u2", renewAt);
  }

  /**
   * The same lapsed subscription cancelled through each engine: both store it as EXPIRED, the
   * service answers "already expired" and the manager "can only cancel active subscriptions".
   */
  method CancelLapsedOnBothEngines(start: Time, now: Time)
    returns (serviceErr: Option<Error>, managerErr: Option<Error>, serviceRow: Subscription, managerRow: Subscription)
    requires Clock.Valid(start)
    requires After(now, AddDate(start, 0, 1))
    ensures serviceErr == Some(AlreadyExpired) && managerErr == Some(CancelNotActive)
    ensures serviceRow.status == managerRow.status == Expired
  {
    var monthly := Plan(7, "Basic", 9.99, ["support"], "monthly");
    var repo := new SubscriptionRepository();
    var service := new SubscriptionService(repo, map[7 := monthly]);
    var manager := new SubscriptionManager(map[7 := monthly]);
    var created := service.CreateSubscription("u1", 7, start);
    var upserted := manager.UpsertSubscription("u1", 7, start);
    serviceErr := service.CancelSubscription("u1", now);
    managerErr := manager.CancelSubscription("u1", now);
    serviceRow := repo.rows["u1"];
    managerRow := manager.rows["u1"];
  }
}
