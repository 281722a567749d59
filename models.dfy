/**
 * The subscription records, the status enumeration, the plan record used as catalog data,
 * the lazy-expiry rule shared by both engines, and the older engine itself
 * (`SubscriptionManager`), which writes to the subscriptions collection directly.
 */
module Models {
  import opened Wrappers
  import opened Clock

  /** The four statuses; INACTIVE is part of the domain but no transition produces it. */
  datatype Status = Active | Inactive | Cancelled | Expired {
    /** The string stored in the `status` field. */
    function Name(): string {
      match this
      case Active => "ACTIVE"
      case Inactive => "INACTIVE"
      case Cancelled => "CANCELLED"
      case Expired => "EXPIRED"
    }
  }

  /** A MongoDB ObjectID; identifiers handed out by the store are positive. */
  type ObjectId = nat

  /** The all-zero ObjectID a Go struct holds before an identifier is assigned to it. */
  const NilObjectId: ObjectId := 0

  /** A catalog entry. The price is carried along and never inspected. */
  datatype Plan = Plan(id: ObjectId, name: string, price: real, features: seq<string>, duration: string)

  /** A persisted subscription row, one field per stored document field. */
  datatype Subscription = Subscription(
    id: ObjectId,
    userId: string,
    planId: ObjectId,
    status: Status,
    startDate: Time,
    expiresAt: Time,
    createdAt: Time)

  /** What the engines return: the row plus the plan joined in (never persisted). */
  datatype View = View(sub: Subscription, plan: Option<Plan>)

  /** The errors the engines and the store report. */
  datatype Error =
    | NoDocuments            // the driver's "no documents" error, passed through unchanged
    | DuplicateKey           // an insert that violates the unique index on user_id
    | PlanNotFound
    | InvalidPlanDuration
    | SubscriptionNotFound
    | UpdateExpired
    | UpdateNotActive
    | AlreadyExpired
    | CancelNotActive
    | RenewNotCancelled
  {
    /** The text the engine puts in its error. */
    function Message(): string {
      match this
      case NoDocuments => "mongo: no documents in result"
      case DuplicateKey => "E11000 duplicate key error"
      case PlanNotFound => "plan not found"
      case InvalidPlanDuration => "invalid plan duration"
      case SubscriptionNotFound => "subscription not found"
      case UpdateExpired => "cannot update expired subscription"
      case UpdateNotActive => "can only update active subscriptions"
      case AlreadyExpired => "subscription has already expired"
      case CancelNotActive => "can only cancel active subscriptions"
      case RenewNotCancelled => "can only renew cancelled subscriptions"
    }
  }

  /**
   * The expiry a plan's duration class gives a subscription starting at `start`: one calendar
   * month for "monthly", one calendar year for "yearly", nothing for any other string.
   */
  function ExpiryFor(duration: string, start: Time): (r: Option<Time>)
    requires Clock.Valid(start)
    ensures r.Some? <==> duration == "monthly" || duration == "yearly"
    ensures r.Some? ==> Clock.Valid(r.value) && After(r.value, start)
    ensures duration == "monthly" ==> r == Some(AddDate(start, 0, 1))
    ensures duration == "yearly" ==> r == Some(AddDate(start, 0, 12))
  {
    if duration == "monthly" then
      AddDateIsLater(start, 0, 1);
      Some(AddDate(start, 0, 1))
    else if duration == "yearly" then
      YearIsTwelveMonths(start);
      AddDateIsLater(start, 1, 0);
      Some(AddDate(start, 1, 0))
    else
      None
  }

  /** Started at the same instant, a yearly plan always runs out after a monthly one. */
  lemma YearlyOutlastsMonthly(start: Time)
    requires Clock.Valid(start)
    ensures After(ExpiryFor("yearly", start).value, ExpiryFor("monthly", start).value)
  {
    MoreMonthsIsLater(start, 1, 12);
  }

  /** An ACTIVE row whose expiry lies strictly before `now`: the lazy-expiry trigger. */
  predicate DueForExpiry(s: Subscription, now: Time) {
    s.status == Active && After(now, s.expiresAt)
  }

  /** The row as a read at `now` sees it: a lapsed ACTIVE row reads as EXPIRED. */
  function Refreshed(s: Subscription, now: Time): (r: Subscription)
    ensures !DueForExpiry(r, now)
    ensures r == s.(status := r.status)
    ensures r.status != s.status <==> DueForExpiry(s, now)
    ensures r.status != s.status ==> r.status == Expired
  {
    if DueForExpiry(s, now) then s.(status := Expired) else s
  }

  /** Reading twice at the same instant sees the same row: the second read writes nothing. */
  lemma RefreshIsIdempotent(s: Subscription, now: Time)
    ensures Refreshed(Refreshed(s, now), now) == Refreshed(s, now)
  {
  }

  /** Once a row reads as EXPIRED it reads as EXPIRED at every later instant too. */
  lemma ExpiryIsPermanent(s: Subscription, now: Time, later: Time)
    requires Clock.Valid(now) && Clock.Valid(later) && !Before(later, now)
    requires Refreshed(s, now).status == Expired
    ensures Refreshed(s, later).status == Expired
  {
  }

  /** The catalog's lookup is by `_id`: every plan is filed under its own identifier. */
  ghost predicate CatalogKeyed(plans: map<ObjectId, Plan>) {
    forall k :: k in plans ==> plans[k].id == k
  }

  /** The plan the catalog holds under `id`, if any. */
  function PlanOf(plans: map<ObjectId, Plan>, id: ObjectId): Option<Plan> {
    if id in plans then Some(plans[id]) else None
  }

  /**
   * The subscriptions collection's invariant: rows are keyed by their own user id (the unique
   * index on user_id), every row carries an identifier already handed out, and no two rows share one.
   */
  ghost predicate WellFormed(rows: map<string, Subscription>, nextId: ObjectId) {
    NilObjectId < nextId &&
    (forall u :: u in rows ==> rows[u].userId == u && NilObjectId < rows[u].id < nextId) &&
    (forall u, v :: u in rows && v in rows && rows[u].id == rows[v].id ==> u == v)
  }

  /** No row became INACTIVE between `before` and `after`. */
  ghost predicate NoNewInactive(before: map<string, Subscription>, after: map<string, Subscription>) {
    forall u :: u in after && after[u].status == Inactive ==> u in before && before[u].status == Inactive
  }

  /** The manager's cancel verdict on a found row: it must still read as ACTIVE. */
  function ManagerCancelRejection(s: Subscription, now: Time): (r: Option<Error>)
    ensures r.None? <==> s.status == Active && !After(now, s.expiresAt)
    ensures r.Some? ==> r.value == CancelNotActive
  {
    if Refreshed(s, now).status != Active then Some(CancelNotActive) else None
  }

  /**
   * The older engine. It owns a handle on the subscriptions collection, modelled as the rows keyed
   * by user id and the counter behind `primitive.NewObjectID`, and a read-only plan catalog.
   */
  class SubscriptionManager {
    var rows: map<string, Subscription>
    var nextId: ObjectId
    const plans: map<ObjectId, Plan>

    ghost predicate Valid()
      reads this
    {
      WellFormed(rows, nextId) && CatalogKeyed(plans)
    }

    /** A manager over an empty collection with the unique index on user_id in place. */
    constructor(plans: map<ObjectId, Plan>)
      requires CatalogKeyed(plans)
      ensures Valid() && rows == map[] && this.plans == plans
    {
      rows := map[];
      nextId := 1;
      this.plans := plans;
    }

    /**
     * Set the user's subscription to the requested plan, ACTIVE from `now`, whether or not a row
     * existed; a new row gets a fresh identifier, an existing one keeps its own.
     */
    method UpsertSubscription(userId: string, planId: ObjectId, now: Time) returns (r: Result<View, Error>)
      requires Valid() && Clock.Valid(now)
      modifies this
      ensures Valid() && NoNewInactive(old(rows), rows)
      ensures planId !in plans ==> r == Err(PlanNotFound) && rows == old(rows) && nextId == old(nextId)
      ensures planId in plans && ExpiryFor(plans[planId].duration, now).None? ==>
        r == Err(InvalidPlanDuration) && rows == old(rows) && nextId == old(nextId)
      ensures planId in plans && ExpiryFor(plans[planId].duration, now).Some? ==>
        var expiry := ExpiryFor(plans[planId].duration, now).value;
        var id := if userId in old(rows) then old(rows)[userId].id else old(nextId);
        && rows == old(rows)[userId := Subscription(id, userId, planId, Active, now, expiry, now)]
        && nextId == old(nextId) + 1
        && r == Ok(View(Subscription(NilObjectId, userId, planId, Active, now, expiry, now), Some(plans[planId])))
    {
      if planId !in plans {
        return Err(PlanNotFound);
      }
      var plan := plans[planId];
      var expiry := ExpiryFor(plan.duration, now);
      if expiry.None? {
        return Err(InvalidPlanDuration);
      }
      var subscription := Subscription(NilObjectId, userId, planId, Active, now, expiry.value, now);
      // The update document's $setOnInsert draws a new identifier on every call.
      var insertId := nextId;
      nextId := nextId + 1;
      if userId in rows {
        var row := rows[userId];
        row := row.(planId := subscription.planId, status := subscription.status);
        row := row.(startDate := subscription.startDate, expiresAt := subscription.expiresAt);
        row := row.(createdAt := subscription.createdAt);
        rows := rows[userId := row];
      } else {
        rows := rows[userId := subscription.(id := insertId)];
      }
      r := Ok(View(subscription, Some(plan)));
    }

    /**
     * Read the user's row; a lapsed ACTIVE row has its status written back as EXPIRED and is
     * returned as EXPIRED. The plan is joined in when the catalog has it.
     */
    method GetSubscription(userId: string, now: Time) returns (r: Result<View, Error>)
      requires Valid()
      modifies this
      ensures Valid() && nextId == old(nextId) && NoNewInactive(old(rows), rows)
      ensures userId !in old(rows) ==> r == Err(NoDocuments) && rows == old(rows)
      ensures userId in old(rows) ==>
        var seen := Refreshed(old(rows)[userId], now);
        && rows == old(rows)[userId := seen]
        && r == Ok(View(seen, PlanOf(plans, seen.planId)))
      ensures userId in old(rows) && !DueForExpiry(old(rows)[userId], now) ==> rows == old(rows)
      ensures r.Ok? && r.value.plan.Some? ==> r.value.plan.value.id == r.value.sub.planId
    {
      if userId !in rows {
        return Err(NoDocuments);
      }
      var subscription := rows[userId];
      if subscription.status == Active && After(now, subscription.expiresAt) {
        subscription := subscription.(status := Expired);
        rows := rows[userId := rows[userId].(status := Expired)];
      }
      var plan := PlanOf(plans, subscription.planId);
      r := Ok(View(subscription, plan));
    }

    /**
     * Cancel through GetSubscription: a lapsed row is first written back as EXPIRED and then
     * refused as not active; an ACTIVE row gets status CANCELLED and nothing else changes.
     */
    method CancelSubscription(userId: string, now: Time) returns (err: Option<Error>)
      requires Valid()
      modifies this
      ensures Valid() && nextId == old(nextId) && NoNewInactive(old(rows), rows)
      ensures userId !in old(rows) ==> err == Some(SubscriptionNotFound) && rows == old(rows)
      ensures userId in old(rows) ==>
        var row := old(rows)[userId];
        && err == ManagerCancelRejection(row, now)
        && rows == old(rows)[userId := if err.None? then row.(status := Cancelled) else Refreshed(row, now)]
    {
      var found := GetSubscription(userId, now);
      if found.Err? {
        return Some(SubscriptionNotFound);
      }
      if found.value.sub.status != Active {
        return Some(CancelNotActive);
      }
      rows := rows[userId := rows[userId].(status := Cancelled)];
      err := None;
    }
  }
}
