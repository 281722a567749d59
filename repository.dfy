/**
 * The keyed store the service engine writes through: the subscriptions collection behind its
 * unique index on user_id. Each primitive is specified by the exact set of fields it writes.
 */
module Repository {
  import opened Wrappers
  import opened Clock
  import opened Models

  class SubscriptionRepository {
    /** The collection's documents, keyed by their unique user_id. */
    var rows: map<string, Subscription>
    /** The next identifier `primitive.NewObjectID` hands out. */
    var nextId: ObjectId

    ghost predicate Valid()
      reads this
    {
      WellFormed(rows, nextId)
    }

    /** A repository over an empty collection with the unique index on user_id in place. */
    constructor()
      ensures Valid() && rows == map[]
    {
      rows := map[];
      nextId := 1;
    }

    /**
     * Insert a new document for `sub.userId` with a fresh identifier and `created_at = now`;
     * a second document for the same user violates the unique index and nothing is written.
     */
    method Create(sub: Subscription, now: Time) returns (r: Result<Subscription, Error>)
      requires Valid()
      modifies this
      ensures Valid() && nextId == old(nextId) + 1
      ensures sub.userId in old(rows) ==> r == Err(DuplicateKey) && rows == old(rows)
      ensures sub.userId !in old(rows) ==>
        && r == Ok(sub.(id := old(nextId), createdAt := now))
        && rows == old(rows)[sub.userId := r.value]
      ensures r.Ok? ==> r.value.id !in set u | u in old(rows) :: old(rows)[u].id
    {
      var saved := sub.(id := nextId);
      nextId := nextId + 1;
      saved := saved.(createdAt := now);
      if saved.userId in rows {
        return Err(DuplicateKey);
      }
      rows := rows[saved.userId := saved];
      r := Ok(saved);
    }

    /** The document stored for the user, or the driver's "no documents" error. */
    function GetByUserID(userId: string): (r: Result<Subscription, Error>)
      requires Valid()
      reads this
      ensures r.Ok? <==> userId in rows
      ensures r.Ok? ==> r.value == rows[userId] && r.value.userId == userId
      ensures r.Err? ==> r.error == NoDocuments
    {
      if userId in rows then Ok(rows[userId]) else Err(NoDocuments)
    }

    /**
     * Overwrite plan_id, status, start_date and expires_at of the user's document with those of
     * `sub`; `_id`, user_id and created_at are never touched, and a missing user matches nothing.
     */
    method Update(userId: string, sub: Subscription)
      requires Valid()
      modifies this
      ensures Valid() && nextId == old(nextId)
      ensures userId !in old(rows) ==> rows == old(rows)
      ensures userId in old(rows) ==>
        var row := old(rows)[userId];
        rows == old(rows)[userId := Subscription(row.id, row.userId, sub.planId, sub.status,
                                                 sub.startDate, sub.expiresAt, row.createdAt)]
    {
      if userId in rows {
        var row := rows[userId];
        row := row.(planId := sub.planId, status := sub.status);
        row := row.(startDate := sub.startDate, expiresAt := sub.expiresAt);
        rows := rows[userId := row];
      }
    }

    /**
     * Set created_at = now (also on `sub`, which is returned) and write the four data fields and
     * created_at to the document of `sub.userId`; when there is none, insert one with a fresh
     * identifier. An existing document keeps its identifier.
     */
    method Upsert(sub: Subscription, now: Time) returns (saved: Subscription)
      requires Valid()
      modifies this
      ensures Valid() && nextId == old(nextId) + 1
      ensures saved == sub.(createdAt := now)
      ensures var id := if sub.userId in old(rows) then old(rows)[sub.userId].id else old(nextId);
        rows == old(rows)[sub.userId := Subscription(id, sub.userId, sub.planId, sub.status,
                                                     sub.startDate, sub.expiresAt, now)]
    {
      saved := sub.(createdAt := now);
      // The update document's $setOnInsert draws a new identifier on every call.
      var insertId := nextId;
      nextId := nextId + 1;
      if saved.userId in rows {
        var row := rows[saved.userId];
        row := row.(planId := saved.planId, status := saved.status);
        row := row.(startDate := saved.startDate, expiresAt := saved.expiresAt);
        row := row.(createdAt := saved.createdAt);
        rows := rows[saved.userId := row];
      } else {
        rows := rows[saved.userId := saved.(id := insertId)];
      }
    }

    /** Remove the user's document, if any; every other document stays as it was. */
    method Delete(userId: string)
      requires Valid()
      modifies this
      ensures Valid() && nextId == old(nextId)
      ensures userId !in rows
      ensures forall u :: u in old(rows) && u != userId ==> u in rows && rows[u] == old(rows)[u]
      ensures rows.Keys == old(rows).Keys - {userId}
    {
      rows := rows - {userId};
    }

    /**
     * The documents whose expires_at lies strictly before `now` and whose status is not EXPIRED,
     * whatever else their status is.
     */
    function GetExpiredSubscriptions(now: Time): (r: set<Subscription>)
      requires Valid()
      reads this
      ensures forall s :: s in r ==> s.userId in rows && rows[s.userId] == s
      ensures forall u :: u in rows ==>
        (rows[u] in r <==> Before(rows[u].expiresAt, now) && rows[u].status != Expired)
    {
      // The query compares the stored status string with "EXPIRED".
      set u | u in rows && Before(rows[u].expiresAt, now) && rows[u].status.Name() != Expired.Name() :: rows[u]
    }

    /**
     * Set the status of the document with identifier `id`; no other field and no other document
     * changes, and an unknown identifier matches nothing.
     */
    method UpdateStatus(id: ObjectId, status: Status)
      requires Valid()
      modifies this
      ensures Valid() && nextId == old(nextId)
      ensures rows.Keys == old(rows).Keys
      ensures forall u :: u in old(rows) ==>
        rows[u] == if old(rows)[u].id == id then old(rows)[u].(status := status) else old(rows)[u]
      ensures forall u, v :: u in rows && v in rows && rows[u] != old(rows)[u] && rows[v] != old(rows)[v] ==> u == v
    {
      if u :| u in rows && rows[u].id == id {
        rows := rows[u := rows[u].(status := status)];
      }
    }
  }

  /**
   * Every row a read at `now` would flip to EXPIRED is among the expired subscriptions the
   * repository reports at `now`.
   */
  lemma ReportedIncludesLapsed(repo: SubscriptionRepository, now: Time)
    requires repo.Valid()
    ensures forall u :: u in repo.rows && DueForExpiry(repo.rows[u], now) ==>
      repo.rows[u] in repo.GetExpiredSubscriptions(now)
  {
  }

  /** A CANCELLED row past its expiry is reported too, although no read ever flips it. */
  lemma ReportedIncludesCancelled(repo: SubscriptionRepository, u: string, now: Time)
    requires repo.Valid() && u in repo.rows
    requires repo.rows[u].status == Cancelled && After(now, repo.rows[u].expiresAt)
    ensures repo.rows[u] in repo.GetExpiredSubscriptions(now)
    ensures Refreshed(repo.rows[u], now) == repo.rows[u]
  {
  }
}
