/**
 * How the two engines differ on cancellation. Both re-check expiry before cancelling and both
 * write a lapsed ACTIVE row back as EXPIRED, but they report that case with different errors.
 */
module Variants {
  import opened Wrappers
  import opened Clock
  import opened Models
  import opened Services

  /**
   * On a row stored as ACTIVE whose expiry has passed, the service reports "already expired"
   * while the manager, which has re-read the row as EXPIRED, reports "not active".
   * On every other row the two verdicts coincide.
   */
  lemma CancelVerdictsDifferOnlyOnLapsedRows(s: Subscription, now: Time)
    ensures DueForExpiry(s, now) ==>
      CancelRejection(s, now) == Some(AlreadyExpired) && ManagerCancelRejection(s, now) == Some(CancelNotActive)
    ensures DueForExpiry(s, now) ==>
      && CancelRejection(s, now).value.Message() == "subscription has already expired"
      && ManagerCancelRejection(s, now).value.Message() == "can only cancel active subscriptions"
    ensures !DueForExpiry(s, now) ==> CancelRejection(s, now) == ManagerCancelRejection(s, now)
  {
  }

  /**
   * Both engines accept a cancel on exactly the same rows, so the row each leaves behind is the
   * same: CANCELLED on acceptance, the row as read at `now` otherwise.
   */
  lemma CancelAcceptedAlike(s: Subscription, now: Time)
    ensures CancelRejection(s, now).None? <==> ManagerCancelRejection(s, now).None?
  {
  }
}
