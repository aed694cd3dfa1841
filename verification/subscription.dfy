/**
 * The subscription-renewal rule: five guards over the subscription's flags,
 * its status and its end date.
 */
module Subscription {
  import opened Wrappers

  /**
   * A subscription record. Dates are moments, in milliseconds since the epoch
   * (what `getTime()` gives once a date is parsed); the flags stand for the
   * truthiness of the record's fields.
   */
  datatype Subscription = Subscription(
    status: string,
    endDate: int,
    hasBeenRenewed: bool,
    unpaidDebt: bool,
    isTrial: bool)

  /**
   * `currentDate || new Date()`: the given moment, or the clock's current
   * moment `now` when the argument is falsy (`None`).
   */
  function ReferenceDate(currentDate: Option<int>, now: int): (d: int)
    ensures currentDate.Some? ==> d == currentDate.value
    ensures currentDate.None? ==> d == now
  {
    currentDate.GetOr(now)
  }

  /**
   * `canRenewSubscription(subscription, currentDate)`: each guard in turn
   * refuses renewal; `now` is the clock's current moment, read when no
   * current date is given.
   */
  predicate CanRenewSubscription(sub: Subscription, currentDate: Option<int>, now: int)
    ensures CanRenewSubscription(sub, currentDate, now) <==>
      !sub.hasBeenRenewed && !sub.unpaidDebt && !sub.isTrial
      && sub.status == "active"
      && ReferenceDate(currentDate, now) <= sub.endDate
  {
    if sub.hasBeenRenewed then false
    else if sub.unpaidDebt then false
    else if sub.isTrial then false
    else if sub.status != "active" then false
    else if sub.endDate < ReferenceDate(currentDate, now) then false
    else true
  }

  /** Renewal still open at some moment stays open at every earlier moment. */
  lemma EarlierDateStillRenewable(sub: Subscription, d: int, earlier: int, now: int)
    requires CanRenewSubscription(sub, Some(d), now)
    requires earlier <= d
    ensures CanRenewSubscription(sub, Some(earlier), now)
  {
  }

  /** The end moment itself still allows renewal: the comparison is strict. */
  lemma EndDateIsInclusive(sub: Subscription, now: int)
    requires !sub.hasBeenRenewed && !sub.unpaidDebt && !sub.isTrial && sub.status == "active"
    ensures CanRenewSubscription(sub, Some(sub.endDate), now)
    ensures !CanRenewSubscription(sub, Some(sub.endDate + 1), now)
  {
  }

  /** Any status but exactly "active" refuses renewal, whatever the dates and flags. */
  lemma OnlyActiveRenews(sub: Subscription, currentDate: Option<int>, now: int)
    requires sub.status != "active"
    ensures !CanRenewSubscription(sub, currentDate, now)
  {
  }

  /** Without a current date the decision is the one for the current moment. */
  lemma MissingDateMeansNow(sub: Subscription, now: int)
    ensures CanRenewSubscription(sub, None, now) == CanRenewSubscription(sub, Some(now), now)
  {
  }

  /**
   * Without a current date, a call made later on the end day than the end
   * moment refuses renewal: `new Date()` carries the time of day.
   */
  lemma MissingDateLaterThanEnd(sub: Subscription, now: int)
    requires sub.endDate < now
    ensures !CanRenewSubscription(sub, None, now)
  {
  }
}
