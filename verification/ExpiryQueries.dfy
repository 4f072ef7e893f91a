/** The two expiry queries, as the models of the tasks and the windows use them, are the comparison of
    stored texts. Deadlines and the clock are in one zone (Timestamps.ComparableExactly says why). */
module ExpiryQueries {
  import opened Wrappers
  import opened StateMachines
  import T = Timestamps
  import P = PilotTasks
  import W = Windows

  /** ListExpiredClaims: `expiry` is the stored claim_expires_at and t the row as the model has it. */
  lemma ExpiredClaimsByText(t: P.Task, expiry: Option<T.Time>, now: T.Time)
    requires T.FourDigitYear(now)
    requires expiry.Some? ==> T.FourDigitYear(expiry.value) && expiry.value.offset == now.offset
    requires t.expires == if expiry.Some? then Some(T.Seconds(expiry.value)) else None
    ensures P.ExpiredClaim(t, T.Seconds(now)) <==> T.Selected(expiry, now) && t.status in {Claimed, InProgress}
  {
    T.ExpiryQuery(expiry, now);
  }

  /** ListExpiredWindows: `deadline` is the stored deadline_at. */
  lemma ExpiredWindowsByText(w: W.Window, deadline: T.Time, now: T.Time)
    requires T.FourDigitYear(now) && T.FourDigitYear(deadline) && deadline.offset == now.offset
    requires w.deadline == T.Seconds(deadline)
    ensures W.Overdue(w, now.nanos) <==> T.Selected(Some(deadline), now) && w.status in {Effective, Occupied, Escalated}
  {
    T.ExpiryQuery(Some(deadline), now);
  }
}
