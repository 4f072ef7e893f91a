/** What surrounds the statements of one service call. */
module Environment {
  import opened Wrappers

  /** Around one statement: what the other clients do just before it, whether the store refuses it,
      whether the caller's context has ended, what the clock says, and the next UUID. */
  datatype Moment<X> = Moment(others: seq<X>, fault: Fault, ended: bool, now: int, day: int, uuid: Id)

  /** Nothing happens around the statement and the store accepts it. */
  predicate Still<X(==)>(m: Moment<X>) { m.others == [] && m.fault == Fine }

  /** An arbitrary environment of one call: env(n, k) is around the k-th statement of pass n of the call's
      loop, and env(0, k) around the k-th statement outside it. */
  type Env<X> = (nat, nat) -> Moment<X>

  /** How many of the passes 1 to n met storage contention at their k-th statement. */
  function Contentions<X>(env: Env<X>, k: nat, n: nat): nat {
    if n == 0 then 0 else Contentions(env, k, n - 1) + if env(n, k).fault == Contention then 1 else 0
  }

  lemma {:induction false} AtMostAll<X>(env: Env<X>, k: nat, n: nat)
    ensures Contentions(env, k, n) <= n
  {
    if n > 0 {
      AtMostAll(env, k, n - 1);
    }
  }

  lemma NotAllContended<X>(env: Env<X>, k: nat, n: nat)
    requires n > 0 && env(n, k).fault != Contention
    ensures Contentions(env, k, n) < n
  {
    AtMostAll(env, k, n - 1);
  }
}
