/**
 When the requests of a client are answered.  A client's requests are numbered, and any time may
 pass before each.
 */
module Schedule {

  /** The instant request `k` is answered: `pauses` says how long the client and the network take before each. */
  function TimeOf(pauses: nat -> nat, k: nat): nat
  {
    pauses(k) + if k == 0 then 0 else TimeOf(pauses, k - 1)
  }

  lemma {:induction false} TimesGrow(pauses: nat -> nat, j: nat, k: nat)
    requires j <= k
    ensures TimeOf(pauses, j) <= TimeOf(pauses, k)
    decreases k - j
  {
    if j < k { TimesGrow(pauses, j, k - 1); }
  }

  /** A schedule for examples: every request but the first takes two. */
  function EveryTwo(k: nat): nat
  {
    if k == 0 then 0 else 2
  }

  lemma {:induction false} EveryTwoTimes(k: nat)
    ensures TimeOf(EveryTwo, k) == 2 * k
  {
    if k > 0 { EveryTwoTimes(k - 1); }
  }
}
