/**
 * A database table as a map from auto-increment row ids to rows, and the
 * `where(...)->first()` query: the matching row with the least id.
 */
module Tables {
  import opened Wrappers

  /** The least key in [from, bound) whose row satisfies p. */
  function FirstKey<T>(rows: map<nat, T>, p: T -> bool, from: nat, bound: nat): (r: Option<nat>)
    decreases bound - from
    ensures r.Some? ==> from <= r.value < bound && r.value in rows && p(rows[r.value])
    ensures r.Some? ==> forall k :: from <= k < r.value && k in rows ==> !p(rows[k])
    ensures r.None? ==> forall k :: from <= k < bound && k in rows ==> !p(rows[k])
  {
    if bound <= from then None
    else if from in rows && p(rows[from]) then Some(from)
    else FirstKey(rows, p, from + 1, bound)
  }

  /** Every row id lies below the next id to be handed out. */
  ghost predicate IdsBelow<T>(rows: map<nat, T>, nextId: nat) {
    forall k :: k in rows ==> k < nextId
  }

  /** With all ids below the bound, `first()` finds a row whenever one matches. */
  lemma FirstKeyComplete<T>(rows: map<nat, T>, p: T -> bool, nextId: nat, k: nat)
    requires IdsBelow(rows, nextId)
    requires k in rows && p(rows[k])
    ensures FirstKey(rows, p, 0, nextId).Some?
    ensures FirstKey(rows, p, 0, nextId).value <= k
  {
  }
}
