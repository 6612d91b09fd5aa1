/** How far a loop over a sequence has come in filling a set. */
module Prefixes {

  ghost predicate FirstIn<T>(s: seq<T>, k: nat, done: set<T>) {
    forall j :: 0 <= j < k && j < |s| ==> s[j] in done
  }

  lemma {:induction false} OneMoreIn<T>(s: seq<T>, k: nat, before: set<T>, after: set<T>)
    requires k < |s| && FirstIn(s, k, before) && before <= after && s[k] in after
    ensures FirstIn(s, k + 1, after)
  {
  }
}
