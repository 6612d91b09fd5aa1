/** Private state of one core: the two encodings of its values, ordered (a last-update map) and
    unordered (read-from and coherence over timestamps), against running the steps one by one.

    `tr` is the core's trace, its steps in the order they are taken. */
module LocalState {
  import opened Traces

  ghost predicate IsTrace(p: Program, tr: seq<nat>) {
    && (forall k :: 0 <= k < |tr| ==> InRange(p, tr[k]))
    && (forall j, k :: 0 <= j < k < |tr| ==> tr[j] != tr[k])
  }

  ghost predicate InTimeOrder(p: Program, t: Times, tr: seq<nat>)
    requires Sized(p, t) && IsTrace(p, tr)
  {
    && (forall k :: 0 <= k < |tr| ==> t.ts[tr[k]] > 0)
    && (forall j, k :: 0 <= j < k < |tr| ==> t.ts[tr[j]] < t.ts[tr[k]])
  }

  predicate Updates(p: Program, s: Var, i: nat) {
    InRange(p, i) && s in p.steps[i].updates
  }

  // ----- the meaning: one step after another -----

  /** The value of `s` before step number `k` of the trace. */
  function SeqVal(p: Program, v: Valuation, tr: seq<nat>, k: nat, s: Var): int
    requires k <= |tr|
  {
    if k == 0 then v.init(s, 0)
    else if Updates(p, s, tr[k - 1]) && v.decode(tr[k - 1]) then v.wval(tr[k - 1], s)
    else SeqVal(p, v, tr, k - 1, s)
  }

  ghost predicate LocalRun(p: Program, v: Valuation, tr: seq<nat>, privs: set<Var>) {
    && (forall k: nat, s :: k < |tr| && s in privs && Reads(p, s, tr[k]) ==> v.rval(tr[k], s) == SeqVal(p, v, tr, k, s))
    && (forall s :: s in privs ==> v.fin(s) == SeqVal(p, v, tr, |tr|, s))
  }

  // ----- the ordered encoding -----

  /** The last step before number `k` that has an update for `s`, decoded or not; 0 if none. */
  function LastUpdate(p: Program, tr: seq<nat>, k: nat, s: Var): nat
    requires k <= |tr|
  {
    if k == 0 then 0
    else if Updates(p, s, tr[k - 1]) then tr[k - 1]
    else LastUpdate(p, tr, k - 1, s)
  }

  /** ITE(decode, update, state), all read at the step itself. */
  function ConditionalUpdate(v: Valuation, w: nat, s: Var): int {
    if w == 0 then v.init(s, 0) else if v.decode(w) then v.wval(w, s) else v.rval(w, s)
  }

  ghost predicate OrderedLocal(p: Program, v: Valuation, tr: seq<nat>, privs: set<Var>) {
    && (forall k: nat, s :: k < |tr| && s in privs && Reads(p, s, tr[k]) ==>
          v.rval(tr[k], s) == ConditionalUpdate(v, LastUpdate(p, tr, k, s), s))
    && (forall s :: s in privs ==> v.fin(s) == ConditionalUpdate(v, LastUpdate(p, tr, |tr|, s), s))
  }

  // ----- the unordered encoding -----

  predicate Defines(p: Program, tr: seq<nat>, s: Var, w: nat) {
    w == 0 || (w in tr && Updates(p, s, w))
  }

  function Defined(v: Valuation, w: nat, s: Var): int {
    if w == 0 then v.init(s, 0) else v.wval(w, s)
  }

  ghost predicate LocalReadsFrom(p: Program, v: Valuation, t: Times, tr: seq<nat>, s: Var, r: nat, w: nat)
    requires Sized(p, t) && IsTrace(p, tr) && r in tr
  {
    && Defines(p, tr, s, w) && w != r
    && v.rval(r, s) == Defined(v, w, s) && Decoded(v, w) && Stamp(p, t, w) < Stamp(p, t, r)
    && forall w2: nat :: Defines(p, tr, s, w2) && w2 != w && w2 != r && Decoded(v, w2) ==>
         Stamp(p, t, w2) < Stamp(p, t, w) || Stamp(p, t, r) < Stamp(p, t, w2)
  }

  ghost predicate FinalFrom(p: Program, v: Valuation, t: Times, tr: seq<nat>, s: Var, w: nat)
    requires Sized(p, t) && IsTrace(p, tr)
  {
    && Defines(p, tr, s, w) && v.fin(s) == Defined(v, w, s) && Decoded(v, w)
    && forall w2: nat :: Defines(p, tr, s, w2) && w2 != w && Decoded(v, w2) ==> Stamp(p, t, w2) < Stamp(p, t, w)
  }

  ghost predicate UnorderedLocal(p: Program, v: Valuation, t: Times, tr: seq<nat>, privs: set<Var>)
    requires Sized(p, t) && IsTrace(p, tr) && |p.steps| > 0
  {
    && (forall r: nat, s :: r in tr && s in privs && Reads(p, s, r) ==>
          exists w: nat :: LocalReadsFrom(p, v, t, tr, s, r, w))
    && (forall s :: s in privs ==> exists w: nat :: FinalFrom(p, v, t, tr, s, w))
  }

  // ----- unordered encoding: always the run in timestamp order -----

  /** The last decoded definition before number `k`, whose value the run sees. */
  function LastDecoded(p: Program, v: Valuation, tr: seq<nat>, k: nat, s: Var): nat
    requires k <= |tr|
  {
    if k == 0 then 0
    else if Updates(p, s, tr[k - 1]) && v.decode(tr[k - 1]) then tr[k - 1]
    else LastDecoded(p, v, tr, k - 1, s)
  }

  lemma {:induction false} LastDecodedSpec(p: Program, v: Valuation, t: Times, tr: seq<nat>, k: nat, s: Var)
    requires k <= |tr| && Sized(p, t) && IsTrace(p, tr) && InTimeOrder(p, t, tr)
    ensures var w := LastDecoded(p, v, tr, k, s);
            && Defines(p, tr, s, w) && Decoded(v, w) && Defined(v, w, s) == SeqVal(p, v, tr, k, s)
            && (w != 0 ==> exists j :: 0 <= j < k && tr[j] == w)
            && forall j :: 0 <= j < k && Updates(p, s, tr[j]) && v.decode(tr[j]) && tr[j] != w ==>
                 w != 0 && t.ts[tr[j]] < t.ts[w]
  {
    if k > 0 {
      LastDecodedSpec(p, v, t, tr, k - 1, s);
    }
  }

  lemma {:induction false} ReadIsLastDecoded(p: Program, v: Valuation, t: Times, tr: seq<nat>, k: nat, s: Var)
    requires k < |tr| && Sized(p, t) && IsTrace(p, tr) && InTimeOrder(p, t, tr)
    ensures (exists w: nat :: LocalReadsFrom(p, v, t, tr, s, tr[k], w)) <==> v.rval(tr[k], s) == SeqVal(p, v, tr, k, s)
  {
    var r := tr[k];
    LastDecodedSpec(p, v, t, tr, k, s);
    var last := LastDecoded(p, v, tr, k, s);
    forall w: nat | LocalReadsFrom(p, v, t, tr, s, r, w) ensures w == last {
    }
    if v.rval(r, s) == SeqVal(p, v, tr, k, s) {
      assert LocalReadsFrom(p, v, t, tr, s, r, last);
    }
  }

  lemma {:induction false} FinalIsLastDecoded(p: Program, v: Valuation, t: Times, tr: seq<nat>, s: Var)
    requires Sized(p, t) && IsTrace(p, tr) && InTimeOrder(p, t, tr)
    ensures (exists w: nat :: FinalFrom(p, v, t, tr, s, w)) <==> v.fin(s) == SeqVal(p, v, tr, |tr|, s)
  {
    LastDecodedSpec(p, v, t, tr, |tr|, s);
    var last := LastDecoded(p, v, tr, |tr|, s);
    forall w: nat | FinalFrom(p, v, t, tr, s, w) ensures w == last {
    }
    if v.fin(s) == SeqVal(p, v, tr, |tr|, s) {
      assert FinalFrom(p, v, t, tr, s, last);
    }
  }

  /** The unordered encoding says the core runs its steps in the order of their timestamps. */
  lemma {:induction false} UnorderedIsRun(p: Program, v: Valuation, t: Times, tr: seq<nat>, privs: set<Var>)
    requires Sized(p, t) && IsTrace(p, tr) && |p.steps| > 0 && InTimeOrder(p, t, tr)
    ensures UnorderedLocal(p, v, t, tr, privs) <==> LocalRun(p, v, tr, privs)
  {
    forall k: nat, s | k < |tr|
      ensures (exists w: nat :: LocalReadsFrom(p, v, t, tr, s, tr[k], w)) <==> v.rval(tr[k], s) == SeqVal(p, v, tr, k, s)
    {
      ReadIsLastDecoded(p, v, t, tr, k, s);
    }
    forall s ensures (exists w: nat :: FinalFrom(p, v, t, tr, s, w)) <==> v.fin(s) == SeqVal(p, v, tr, |tr|, s) {
      FinalIsLastDecoded(p, v, t, tr, s);
    }
    forall r: nat | r in tr ensures exists k: nat :: k < |tr| && tr[k] == r {
    }
  }

  // ----- ordered encoding: the run, when every consulted writer decodes or reads the state -----

  /** The last-update map still holds step number `k` when a later read or the end looks it up. */
  ghost predicate Consulted(p: Program, tr: seq<nat>, k: nat, s: Var) {
    && k < |tr| && Updates(p, s, tr[k])
    && exists k2: nat :: k < k2 <= |tr| && Consumes(p, tr, k2, s) && LastUpdate(p, tr, k2, s) == tr[k]
  }

  predicate Consumes(p: Program, tr: seq<nat>, k: nat, s: Var) {
    k == |tr| || (k < |tr| && Reads(p, s, tr[k]))
  }

  /** An undecoded writer keeps the state, which its step only constrains when it reads it. */
  ghost predicate KeepsUndecoded(p: Program, decode: nat -> bool, tr: seq<nat>, privs: set<Var>) {
    forall k: nat, s :: s in privs && Consulted(p, tr, k, s) ==> decode(tr[k]) || Reads(p, s, tr[k])
  }

  lemma {:induction false} LastUpdateSpec(p: Program, v: Valuation, tr: seq<nat>, k: nat, s: Var)
    requires k <= |tr| && IsTrace(p, tr)
    ensures var w := LastUpdate(p, tr, k, s);
            && (w == 0 ==> SeqVal(p, v, tr, k, s) == v.init(s, 0))
            && (w != 0 ==> Updates(p, s, w))
            && (w != 0 ==> exists j: nat :: (j < k && tr[j] == w && SeqVal(p, v, tr, k, s) ==
                  (if v.decode(w) then v.wval(w, s) else SeqVal(p, v, tr, j, s))))
  {
    if k > 0 {
      LastUpdateSpec(p, v, tr, k - 1, s);
      if Updates(p, s, tr[k - 1]) {
        var j: nat := k - 1;
        assert j < k && tr[j] == LastUpdate(p, tr, k, s);
      }
    }
  }

  /** What the last-update map returns at `k`, given that the writer's own read is the run's. */
  lemma {:induction false} MapIsRun(p: Program, v: Valuation, tr: seq<nat>, privs: set<Var>, k: nat, s: Var)
    requires IsTrace(p, tr) && s in privs && k <= |tr| && Consumes(p, tr, k, s)
    requires KeepsUndecoded(p, v.decode, tr, privs)
    requires forall j: nat :: j < k && Reads(p, s, tr[j]) ==> v.rval(tr[j], s) == SeqVal(p, v, tr, j, s)
    ensures ConditionalUpdate(v, LastUpdate(p, tr, k, s), s) == SeqVal(p, v, tr, k, s)
  {
    LastUpdateSpec(p, v, tr, k, s);
    var w := LastUpdate(p, tr, k, s);
    if w != 0 && !v.decode(w) {
      var j: nat :| j < k && tr[j] == w && SeqVal(p, v, tr, k, s) == SeqVal(p, v, tr, j, s);
      assert Consulted(p, tr, j, s);
    }
  }

  lemma {:induction false} OrderedReads(p: Program, v: Valuation, tr: seq<nat>, privs: set<Var>, k: nat, s: Var)
    requires IsTrace(p, tr) && s in privs && k <= |tr|
    requires KeepsUndecoded(p, v.decode, tr, privs) && OrderedLocal(p, v, tr, privs)
    ensures forall j: nat :: j < k && Reads(p, s, tr[j]) ==> v.rval(tr[j], s) == SeqVal(p, v, tr, j, s)
  {
    if k > 0 {
      OrderedReads(p, v, tr, privs, k - 1, s);
      if Reads(p, s, tr[k - 1]) { MapIsRun(p, v, tr, privs, k - 1, s); }
    }
  }

  lemma {:induction false} OrderedIsRun(p: Program, v: Valuation, tr: seq<nat>, privs: set<Var>)
    requires IsTrace(p, tr) && KeepsUndecoded(p, v.decode, tr, privs)
    ensures OrderedLocal(p, v, tr, privs) <==> LocalRun(p, v, tr, privs)
  {
    if OrderedLocal(p, v, tr, privs) {
      forall s | s in privs
        ensures (forall k: nat :: k < |tr| && Reads(p, s, tr[k]) ==> v.rval(tr[k], s) == SeqVal(p, v, tr, k, s))
        ensures v.fin(s) == SeqVal(p, v, tr, |tr|, s)
      {
        OrderedReads(p, v, tr, privs, |tr|, s);
        MapIsRun(p, v, tr, privs, |tr|, s);
      }
    }
    if LocalRun(p, v, tr, privs) {
      forall k: nat, s | s in privs && k <= |tr| && Consumes(p, tr, k, s)
        ensures ConditionalUpdate(v, LastUpdate(p, tr, k, s), s) == SeqVal(p, v, tr, k, s)
      {
        MapIsRun(p, v, tr, privs, k, s);
      }
    }
  }

  /** A solution of the ordered encoding that is no run: step number `bad` neither decodes nor
      reads `s`, so its kept value can be 1 although every definition is 0. */
  function StrayVal(p: Program, decode: nat -> bool, tr: seq<nat>, bad: nat, s: Var, k: nat): int
    requires k <= |tr|
  {
    if k == 0 then 0
    else if k - 1 == bad then 1
    else if Updates(p, s, tr[k - 1]) && decode(tr[k - 1]) then 0
    else StrayVal(p, decode, tr, bad, s, k - 1)
  }

  ghost function Index(tr: seq<nat>, i: nat): (k: nat)
    ensures i in tr ==> k < |tr| && tr[k] == i
  {
    if i in tr then var k: nat :| k < |tr| && tr[k] == i; k else 0
  }

  ghost function Stray(p: Program, decode: nat -> bool, tr: seq<nat>, bad: nat, s: Var): Valuation
    requires bad < |tr|
  {
    var stray := (i: nat) =>
      if i == tr[bad] then 1
      else if i in tr && Index(tr, i) <= |tr| then StrayVal(p, decode, tr, bad, s, Index(tr, i)) else 0;
    Valuation(decode, (i, x) => 0, (i: nat, x) => if x == s then stray(i) else 0, (i, x) => 0, (i, x) => 0, (x, a) => 0,
              x => if x == s then StrayVal(p, decode, tr, bad, s, |tr|) else 0)
  }

  lemma {:induction false} StrayIsOrdered(p: Program, decode: nat -> bool, tr: seq<nat>, bad: nat, s: Var, k: nat)
    requires IsTrace(p, tr) && bad < |tr| && k <= |tr|
    requires Updates(p, s, tr[bad]) && !decode(tr[bad])
    ensures ConditionalUpdate(Stray(p, decode, tr, bad, s), LastUpdate(p, tr, k, s), s) == StrayVal(p, decode, tr, bad, s, k)
  {
    if k > 0 {
      StrayIsOrdered(p, decode, tr, bad, s, k - 1);
    }
  }

  lemma {:induction false} AllZero(p: Program, v: Valuation, tr: seq<nat>, k: nat, s: Var)
    requires IsTrace(p, tr) && k <= |tr|
    requires v.init(s, 0) == 0 && forall i: nat :: v.wval(i, s) == 0
    ensures SeqVal(p, v, tr, k, s) == 0
  {
    if k > 0 { AllZero(p, v, tr, k - 1, s); }
  }

  lemma {:induction false} StrayStays(p: Program, decode: nat -> bool, tr: seq<nat>, bad: nat, s: Var, k: nat)
    requires IsTrace(p, tr) && bad < k <= |tr| && LastUpdate(p, tr, k, s) == tr[bad] && Updates(p, s, tr[bad])
    ensures StrayVal(p, decode, tr, bad, s, k) == 1
  {
    if k - 1 != bad { StrayStays(p, decode, tr, bad, s, k - 1); }
  }

  lemma {:induction false} StrayMeetsOrdered(p: Program, decode: nat -> bool, tr: seq<nat>, privs: set<Var>, bad: nat, s: Var)
    requires IsTrace(p, tr) && bad < |tr| && s in privs
    requires Consulted(p, tr, bad, s) && !decode(tr[bad]) && !Reads(p, s, tr[bad])
    ensures OrderedLocal(p, Stray(p, decode, tr, bad, s), tr, privs)
  {
    var v := Stray(p, decode, tr, bad, s);
    forall k: nat, x | k <= |tr| && x in privs && Consumes(p, tr, k, x)
      ensures (if k < |tr| then v.rval(tr[k], x) else v.fin(x)) == ConditionalUpdate(v, LastUpdate(p, tr, k, x), x)
    {
      StrayIsOrdered(p, decode, tr, bad, s, k);
      if k < |tr| { assert Index(tr, tr[k]) == k; }
    }
  }

  lemma {:induction false} StrayIsSolution(p: Program, decode: nat -> bool, tr: seq<nat>, privs: set<Var>, bad: nat, s: Var)
    requires IsTrace(p, tr) && bad < |tr| && s in privs
    requires Consulted(p, tr, bad, s) && !decode(tr[bad]) && !Reads(p, s, tr[bad])
    ensures OrderedLocal(p, Stray(p, decode, tr, bad, s), tr, privs)
    ensures !LocalRun(p, Stray(p, decode, tr, bad, s), tr, privs)
  {
    var v := Stray(p, decode, tr, bad, s);
    StrayMeetsOrdered(p, decode, tr, privs, bad, s);
    var k2: nat :| bad < k2 <= |tr| && Consumes(p, tr, k2, s) && LastUpdate(p, tr, k2, s) == tr[bad];
    StrayStays(p, decode, tr, bad, s, k2);
    AllZero(p, v, tr, k2, s);
    if k2 < |tr| { assert Index(tr, tr[k2]) == k2; }
  }

  /** The ordered encoding means the sequential run, whatever the values, exactly when every
      consulted writer decodes or reads the state it writes. */
  lemma {:induction false} OrderedIsExact(p: Program, decode: nat -> bool, tr: seq<nat>, privs: set<Var>)
    requires IsTrace(p, tr)
    ensures KeepsUndecoded(p, decode, tr, privs) <==>
              forall v: Valuation :: v.decode == decode ==> (OrderedLocal(p, v, tr, privs) <==> LocalRun(p, v, tr, privs))
  {
    forall v: Valuation | KeepsUndecoded(p, decode, tr, privs) && v.decode == decode
      ensures OrderedLocal(p, v, tr, privs) <==> LocalRun(p, v, tr, privs)
    {
      OrderedIsRun(p, v, tr, privs);
    }
    if !KeepsUndecoded(p, decode, tr, privs) {
      var k: nat, s :| s in privs && Consulted(p, tr, k, s) && !(decode(tr[k]) || Reads(p, s, tr[k]));
      StrayIsSolution(p, decode, tr, privs, k, s);
      assert Stray(p, decode, tr, k, s).decode == decode;
    }
  }

  /** Under strict program-order timestamps the two encodings have the same solutions. */
  lemma {:induction false} OrderedIsUnordered(p: Program, v: Valuation, t: Times, tr: seq<nat>, privs: set<Var>)
    requires Sized(p, t) && IsTrace(p, tr) && |p.steps| > 0 && InTimeOrder(p, t, tr)
    requires KeepsUndecoded(p, v.decode, tr, privs)
    ensures OrderedLocal(p, v, tr, privs) <==> UnorderedLocal(p, v, t, tr, privs)
  {
    OrderedIsRun(p, v, tr, privs);
    UnorderedIsRun(p, v, t, tr, privs);
  }
}
