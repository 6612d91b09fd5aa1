/** The loops that link the private states of one core, ordered and unordered. */
module LocalLinks {
  import opened Traces
  import opened LocalState
  import opened Constraints

  function AsSet(privs: seq<Var>): set<Var> {
    set s | s in privs
  }

  // ----- ordered: a last-update map -----

  /** What the last-update map holds for `s` after the first `k` steps. */
  function LastTerm(p: Program, tr: seq<nat>, k: nat, s: Var): Term
    requires k <= |tr|
  {
    var w := LastUpdate(p, tr, k, s);
    if w == 0 then UpdateOf(0, s) else Conditional(w, s)
  }

  ghost predicate MapOk(p: Program, tr: seq<nat>, k: nat, privs: seq<Var>, last: map<Var, Term>)
    requires k <= |tr|
  {
    forall s :: s in privs ==> s in last && last[s] == LastTerm(p, tr, k, s)
  }

  /** Each private state the step reads equals what the map holds. */
  method LinkReads(p: Program, tr: seq<nat>, k: nat, privs: seq<Var>, last: map<Var, Term>) returns (cs: seq<Constr>)
    requires IsTrace(p, tr) && k < |tr| && MapOk(p, tr, k, privs, last)
    ensures forall v, t :: Sized(p, t) ==>
              (AllHold(p, v, t, cs) <==>
               forall s :: s in privs && Reads(p, s, tr[k]) ==>
                 v.rval(tr[k], s) == ConditionalUpdate(v, LastUpdate(p, tr, k, s), s))
  {
    cs := [];
    for j := 0 to |privs|
      invariant forall v, t :: Sized(p, t) ==>
                  (AllHold(p, v, t, cs) <==>
                   forall i :: 0 <= i < j && Reads(p, privs[i], tr[k]) ==>
                     v.rval(tr[k], privs[i]) == ConditionalUpdate(v, LastUpdate(p, tr, k, privs[i]), privs[i]))
    {
      var s := privs[j];
      assert s in privs;
      if s in p.steps[tr[k]].uses {
        var c := Equal(StateAt(tr[k], s), last[s]);
        forall v, t | Sized(p, t) ensures AllHold(p, v, t, cs + [c]) <==> AllHold(p, v, t, cs) && Holds(p, v, t, c) {
          AllHoldAppendOne(p, v, t, cs, c);
        }
        cs := cs + [c];
      }
    }
  }

  method NoteUpdates(p: Program, tr: seq<nat>, k: nat, privs: seq<Var>, last: map<Var, Term>) returns (next: map<Var, Term>)
    requires IsTrace(p, tr) && k < |tr| && MapOk(p, tr, k, privs, last)
    ensures MapOk(p, tr, k + 1, privs, next)
  {
    next := last;
    for j := 0 to |privs|
      invariant forall i :: 0 <= i < j ==> privs[i] in next && next[privs[i]] == LastTerm(p, tr, k + 1, privs[i])
      invariant forall i :: j <= i < |privs| ==>
                  privs[i] in next && next[privs[i]] in {LastTerm(p, tr, k, privs[i]), LastTerm(p, tr, k + 1, privs[i])}
    {
      if privs[j] in p.steps[tr[k]].updates {
        next := next[privs[j] := Conditional(tr[k], privs[j])];
      }
    }
  }

  method LinkFinal(p: Program, tr: seq<nat>, privs: seq<Var>, last: map<Var, Term>) returns (cs: seq<Constr>)
    requires IsTrace(p, tr) && MapOk(p, tr, |tr|, privs, last)
    ensures forall v, t :: Sized(p, t) ==>
              (AllHold(p, v, t, cs) <==>
               forall s :: s in privs ==> v.fin(s) == ConditionalUpdate(v, LastUpdate(p, tr, |tr|, s), s))
  {
    cs := [];
    for j := 0 to |privs|
      invariant forall v, t :: Sized(p, t) ==>
                  (AllHold(p, v, t, cs) <==>
                   forall i :: 0 <= i < j ==> v.fin(privs[i]) == ConditionalUpdate(v, LastUpdate(p, tr, |tr|, privs[i]), privs[i]))
    {
      assert privs[j] in privs;
      var c := Equal(FinalState(privs[j]), last[privs[j]]);
      forall v, t | Sized(p, t) ensures AllHold(p, v, t, cs + [c]) <==> AllHold(p, v, t, cs) && Holds(p, v, t, c) {
        AllHoldAppendOne(p, v, t, cs, c);
      }
      cs := cs + [c];
    }
  }

  ghost predicate ReadsLinked(p: Program, v: Valuation, tr: seq<nat>, k: nat, privs: seq<Var>)
    requires IsTrace(p, tr) && k < |tr|
  {
    forall s :: s in privs && Reads(p, s, tr[k]) ==> v.rval(tr[k], s) == ConditionalUpdate(v, LastUpdate(p, tr, k, s), s)
  }

  ghost predicate StepLinked(p: Program, v: Valuation, t: Times, tr: seq<nat>, k: nat, privs: seq<Var>)
    requires Sized(p, t) && IsTrace(p, tr) && k < |tr|
  {
    ReadsLinked(p, v, tr, k, privs) && (k > 0 ==> t.ts[tr[k - 1]] < t.ts[tr[k]])
  }

  /** The reads of one step, and its order after the previous step. */
  method LinkStep(p: Program, tr: seq<nat>, k: nat, privs: seq<Var>, last: map<Var, Term>) returns (cs: seq<Constr>)
    requires IsTrace(p, tr) && k < |tr| && MapOk(p, tr, k, privs, last)
    ensures forall v, t :: Sized(p, t) ==> (AllHold(p, v, t, cs) <==> StepLinked(p, v, t, tr, k, privs))
  {
    cs := LinkReads(p, tr, k, privs, last);
    if k > 0 {
      var c := Before(StampOf(tr[k - 1]), StampOf(tr[k]));
      forall v, t | Sized(p, t)
        ensures AllHold(p, v, t, cs + [c]) <==> AllHold(p, v, t, cs) && t.ts[tr[k - 1]] < t.ts[tr[k]]
      {
        AllHoldAppendOne(p, v, t, cs, c);
      }
      cs := cs + [c];
    }
  }

  ghost predicate StepwiseOrder(p: Program, t: Times, tr: seq<nat>)
    requires Sized(p, t) && IsTrace(p, tr)
  {
    forall k :: 0 < k < |tr| ==> t.ts[tr[k - 1]] < t.ts[tr[k]]
  }

  ghost predicate FinalLinked(p: Program, v: Valuation, tr: seq<nat>, privs: seq<Var>) {
    forall s :: s in privs ==> v.fin(s) == ConditionalUpdate(v, LastUpdate(p, tr, |tr|, s), s)
  }

  lemma {:induction false} LinkedIsOrdered(p: Program, v: Valuation, t: Times, tr: seq<nat>, privs: seq<Var>)
    requires Sized(p, t) && IsTrace(p, tr)
    ensures (forall j :: 0 <= j < |tr| ==> StepLinked(p, v, t, tr, j, privs)) && FinalLinked(p, v, tr, privs)
            <==> OrderedLocal(p, v, tr, AsSet(privs)) && StepwiseOrder(p, t, tr)
  {
    if (forall j :: 0 <= j < |tr| ==> StepLinked(p, v, t, tr, j, privs)) {
      forall k: nat, s | k < |tr| && s in AsSet(privs) && Reads(p, s, tr[k])
        ensures v.rval(tr[k], s) == ConditionalUpdate(v, LastUpdate(p, tr, k, s), s)
      {
        assert StepLinked(p, v, t, tr, k, privs);
      }
      forall k | 0 < k < |tr| ensures t.ts[tr[k - 1]] < t.ts[tr[k]] {
        assert StepLinked(p, v, t, tr, k, privs);
      }
    }
  }

  /** The ordered encoding of one core: its private reads and final values, and its timestamps in
      the order of the trace. */
  method SetLocalStateOrdered(p: Program, tr: seq<nat>, privs: seq<Var>) returns (cs: seq<Constr>)
    requires IsTrace(p, tr)
    ensures forall v, t :: Sized(p, t) ==>
              (AllHold(p, v, t, cs) <==> OrderedLocal(p, v, tr, AsSet(privs)) && StepwiseOrder(p, t, tr))
  {
    var last := map s | s in privs :: UpdateOf(0, s);
    cs := [];
    for k := 0 to |tr|
      invariant MapOk(p, tr, k, privs, last)
      invariant forall v, t :: Sized(p, t) ==>
                  (AllHold(p, v, t, cs) <==> forall j :: 0 <= j < k ==> StepLinked(p, v, t, tr, j, privs))
    {
      var step := LinkStep(p, tr, k, privs, last);
      forall v, t | Sized(p, t)
        ensures AllHold(p, v, t, cs + step) <==> AllHold(p, v, t, cs) && StepLinked(p, v, t, tr, k, privs)
      {
        AllHoldAppend(p, v, t, cs, step);
      }
      cs := cs + step;
      last := NoteUpdates(p, tr, k, privs, last);
    }
    var final := LinkFinal(p, tr, privs, last);
    forall v, t | Sized(p, t)
      ensures AllHold(p, v, t, cs + final) <==> OrderedLocal(p, v, tr, AsSet(privs)) && StepwiseOrder(p, t, tr)
    {
      AllHoldAppend(p, v, t, cs, final);
      LinkedIsOrdered(p, v, t, tr, privs);
    }
    cs := cs + final;
  }

  // ----- unordered: read-from and coherence over the list of definitions -----

  /** The definitions of `s` in the trace: the initial one, then each step that updates it. */
  method CollectDefinitions(p: Program, tr: seq<nat>, s: Var) returns (defs: seq<nat>)
    requires IsTrace(p, tr)
    ensures forall w: nat :: w in defs <==> Defines(p, tr, s, w)
    ensures forall j, k :: 0 <= j < k < |defs| ==> defs[j] != defs[k]
  {
    defs := [0];
    for k := 0 to |tr|
      invariant forall w: nat :: w in defs <==> w == 0 || (w in tr[..k] && Updates(p, s, w))
      invariant forall i, j :: 0 <= i < j < |defs| ==> defs[i] != defs[j]
    {
      assert tr[..k + 1] == tr[..k] + [tr[k]];
      assert tr[k] !in tr[..k];
      if s in p.steps[tr[k]].updates {
        defs := defs + [tr[k]];
      }
    }
    assert tr[..|tr|] == tr;
  }

  ghost predicate NotInterfering(p: Program, v: Valuation, t: Times, r: nat, w: nat, w2: nat)
    requires Sized(p, t) && r < |p.steps| && w < |p.steps| && w2 < |p.steps|
  {
    w2 != w && w2 != r && Decoded(v, w2) ==>
      Stamp(p, t, w2) < Stamp(p, t, w) || Stamp(p, t, r) < Stamp(p, t, w2)
  }

  /** `r` reads `s` from the definition numbered `n`, with no interference from the others. */
  method LinkReadFrom(p: Program, tr: seq<nat>, defs: seq<nat>, s: Var, r: nat, n: nat) returns (c: Constr)
    requires IsTrace(p, tr) && |p.steps| > 0 && r in tr && n < |defs| && defs[n] != r
    requires forall w: nat :: w in defs <==> Defines(p, tr, s, w)
    requires forall j, k :: 0 <= j < k < |defs| ==> defs[j] != defs[k]
    ensures forall v, t :: Sized(p, t) ==> (Holds(p, v, t, c) <==> LocalReadsFrom(p, v, t, tr, s, r, defs[n]))
  {
    var w := defs[n];
    assert w in defs;
    c := And(And(Equal(StateAt(r, s), UpdateOf(w, s)), Before(StampOf(w), StampOf(r))), DecodeOf(w));
    ghost var base := c;
    for j := 0 to |defs|
      invariant forall v, t :: Sized(p, t) ==>
                  (Holds(p, v, t, c) <==>
                   Holds(p, v, t, base) && forall i :: 0 <= i < j ==> defs[i] in defs && NotInterfering(p, v, t, r, w, defs[i]))
    {
      assert defs[j] in defs;
      if j == n || defs[j] == r {
        continue;
      }
      var apart := Implies(DecodeOf(defs[j]),
                           Or(Before(StampOf(defs[j]), StampOf(w)), Before(StampOf(r), StampOf(defs[j]))));
      forall v, t | Sized(p, t) ensures Holds(p, v, t, apart) <==> NotInterfering(p, v, t, r, w, defs[j]) {
        assert Holds(p, v, t, apart.r) <==>
                 Stamp(p, t, defs[j]) < Stamp(p, t, w) || Stamp(p, t, r) < Stamp(p, t, defs[j]);
      }
      c := And(c, apart);
    }
    forall v, t | Sized(p, t) ensures Holds(p, v, t, c) <==> LocalReadsFrom(p, v, t, tr, s, r, w) {
      assert Holds(p, v, t, base.l) <==> v.rval(r, s) == Defined(v, w, s) && Stamp(p, t, w) < Stamp(p, t, r);
      assert Holds(p, v, t, base) <==> Holds(p, v, t, base.l) && Decoded(v, w);
      if Holds(p, v, t, c) {
        forall w2: nat | Defines(p, tr, s, w2)
          ensures w2 < |p.steps| && NotInterfering(p, v, t, r, w, w2)
        {
          assert w2 in defs;
          var i :| 0 <= i < |defs| && defs[i] == w2;
        }
        assert LocalReadsFrom(p, v, t, tr, s, r, w);
      }
      if LocalReadsFrom(p, v, t, tr, s, r, w) {
        forall i | 0 <= i < |defs| ensures defs[i] in defs && NotInterfering(p, v, t, r, w, defs[i]) {
          assert Defines(p, tr, s, defs[i]);
        }
      }
    }
  }

  /** Some definition supplies the read. */
  method LinkUnorderedRead(p: Program, tr: seq<nat>, defs: seq<nat>, s: Var, r: nat) returns (c: Constr)
    requires IsTrace(p, tr) && |p.steps| > 0 && r in tr
    requires forall w: nat :: w in defs <==> Defines(p, tr, s, w)
    requires forall j, k :: 0 <= j < k < |defs| ==> defs[j] != defs[k]
    ensures forall v, t :: Sized(p, t) ==> (Holds(p, v, t, c) <==> exists w: nat :: LocalReadsFrom(p, v, t, tr, s, r, w))
  {
    c := Truth(false);
    for n := 0 to |defs|
      invariant forall v, t :: Sized(p, t) ==>
                  (Holds(p, v, t, c) <==> exists i :: 0 <= i < n && LocalReadsFrom(p, v, t, tr, s, r, defs[i]))
    {
      if defs[n] == r {
        continue;
      }
      var from := LinkReadFrom(p, tr, defs, s, r, n);
      c := Or(c, from);
    }
    forall v, t | Sized(p, t) ensures Holds(p, v, t, c) <==> exists w: nat :: LocalReadsFrom(p, v, t, tr, s, r, w) {
      if w: nat :| LocalReadsFrom(p, v, t, tr, s, r, w) {
        assert w in defs;
        var i :| 0 <= i < |defs| && defs[i] == w;
      }
    }
  }

  ghost predicate Older(p: Program, v: Valuation, t: Times, w: nat, w2: nat)
    requires Sized(p, t) && w < |p.steps| && w2 < |p.steps|
  {
    w2 != w && Decoded(v, w2) ==> Stamp(p, t, w2) < Stamp(p, t, w)
  }

  method LinkFinalFrom(p: Program, tr: seq<nat>, defs: seq<nat>, s: Var, n: nat) returns (c: Constr)
    requires IsTrace(p, tr) && |p.steps| > 0 && n < |defs|
    requires forall w: nat :: w in defs <==> Defines(p, tr, s, w)
    requires forall j, k :: 0 <= j < k < |defs| ==> defs[j] != defs[k]
    ensures forall v, t :: Sized(p, t) ==> (Holds(p, v, t, c) <==> FinalFrom(p, v, t, tr, s, defs[n]))
  {
    var w := defs[n];
    assert w in defs;
    c := And(Equal(FinalState(s), UpdateOf(w, s)), DecodeOf(w));
    ghost var base := c;
    for j := 0 to |defs|
      invariant forall v, t :: Sized(p, t) ==>
                  (Holds(p, v, t, c) <==>
                   Holds(p, v, t, base) && forall i :: 0 <= i < j ==> defs[i] in defs && Older(p, v, t, w, defs[i]))
    {
      assert defs[j] in defs;
      if j == n {
        continue;
      }
      var apart := Implies(DecodeOf(defs[j]), Before(StampOf(defs[j]), StampOf(w)));
      forall v, t | Sized(p, t) ensures Holds(p, v, t, apart) <==> Older(p, v, t, w, defs[j]) {
      }
      c := And(c, apart);
    }
    forall v, t | Sized(p, t) ensures Holds(p, v, t, c) <==> FinalFrom(p, v, t, tr, s, w) {
      assert Holds(p, v, t, base) <==> v.fin(s) == Defined(v, w, s) && Decoded(v, w);
      if Holds(p, v, t, c) {
        forall w2: nat | Defines(p, tr, s, w2) ensures w2 < |p.steps| && Older(p, v, t, w, w2) {
          assert w2 in defs;
          var i :| 0 <= i < |defs| && defs[i] == w2;
        }
        assert FinalFrom(p, v, t, tr, s, w);
      }
      if FinalFrom(p, v, t, tr, s, w) {
        forall i | 0 <= i < |defs| ensures defs[i] in defs && Older(p, v, t, w, defs[i]) {
          assert Defines(p, tr, s, defs[i]);
        }
      }
    }
  }

  method LinkUnorderedFinal(p: Program, tr: seq<nat>, defs: seq<nat>, s: Var) returns (c: Constr)
    requires IsTrace(p, tr) && |p.steps| > 0
    requires forall w: nat :: w in defs <==> Defines(p, tr, s, w)
    requires forall j, k :: 0 <= j < k < |defs| ==> defs[j] != defs[k]
    ensures forall v, t :: Sized(p, t) ==> (Holds(p, v, t, c) <==> exists w: nat :: FinalFrom(p, v, t, tr, s, w))
  {
    c := Truth(false);
    for n := 0 to |defs|
      invariant forall v, t :: Sized(p, t) ==>
                  (Holds(p, v, t, c) <==> exists i :: 0 <= i < n && FinalFrom(p, v, t, tr, s, defs[i]))
    {
      var from := LinkFinalFrom(p, tr, defs, s, n);
      c := Or(c, from);
    }
    forall v, t | Sized(p, t) ensures Holds(p, v, t, c) <==> exists w: nat :: FinalFrom(p, v, t, tr, s, w) {
      if w: nat :| FinalFrom(p, v, t, tr, s, w) {
        assert w in defs;
        var i :| 0 <= i < |defs| && defs[i] == w;
      }
    }
  }

  ghost predicate StateLinked(p: Program, v: Valuation, t: Times, tr: seq<nat>, s: Var)
    requires Sized(p, t) && IsTrace(p, tr) && |p.steps| > 0
  {
    && (forall r: nat :: r in tr && Reads(p, s, r) ==> exists w: nat :: LocalReadsFrom(p, v, t, tr, s, r, w))
    && exists w: nat :: FinalFrom(p, v, t, tr, s, w)
  }

  method LinkUnorderedState(p: Program, tr: seq<nat>, s: Var) returns (cs: seq<Constr>)
    requires IsTrace(p, tr) && |p.steps| > 0
    ensures forall v, t :: Sized(p, t) ==> (AllHold(p, v, t, cs) <==> StateLinked(p, v, t, tr, s))
  {
    var defs := CollectDefinitions(p, tr, s);
    cs := [];
    for k := 0 to |tr|
      invariant forall v, t :: Sized(p, t) ==>
                  (AllHold(p, v, t, cs) <==>
                   forall j :: 0 <= j < k && Reads(p, s, tr[j]) ==> exists w: nat :: LocalReadsFrom(p, v, t, tr, s, tr[j], w))
    {
      if s in p.steps[tr[k]].uses {
        var c := LinkUnorderedRead(p, tr, defs, s, tr[k]);
        forall v, t | Sized(p, t) ensures AllHold(p, v, t, cs + [c]) <==> AllHold(p, v, t, cs) && Holds(p, v, t, c) {
          AllHoldAppendOne(p, v, t, cs, c);
        }
        cs := cs + [c];
      }
    }
    var c := LinkUnorderedFinal(p, tr, defs, s);
    forall v, t | Sized(p, t) ensures AllHold(p, v, t, cs + [c]) <==> AllHold(p, v, t, cs) && Holds(p, v, t, c) {
      AllHoldAppendOne(p, v, t, cs, c);
    }
    cs := cs + [c];
  }

  /** The unordered encoding of one core. */
  method SetLocalStateUnordered(p: Program, tr: seq<nat>, privs: seq<Var>) returns (cs: seq<Constr>)
    requires IsTrace(p, tr) && |p.steps| > 0
    ensures forall v, t :: Sized(p, t) ==> (AllHold(p, v, t, cs) <==> UnorderedLocal(p, v, t, tr, AsSet(privs)))
  {
    cs := [];
    for j := 0 to |privs|
      invariant forall v, t :: Sized(p, t) ==>
                  (AllHold(p, v, t, cs) <==> forall i :: 0 <= i < j ==> StateLinked(p, v, t, tr, privs[i]))
    {
      var state := LinkUnorderedState(p, tr, privs[j]);
      forall v, t | Sized(p, t)
        ensures AllHold(p, v, t, cs + state) <==> AllHold(p, v, t, cs) && StateLinked(p, v, t, tr, privs[j])
      {
        AllHoldAppend(p, v, t, cs, state);
      }
      cs := cs + state;
    }
    forall v, t | Sized(p, t) ensures AllHold(p, v, t, cs) <==> UnorderedLocal(p, v, t, tr, AsSet(privs)) {
      if UnorderedLocal(p, v, t, tr, AsSet(privs)) {
        forall i | 0 <= i < |privs| ensures StateLinked(p, v, t, tr, privs[i]) {
          assert privs[i] in AsSet(privs);
        }
      }
      if AllHold(p, v, t, cs) {
        forall s | s in AsSet(privs) ensures StateLinked(p, v, t, tr, s) {
          var i :| 0 <= i < |privs| && privs[i] == s;
        }
      }
    }
  }
}
