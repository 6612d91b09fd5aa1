module TsoAxioms {
  import opened Traces

  ghost predicate PureWrite(p: Program, i: nat) {
    InRange(p, i) && SharedWriter(p, i) && p.steps[i].kind != Rmw
  }

  ghost predicate FacetOrder(p: Program, t: Times)
    requires Sized(p, t)
  {
    forall w: nat :: PureWrite(p, w) ==> t.ts[w] < t.gts[w]
  }

  ghost predicate StoreOrder(p: Program, t: Times)
    requires Sized(p, t)
  {
    forall w1: nat, w2: nat :: (SharedWriter(p, w1) && SharedWriter(p, w2) && w1 != w2 && SameCore(p, w1, w2)
                                && Stamp(p, t, w1) < Stamp(p, t, w2)) ==> Global(p, t, w1) < Global(p, t, w2)
  }

  ghost predicate FenceOrder(p: Program, t: Times)
    requires Sized(p, t)
  {
    forall f: nat, w: nat :: (InRange(p, f) && p.steps[f].kind == Fence && SharedWriter(p, w) && SameCore(p, w, f)
                              && Stamp(p, t, w) < t.ts[f]) ==> Global(p, t, w) < t.ts[f]
  }

  ghost predicate RmwSync(p: Program, t: Times)
    requires Sized(p, t)
  {
    forall i: nat :: InRange(p, i) && p.steps[i].kind == Rmw ==> t.ts[i] == t.gts[i]
  }

  ghost predicate Axioms(p: Program, v: Valuation, t: Times) {
    && Sized(p, t)
    && Positive(TSO, p, t)
    && ReadAxiom(TSO, p, v, t)
    && FacetOrder(p, t)
    && StoreOrder(p, t)
    && FenceOrder(p, t)
    && RmwSync(p, t)
  }

  /** Read-modify-writes are atomic: between the write it reads from and its own global write,
      no other decoded write to its address becomes global. */
  lemma {:induction false} RmwIsAtomic(p: Program, v: Valuation, t: Times, s: Var, i: nat) returns (w: nat)
    requires Wf(p) && Axioms(p, v, t)
    requires InRange(p, i) && p.steps[i].kind == Rmw && s in p.shared && Reads(p, s, i)
    ensures ReadsFrom(TSO, p, v, t, s, i, w)
    ensures Global(p, t, w) < Global(p, t, i)
    ensures forall w2: nat :: Writes(p, s, w2) && w2 != i && Decoded(v, w2) && SameAddress(p, v, s, w2, i) ==>
                           !(Global(p, t, w) < Global(p, t, w2) <= Global(p, t, i))
  {
    w :| ReadsFrom(TSO, p, v, t, s, i, w);
    assert SharedWriter(p, w) && SharedWriter(p, i);
    assert !SameCore(p, 0, i);
    forall w2: nat | Writes(p, s, w2) && w2 != i && Decoded(v, w2) && SameAddress(p, v, s, w2, i)
      ensures !(Global(p, t, w) < Global(p, t, w2) <= Global(p, t, i))
    {
      assert SharedWriter(p, w2);
      assert NotBetween(TSO, p, v, t, s, i, w, w2);
    }
  }
}
