/** When the final step comes after every write has become global: exactly when each write is
    followed by a fence or read-modify-write on its core. */
module FinalStep {
  import opened Traces
  import opened TsoAxioms
  import opened StoreBuffer
  import TM = TsoMachine
  import MR = ModelRelations

  /** Each pure write has a fence or read-modify-write after it on its core. */
  ghost predicate Drained(p: Program) {
    forall w: nat :: PureWrite(p, w) ==> DrainedOne(p, w)
  }

  ghost predicate DrainedOne(p: Program, w: nat) {
    exists f: nat :: MR.IsFence(p, f) && Po(p, w, f)
  }

  ghost predicate IsFinal(p: Program, fin: nat) {
    InRange(p, fin) && p.steps[fin].kind == Final
  }

  /** No write becomes global after the final step. */
  ghost predicate SeesAll(p: Program, t: Times, fin: nat)
    requires Sized(p, t) && fin < |p.steps|
  {
    forall w: nat :: PureWrite(p, w) ==> t.gts[w] < t.ts[fin]
  }

  lemma {:induction false} DrainedIsSeen(p: Program, v: Valuation, t: Times, fin: nat)
    requires Wf(p) && Axioms(p, v, t) && Ordered(p, t) && IsFinal(p, fin) && Drained(p)
    ensures SeesAll(p, t, fin)
  {
    forall w: nat | PureWrite(p, w) ensures t.gts[w] < t.ts[fin] {
      assert DrainedOne(p, w);
      var f: nat :| MR.IsFence(p, f) && Po(p, w, f);
      assert p.steps[f].kind != Final && SameCore(p, w, f);
      assert Po(p, f, fin);
      assert SharedWriter(p, w) && t.ts[w] < t.ts[f];
      if p.steps[f].kind == Rmw {
        assert SharedWriter(p, f);
      }
    }
  }

  // ----- a solution in which an undrained write stays buffered -----

  function MaxPos(p: Program, n: nat): (m: nat)
    requires n <= |p.steps|
    ensures forall i :: 0 <= i < n ==> p.steps[i].pos <= m
  {
    if n == 0 then 0
    else
      var m := MaxPos(p, n - 1);
      if m < p.steps[n - 1].pos then p.steps[n - 1].pos else m
  }

  /** Steps at twice their position, final ones after all others. */
  function StampAt(p: Program, i: nat): int
    requires i < |p.steps|
  {
    2 * (p.steps[i].pos + 1) + if p.steps[i].kind == Final then 2 * (MaxPos(p, |p.steps|) + 1) else 0
  }

  /** The writes of the stuck write's core from it on. */
  predicate Stuck(p: Program, w: nat, i: nat)
    requires w < |p.steps|
  {
    InRange(p, i) && SameCore(p, i, w) && p.steps[i].pos >= p.steps[w].pos
  }

  function FacetAt(p: Program, w: nat, i: nat): int
    requires w < |p.steps| && i < |p.steps|
  {
    if p.steps[i].kind == Rmw then StampAt(p, i)
    else StampAt(p, i) + 1 + if Stuck(p, w, i) then 6 * (MaxPos(p, |p.steps|) + 1) else 0
  }

  function LateTimes(p: Program, w: nat): (t: Times)
    requires w < |p.steps|
    ensures Sized(p, t) && forall i :: 0 <= i < |p.steps| ==> t.ts[i] == StampAt(p, i) && t.gts[i] == FacetAt(p, w, i)
  {
    Times(seq(|p.steps|, i requires 0 <= i < |p.steps| => StampAt(p, i)),
          seq(|p.steps|, i requires 0 <= i < |p.steps| => FacetAt(p, w, i)))
  }

  lemma {:induction false} LateStores(p: Program, w: nat)
    requires Wf(p) && PureWrite(p, w) && !DrainedOne(p, w)
    ensures var t := LateTimes(p, w); FacetOrder(p, t) && StoreOrder(p, t) && FenceOrder(p, t) && RmwSync(p, t)
  {
    var t := LateTimes(p, w);
    forall i: nat | MR.IsFence(p, i) ensures !(SameCore(p, i, w) && p.steps[w].pos < p.steps[i].pos) {
      assert !Po(p, w, i);
    }
    forall i: nat, j: nat | SharedWriter(p, i) && SharedWriter(p, j) && i != j && SameCore(p, i, j) && Stamp(p, t, i) < Stamp(p, t, j)
      ensures Global(p, t, i) < Global(p, t, j)
    {
      if p.steps[j].kind == Rmw {
        assert MR.IsFence(p, j);
      }
    }
    forall f: nat, i: nat | InRange(p, f) && p.steps[f].kind == Fence && SharedWriter(p, i) && SameCore(p, i, f) && Stamp(p, t, i) < t.ts[f]
      ensures Global(p, t, i) < t.ts[f]
    {
      assert MR.IsFence(p, f);
    }
  }

  lemma {:induction false} LateOrder(p: Program, fin: nat, w: nat)
    requires Wf(p) && IsFinal(p, fin) && PureWrite(p, w)
    ensures Ordered(p, LateTimes(p, w)) && LateTimes(p, w).ts[fin] < LateTimes(p, w).gts[w]
  {
    assert p.steps[fin].pos <= MaxPos(p, |p.steps|);
  }

  // ----- reads: whatever the machine finds -----

  /** The valuation with every read returning what the machine finds along the schedule. */
  ghost function WithReads(p: Program, v: Valuation, es: seq<Event>): Valuation
    requires Schedule(p, es)
  {
    v.(rval := (i: nat, s: Var) =>
      if InRange(p, i) then Lookup(p, v, StateAt(p, v, es, Pos(es, Exec(i))), p.steps[i].core, ReadLoc(p, v, s, i)) else 0)
  }

  lemma {:induction false} FindsItsReads(p: Program, v: Valuation, es: seq<Event>, i: nat)
    requires Schedule(p, es) && InRange(p, i)
    ensures TM.FindsReads(p, WithReads(p, v, es), es, i)
  {
    var v', k := WithReads(p, v, es), Pos(es, Exec(i));
    forall s | s in p.shared && Observes(p, s, i)
      ensures v'.rval(i, s) == Lookup(p, v', StateAt(p, v', es, k), p.steps[i].core, ReadLoc(p, v', s, i))
    {
      SameLookup(p, v, v', es, k, p.steps[i].core, ReadLoc(p, v, s, i));
    }
  }

  /** Whatever decodes, and whatever the addresses, the written values and the initial memory are:
      an undrained write has a solution in which it becomes global after the final step. */
  lemma {:induction false} UndrainedIsMissed(p: Program, fin: nat, w: nat, v: Valuation) returns (r: (nat, Var) -> int, t: Times)
    requires Wf(p) && IsFinal(p, fin) && PureWrite(p, w) && !DrainedOne(p, w)
    ensures Axioms(p, v.(rval := r), t) && Ordered(p, t) && t.ts[fin] < t.gts[w]
  {
    var late := LateTimes(p, w);
    LateOrder(p, fin, w);
    LateStores(p, w);
    var es := TM.ScheduleExists(p, late);
    var v' := WithReads(p, v, es);
    forall i: nat | InRange(p, i) ensures TM.FindsReads(p, v', es, i) {
      FindsItsReads(p, v, es, i);
    }
    TM.OrderGivesRun(p, v', late, es, |es|);
    TM.RunIsBehaviour(p, v', es);
    r, t := v'.rval, TM.Clock(p, es);
    LateInClock(p, fin, w, es);
  }

  lemma {:induction false} LateInClock(p: Program, fin: nat, w: nat, es: seq<Event>)
    requires Wf(p) && IsFinal(p, fin) && PureWrite(p, w) && TM.Extends(p, LateTimes(p, w), es)
    requires LateTimes(p, w).ts[fin] < LateTimes(p, w).gts[w]
    ensures TM.Clock(p, es).ts[fin] < TM.Clock(p, es).gts[w]
  {
    assert IsEvent(p, Exec(fin)) && IsEvent(p, Commit(w));
    assert TM.Time(p, LateTimes(p, w), Exec(fin)) < TM.Time(p, LateTimes(p, w), Commit(w));
  }

  ghost predicate AlwaysSeesAll(p: Program, v: Valuation, fin: nat)
    requires fin < |p.steps|
  {
    forall r: (nat, Var) -> int, t :: Axioms(p, v.(rval := r), t) && Ordered(p, t) ==> SeesAll(p, t, fin)
  }

  /** For any decodes, addresses and written values: whatever is read, the final step sees every
      write in every solution exactly when every write is drained. */
  lemma {:induction false} FinalSeesAll(p: Program, fin: nat, v: Valuation)
    requires Wf(p) && IsFinal(p, fin)
    ensures Drained(p) <==> AlwaysSeesAll(p, v, fin)
  {
    if Drained(p) {
      forall r: (nat, Var) -> int, t | Axioms(p, v.(rval := r), t) && Ordered(p, t) ensures SeesAll(p, t, fin) {
        DrainedIsSeen(p, v.(rval := r), t, fin);
      }
    } else {
      var w: nat :| PureWrite(p, w) && !DrainedOne(p, w);
      var r, t := UndrainedIsMissed(p, fin, w, v);
      assert !SeesAll(p, t, fin);
    }
  }
}
