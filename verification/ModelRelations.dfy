/** How the two memory models relate: every SC behaviour is a TSO behaviour, and with fences
    between writes and later reads the two coincide. */
module ModelRelations {
  import opened Traces
  import opened TsoAxioms
  import opened Sequential
  import SB = StoreBuffer
  import TM = TsoMachine

  // ----- SC is included in TSO -----

  /** Doubled timestamps, with each pure write global in the odd slot after it. */
  function Doubled(p: Program, t: Times): (d: Times)
    requires Sized(p, t)
    ensures Sized(p, d)
  {
    Times(
      seq(|p.steps|, (i: nat) requires i < |p.steps| => 2 * t.ts[i]),
      seq(|p.steps|, (i: nat) requires i < |p.steps| => 2 * t.ts[i] + if p.steps[i].kind == Rmw then 0 else 1))
  }

  lemma {:induction false} ScReadIsTsoRead(p: Program, v: Valuation, t: Times, s: Var, r: nat, w: nat)
    requires Wf(p) && ScAxioms(p, v, t) && Reads(p, s, r) && ReadsFrom(SC, p, v, t, s, r, w)
    ensures ReadsFrom(TSO, p, v, Doubled(p, t), s, r, w)
  {
    forall x: nat ensures NotBetween(TSO, p, v, Doubled(p, t), s, r, w, x) {
      assert NotBetween(SC, p, v, t, s, r, w, x);
    }
  }

  /** Every SC solution is a TSO solution with the same values and program order. */
  lemma {:induction false} ScIsTso(p: Program, v: Valuation, t: Times)
    requires Wf(p) && ScAxioms(p, v, t)
    ensures Axioms(p, v, Doubled(p, t))
    ensures Ordered(p, t) ==> Ordered(p, Doubled(p, t))
  {
    var d := Doubled(p, t);
    forall s, r: nat | s in p.shared && Reads(p, s, r) ensures exists w: nat :: ReadsFrom(TSO, p, v, d, s, r, w) {
      var w: nat :| ReadsFrom(SC, p, v, t, s, r, w);
      ScReadIsTsoRead(p, v, t, s, r, w);
    }
  }

  // ----- fenced programs -----

  ghost predicate IsFence(p: Program, f: nat) {
    InRange(p, f) && (p.steps[f].kind == Fence || p.steps[f].kind == Rmw)
  }

  /** Pure reads, pure writes, fences and read-modify-writes only, no final step, and a fence or
      read-modify-write between each pure write and each later plain read of its core. */
  ghost predicate Fenced(p: Program) {
    && (forall i: nat :: InRange(p, i) ==> p.steps[i].kind != Final)
    && (forall w: nat, s :: PureWrite(p, w) && s in p.shared ==> !Observes(p, s, w))
    && (forall w: nat, r: nat :: PureWrite(p, w) && Po(p, w, r) && !SharedWriter(p, r) && p.steps[r].kind == Plain ==>
          exists f: nat :: IsFence(p, f) && Po(p, w, f) && Po(p, f, r))
  }

  /** Each pure write moved to its global facet. */
  function Retimed(p: Program, t: Times): (d: Times)
    requires Sized(p, t)
    ensures Sized(p, d)
  {
    Times(
      seq(|p.steps|, (i: nat) requires i < |p.steps| =>
        if SharedWriter(p, i) && p.steps[i].kind != Rmw then t.gts[i] else t.ts[i]),
      t.gts)
  }

  lemma {:induction false} DrainedByFence(p: Program, v: Valuation, t: Times, w: nat, r: nat)
    requires Wf(p) && Fenced(p) && Axioms(p, v, t) && Ordered(p, t) && PureWrite(p, w) && Po(p, w, r) && !PureWrite(p, r)
    ensures t.gts[w] < t.ts[r]
  {
    assert SharedWriter(p, w) && t.ts[w] < t.ts[r];
    if p.steps[r].kind == Plain {
      var f: nat :| IsFence(p, f) && Po(p, w, f) && Po(p, f, r);
      assert t.ts[w] < t.ts[f] < t.ts[r];
      if p.steps[f].kind == Rmw { assert SharedWriter(p, f); }
    }
  }

  lemma {:induction false} RetimedOrder(p: Program, v: Valuation, t: Times, i: nat, j: nat)
    requires Wf(p) && Fenced(p) && Axioms(p, v, t) && Ordered(p, t) && Po(p, i, j)
    ensures Retimed(p, t).ts[i] < Retimed(p, t).ts[j]
  {
    assert t.ts[i] < t.ts[j];
    assert PureWrite(p, i) ==> SharedWriter(p, i);
    assert PureWrite(p, j) ==> SharedWriter(p, j) && t.ts[j] < t.gts[j];
    if PureWrite(p, i) && !PureWrite(p, j) { DrainedByFence(p, v, t, i, j); }
  }

  /** The source of a read that is not a pure write stays its source. */
  lemma {:induction false} RetimedRead(p: Program, v: Valuation, t: Times, s: Var, r: nat, w: nat)
    requires Wf(p) && Fenced(p) && Axioms(p, v, t) && Ordered(p, t) && s in p.shared
    requires Reads(p, s, r) && !PureWrite(p, r) && ReadsFrom(TSO, p, v, t, s, r, w)
    ensures ReadsFrom(SC, p, v, Retimed(p, t), s, r, w)
  {
    var d := Retimed(p, t);
    assert SharedWriter(p, w);
    if w != 0 && SameCore(p, w, r) {
      assert Po(p, w, r) || Po(p, r, w);
      RetimedOrder(p, v, t, w, r);
    }
    forall x: nat ensures NotBetween(SC, p, v, d, s, r, w, x) {
      assert NotBetween(TSO, p, v, t, s, r, w, x);
      if Writes(p, s, x) && x != w && x != r && SameAddress(p, v, s, x, r) && Decoded(v, x) {
        assert SharedWriter(p, x);
        assert PureWrite(p, x) ==> t.ts[x] < t.gts[x];
      }
    }
  }

  ghost predicate DistinctGlobals(p: Program, t: Times)
    requires Sized(p, t)
  {
    forall x: nat, y: nat :: InRange(p, x) && InRange(p, y) && x != y && SharedWriter(p, x) && SharedWriter(p, y) ==>
      t.gts[x] != t.gts[y]
  }

  ghost predicate Writer(p: Program, v: Valuation, s: Var, x: nat) {
    InRange(p, x) && Writes(p, s, x) && v.decode(x)
  }

  /** A pure write `r` that reads its state, and two facets of that state tied no later than `r`. */
  ghost predicate Tied(p: Program, v: Valuation, t: Times, s: Var, r: nat, x: nat, y: nat)
    requires Sized(p, t)
  {
    && s in p.shared && PureWrite(p, r) && Reads(p, s, r)
    && Writer(p, v, s, x) && x != r && (y == r || Writer(p, v, s, y)) && y != x
    && t.gts[x] == t.gts[y] <= t.gts[r]
  }

  /** Every such tie is hidden by a later write that is still before `r`. */
  ghost predicate Untied(p: Program, v: Valuation, t: Times)
    requires Sized(p, t)
  {
    forall s, r: nat, x: nat, y: nat :: Tied(p, v, t, s, r, x, y) ==> Hidden(p, v, t, s, r, x)
  }

  ghost predicate Hidden(p: Program, v: Valuation, t: Times, s: Var, r: nat, x: nat)
    requires Sized(p, t) && r < |p.steps| && x < |p.steps|
  {
    exists z: nat :: Writer(p, v, s, z) && z != r && t.gts[x] < t.gts[z] < t.gts[r]
  }

  lemma {:induction false} DistinctIsUntied(p: Program, v: Valuation, t: Times)
    requires Sized(p, t)
    ensures DistinctGlobals(p, t) ==> Untied(p, v, t)
    ensures (forall s, w: nat :: s in p.shared && PureWrite(p, w) ==> !Reads(p, s, w)) ==> Untied(p, v, t)
  {
    if DistinctGlobals(p, t) {
      forall s, r: nat, x: nat, y: nat ensures !Tied(p, v, t, s, r, x, y) {
        assert s in p.shared && Writer(p, v, s, x) ==> SharedWriter(p, x);
        assert s in p.shared && Writer(p, v, s, y) ==> SharedWriter(p, y);
      }
    }
  }

  ghost predicate EarlierWrite(p: Program, v: Valuation, t: Times, s: Var, r: nat, x: nat)
    requires Sized(p, t) && r < |p.steps|
  {
    InRange(p, x) && Writes(p, s, x) && v.decode(x) && t.gts[x] < t.gts[r]
  }

  /** Among the writes numbered below `n`, the last to become global before `r`. */
  lemma {:induction false} LatestEarlier(p: Program, v: Valuation, t: Times, s: Var, r: nat, n: nat) returns (w: nat)
    requires Sized(p, t) && r < |p.steps| && 1 <= n <= |p.steps|
    ensures w == 0 || EarlierWrite(p, v, t, s, r, w)
    ensures forall x: nat :: x < n && EarlierWrite(p, v, t, s, r, x) ==> w != 0 && t.gts[x] <= t.gts[w]
  {
    if n == 1 {
      w := 0;
    } else {
      w := LatestEarlier(p, v, t, s, r, n - 1);
      if EarlierWrite(p, v, t, s, r, n - 1) && (w == 0 || t.gts[w] < t.gts[n - 1]) {
        w := n - 1;
      }
    }
  }

  /** With `w` the last write before `r`, every other one is before `w` or after `r`. */
  lemma {:induction false} LaterOrEarlier(p: Program, v: Valuation, t: Times, s: Var, r: nat, w: nat, x: nat)
    requires Wf(p) && Axioms(p, v, t) && Untied(p, v, t) && s in p.shared && Reads(p, s, r) && PureWrite(p, r)
    requires Writes(p, s, x) && x != w && x != r && Decoded(v, x) && (w == 0 || EarlierWrite(p, v, t, s, r, w))
    requires forall y: nat :: y < |p.steps| && EarlierWrite(p, v, t, s, r, y) ==> w != 0 && t.gts[y] <= t.gts[w]
    ensures var d := Retimed(p, t); Stamp(p, d, x) < Stamp(p, d, w) || Stamp(p, d, r) < Stamp(p, d, x)
  {
    assert SharedWriter(p, x) && SharedWriter(p, r);
    assert w != 0 ==> SharedWriter(p, w);
    if x != 0 {
      assert Writer(p, v, s, x);
      assert !Hidden(p, v, t, s, r, if w != 0 then w else r) by {
        if z: nat :| Writer(p, v, s, z) && z != r && t.gts[if w != 0 then w else r] < t.gts[z] < t.gts[r] {
          assert EarlierWrite(p, v, t, s, r, z);
        }
      }
      assert !Tied(p, v, t, s, r, x, r);
      assert w != 0 ==> !Tied(p, v, t, s, r, x, w);
      assert t.gts[x] < t.gts[r] ==> EarlierWrite(p, v, t, s, r, x);
    }
  }

  /** A store reads its memory without observing it; any latest earlier write serves. */
  lemma {:induction false} RetimedStore(p: Program, v: Valuation, t: Times, s: Var, r: nat)
    requires Wf(p) && Fenced(p) && Axioms(p, v, t) && Untied(p, v, t) && s in p.shared
    requires Reads(p, s, r) && PureWrite(p, r)
    ensures exists w: nat :: ReadsFrom(SC, p, v, Retimed(p, t), s, r, w)
  {
    var d := Retimed(p, t);
    assert SharedWriter(p, r) && d.ts[r] == t.gts[r] > 0;
    var w := LatestEarlier(p, v, t, s, r, |p.steps|);
    assert w != 0 ==> SharedWriter(p, w) && d.ts[w] == t.gts[w];
    forall x: nat ensures NotBetween(SC, p, v, d, s, r, w, x) {
      if Writes(p, s, x) && x != w && x != r && Decoded(v, x) {
        LaterOrEarlier(p, v, t, s, r, w, x);
      }
    }
    assert ReadsFrom(SC, p, v, d, s, r, w);
  }

  /** A tie that nothing hides leaves the read of `r` without a source. */
  lemma {:induction false} TieBreaksRetiming(p: Program, v: Valuation, t: Times)
    requires Wf(p) && Fenced(p) && Axioms(p, v, t) && !Untied(p, v, t)
    ensures !ReadAxiom(SC, p, v, Retimed(p, t))
  {
    var s, r: nat, x: nat, y: nat :| Tied(p, v, t, s, r, x, y) && !Hidden(p, v, t, s, r, x);
    forall w: nat ensures !ReadsFrom(SC, p, v, Retimed(p, t), s, r, w) {
      TieBlocks(p, v, t, s, r, x, y, w);
    }
  }

  lemma {:induction false} TieBlocks(p: Program, v: Valuation, t: Times, s: Var, r: nat, x: nat, y: nat, w: nat)
    requires Wf(p) && Fenced(p) && Axioms(p, v, t) && Tied(p, v, t, s, r, x, y) && !Hidden(p, v, t, s, r, x)
    ensures !ReadsFrom(SC, p, v, Retimed(p, t), s, r, w)
  {
    var d := Retimed(p, t);
    var u := if w != x then x else y;
    assert SharedWriter(p, x) && SharedWriter(p, r) && (y != r ==> SharedWriter(p, y));
    assert SameAddress(p, v, s, x, r) && (y != r ==> SameAddress(p, v, s, y, r));
    if Writes(p, s, w) && w != r && Decoded(v, w) {
      assert SharedWriter(p, w);
      assert w != 0 ==> Writer(p, v, s, w) && d.ts[w] == t.gts[w];
      assert Rf(SC, p, d, w, r) ==> u != r && !NotBetween(SC, p, v, d, s, r, w, u);
    }
  }

  /** Re-timing each pure write to its global facet turns a TSO solution of a fenced program into
      an SC solution with the same values and program order, exactly if the facets are untied. */
  lemma {:induction false} FencedSolutionIsSc(p: Program, v: Valuation, t: Times)
    requires Wf(p) && Fenced(p) && Axioms(p, v, t) && Ordered(p, t)
    ensures ScAxioms(p, v, Retimed(p, t)) <==> Untied(p, v, t)
    ensures Ordered(p, Retimed(p, t))
  {
    var d := Retimed(p, t);
    if Untied(p, v, t) {
      forall s, r: nat | s in p.shared && Reads(p, s, r) ensures exists w: nat :: ReadsFrom(SC, p, v, d, s, r, w) {
        if PureWrite(p, r) {
          RetimedStore(p, v, t, s, r);
        } else {
          var w: nat :| ReadsFrom(TSO, p, v, t, s, r, w);
          RetimedRead(p, v, t, s, r, w);
        }
      }
    } else {
      TieBreaksRetiming(p, v, t);
    }
    forall i: nat, j: nat | Po(p, i, j) ensures d.ts[i] < d.ts[j] {
      RetimedOrder(p, v, t, i, j);
    }
  }

  ghost predicate ScBehaviour(p: Program, v: Valuation) {
    exists t :: ScAxioms(p, v, t) && Ordered(p, t)
  }

  lemma {:induction false} ClockIsDistinct(p: Program, v: Valuation, es: seq<SB.Event>)
    requires Wf(p) && SB.Run(p, v, es)
    ensures DistinctGlobals(p, TM.Clock(p, es))
  {
    var t := TM.Clock(p, es);
    TM.RunIsBehaviour(p, v, es);
    forall x: nat, y: nat | InRange(p, x) && InRange(p, y) && x != y && SharedWriter(p, x) && SharedWriter(p, y)
      ensures t.gts[x] != t.gts[y]
    {
      TM.GlobalAfterExec(p, v, es, x);
      TM.GlobalAfterExec(p, v, es, y);
      SB.PosDistinct(p, es, SB.GlobalEvent(p, x), SB.GlobalEvent(p, y));
    }
  }

  /** TSO allows everything SC does. */
  lemma {:induction false} ScBehaviourIsTso(p: Program, v: Valuation)
    requires Wf(p) && ScBehaviour(p, v)
    ensures TM.AxiomBehaviour(p, v)
  {
    var t :| ScAxioms(p, v, t) && Ordered(p, t);
    ScIsTso(p, v, t);
  }

  /** On fenced programs the two models allow the same values. */
  lemma {:induction false} FencedTsoIsSc(p: Program, v: Valuation)
    requires Wf(p) && Fenced(p)
    ensures TM.AxiomBehaviour(p, v) <==> ScBehaviour(p, v)
  {
    if TM.AxiomBehaviour(p, v) {
      TM.TsoIsStoreBuffer(p, v);
      var es :| SB.Run(p, v, es);
      TM.RunIsBehaviour(p, v, es);
      ClockIsDistinct(p, v, es);
      DistinctIsUntied(p, v, TM.Clock(p, es));
      FencedSolutionIsSc(p, v, TM.Clock(p, es));
    }
    if ScBehaviour(p, v) {
      ScBehaviourIsTso(p, v);
    }
  }
}
