/** Small programs at the edges: TSO behaviours beyond SC, without fences and through a final step
    that no write facet is forced to precede; and facets tied so that re-timing fails. */
module Litmus {
  import opened Traces
  import opened TsoAxioms
  import opened Sequential
  import TM = TsoMachine
  import MR = ModelRelations

  /** Every write writes 1, every read reads 0, memory starts at 0. */
  function ZeroReads(): Valuation {
    Valuation(i => true, (i, s) => 0, (i, s) => 0, (i, s) => 0, (i, s) => 1, (s, a) => 0, s => 0)
  }

  function InitStep(shared: seq<Var>): Step {
    Step(Init, 0, 0, {}, {}, set s | s in shared)
  }

  /** Two cores, each writing its own flag and then reading the other's. */
  function StoreBuffering(): Program {
    Program(
      [InitStep(["x", "y"]),
       Step(Plain, 1, 1, {}, {}, {"x"}), Step(Plain, 1, 2, {"y"}, {}, {}),
       Step(Plain, 2, 1, {}, {}, {"y"}), Step(Plain, 2, 2, {"x"}, {}, {})],
      ["x", "y"], {})
  }

  /** A read that returns 0 comes before the only write, which writes 1. */
  lemma {:induction false} ReadsInitial(p: Program, t: Times, s: Var, r: nat, x: nat)
    requires Sized(p, t) && ReadAxiom(SC, p, ZeroReads(), t) && p.mems == {} && s in p.shared && Reads(p, s, r)
    requires Writes(p, s, x) && x != 0 && x != r && t.ts[x] > 0
    requires forall w: nat :: Writes(p, s, w) ==> w == 0 || w == x
    ensures t.ts[r] < t.ts[x]
  {
    var w: nat :| ReadsFrom(SC, p, ZeroReads(), t, s, r, w);
    assert NotBetween(SC, p, ZeroReads(), t, s, r, w, x);
  }

  const BUFFERED := Times([0, 1, 2, 1, 2], [0, 3, 0, 3, 0])

  lemma {:induction false} StoreBufferingReads()
    ensures ReadAxiom(TSO, StoreBuffering(), ZeroReads(), BUFFERED)
  {
    var p, v, t := StoreBuffering(), ZeroReads(), BUFFERED;
    assert ReadsFrom(TSO, p, v, t, "y", 2, 0);
    assert ReadsFrom(TSO, p, v, t, "x", 4, 0);
    forall s, r: nat | s in p.shared && Reads(p, s, r) ensures (s == "y" && r == 2) || (s == "x" && r == 4) {
    }
  }

  lemma {:induction false} StoreBufferingSolution()
    ensures Axioms(StoreBuffering(), ZeroReads(), BUFFERED) && Ordered(StoreBuffering(), BUFFERED)
  {
    StoreBufferingReads();
    StoreBufferingOrder();
  }

  lemma {:induction false} StoreBufferingOrder()
    ensures var p, t := StoreBuffering(), BUFFERED;
      && Sized(p, t) && FacetOrder(p, t) && StoreOrder(p, t) && FenceOrder(p, t) && RmwSync(p, t) && Positive(TSO, p, t) && Ordered(p, t)
  {
    StoreBufferingStores();
  }

  lemma {:induction false} StoreBufferingStores()
    ensures Sized(StoreBuffering(), BUFFERED) && StoreOrder(StoreBuffering(), BUFFERED) && FenceOrder(StoreBuffering(), BUFFERED)
  {
  }

  lemma {:induction false} StoreBufferingIsNotSc()
    ensures !MR.ScBehaviour(StoreBuffering(), ZeroReads())
  {
    var p := StoreBuffering();
    forall t | ScAxioms(p, ZeroReads(), t)
      ensures !Ordered(p, t)
    {
      ReadsInitial(p, t, "y", 2, 3);
      ReadsInitial(p, t, "x", 4, 1);
      assert Po(p, 1, 2) && Po(p, 3, 4);
    }
  }

  /** Without fences TSO is strictly weaker than SC. */
  lemma {:induction false} TsoIsWeaker()
    ensures TM.AxiomBehaviour(StoreBuffering(), ZeroReads()) && !MR.ScBehaviour(StoreBuffering(), ZeroReads())
  {
    StoreBufferingSolution();
    StoreBufferingIsNotSc();
  }

  /** One write, then the final property reads the state. */
  function WriteThenFinal(): Program {
    Program([InitStep(["x"]), Step(Plain, 1, 1, {}, {}, {"x"}), Step(Final, 0, 0, {"x"}, {}, {})], ["x"], {})
  }

  lemma {:induction false} WriteThenFinalSolution()
    ensures Axioms(WriteThenFinal(), ZeroReads(), Times([0, 1, 2], [0, 3, 0]))
    ensures Ordered(WriteThenFinal(), Times([0, 1, 2], [0, 3, 0]))
  {
    WriteThenFinalReads();
  }

  lemma {:induction false} WriteThenFinalReads()
    ensures Sized(WriteThenFinal(), Times([0, 1, 2], [0, 3, 0]))
    ensures ReadAxiom(TSO, WriteThenFinal(), ZeroReads(), Times([0, 1, 2], [0, 3, 0]))
  {
    assert ReadsFrom(TSO, WriteThenFinal(), ZeroReads(), Times([0, 1, 2], [0, 3, 0]), "x", 2, 0);
  }

  lemma {:induction false} WriteThenFinalIsNotSc()
    ensures !MR.ScBehaviour(WriteThenFinal(), ZeroReads())
  {
    var p := WriteThenFinal();
    forall t | ScAxioms(p, ZeroReads(), t)
      ensures !Ordered(p, t)
    {
      ReadsInitial(p, t, "x", 2, 1);
      assert Po(p, 1, 2);
    }
  }

  /** The final step can miss a write that has executed but is not yet global. */
  lemma {:induction false} FinalMayMissWrite()
    ensures TM.AxiomBehaviour(WriteThenFinal(), ZeroReads()) && !MR.ScBehaviour(WriteThenFinal(), ZeroReads())
  {
    WriteThenFinalSolution();
    WriteThenFinalIsNotSc();
  }

  /** Two cores, each storing to one memory without loading from it. */
  function TwoStores(): Program {
    Program([InitStep(["m"]), Step(Plain, 1, 1, {"m"}, {}, {"m"}), Step(Plain, 2, 1, {"m"}, {}, {"m"})], ["m"], {"m"})
  }

  const TIED := Times([0, 1, 1], [0, 3, 3])

  lemma {:induction false} TiedSolution()
    ensures Axioms(TwoStores(), ZeroReads(), TIED) && Ordered(TwoStores(), TIED)
  {
    TiedReads();
  }

  lemma {:induction false} TiedReads()
    ensures Sized(TwoStores(), TIED) && ReadAxiom(TSO, TwoStores(), ZeroReads(), TIED)
  {
    var p, v, t := TwoStores(), ZeroReads(), TIED;
    assert ReadsFrom(TSO, p, v, t, "m", 1, 0);
    assert ReadsFrom(TSO, p, v, t, "m", 2, 0);
  }

  /** Both stores may become global at one time; re-timed, neither has a write to read from. */
  lemma {:induction false} TieDefeatsRetiming()
    ensures var p, v := TwoStores(), ZeroReads();
      && Wf(p) && MR.Fenced(p) && Axioms(p, v, TIED) && Ordered(p, TIED)
      && !ScAxioms(p, v, MR.Retimed(p, TIED))
  {
    TiedSolution();
    TwoStoresFenced();
    TwoStoresTied();
    MR.FencedSolutionIsSc(TwoStores(), ZeroReads(), TIED);
  }

  lemma {:induction false} TwoStoresFenced()
    ensures Wf(TwoStores()) && MR.Fenced(TwoStores())
  {
  }

  lemma {:induction false} TwoStoresTied()
    requires Wf(TwoStores())
    ensures !MR.Untied(TwoStores(), ZeroReads(), TIED)
  {
    var p, v := TwoStores(), ZeroReads();
    assert PureWrite(p, 1);
    assert MR.Tied(p, v, TIED, "m", 1, 2, 1);
    assert !MR.Hidden(p, v, TIED, "m", 1, 2);
  }
}
