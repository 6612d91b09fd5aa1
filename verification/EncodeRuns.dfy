/** From the constraint list of the unroller to the machines: with every core ordered, the list has
    timestamps for exactly the runs. */
module EncodeRuns {
  import opened Traces
  import opened TsoAxioms
  import opened Constraints
  import opened MemoryModels
  import opened LocalState
  import opened LocalLinks
  import opened Sequential
  import opened Unrolling
  import opened TsoPrivate
  import TM = TsoMachine

  /** One template entry for each core, and private states that only their core updates. */
  ghost predicate OwnCores(p: Program, d: Template) {
    && (forall a, b :: 0 <= a < b < |d.cores| ==> d.cores[a] != d.cores[b])
    && |d.cores| == |d.traces| == |d.privs|
    && forall c, s :: 0 <= c < |d.cores| && s in d.privs[c] ==> Owns(p, d.cores[c], s)
  }

  ghost function EntryOf(d: Template, core: nat): (c: nat)
    requires core in d.cores
    ensures c < |d.cores| && d.cores[c] == core
  {
    var c: nat :| c < |d.cores| && d.cores[c] == core;
    c
  }

  /** The traces and private states of a template by core. */
  ghost function CoresOf(d: Template): Cores
    requires |d.cores| == |d.traces| == |d.privs|
  {
    Cores(map c | c in d.cores :: d.traces[EntryOf(d, c)], map c | c in d.cores :: AsSet(d.privs[EntryOf(d, c)]))
  }

  lemma {:induction false} CoresAreWf(p: Program, d: Template)
    requires WfTemplate(p, d) && OwnCores(p, d)
    ensures WfCores(p, CoresOf(d))
  {
  }

  lemma {:induction false} EntryIs(d: Template, c: nat)
    requires c < |d.cores| && forall a, b :: 0 <= a < b < |d.cores| ==> d.cores[a] != d.cores[b]
    ensures EntryOf(d, d.cores[c]) == c
  {
  }

  function AllSet(n: nat): (flags: seq<bool>)
    ensures |flags| == n && forall c :: 0 <= c < n ==> flags[c]
  {
    seq(n, _ => true)
  }

  /** With every core ordered, the local forms are the ordered constraints of the cores. */
  lemma {:induction false} FormsAreConstraints(p: Program, v: Valuation, t: Times, d: Template)
    requires Sized(p, t) && |p.steps| > 0 && WfTemplate(p, d) && OwnCores(p, d)
    ensures WfCores(p, CoresOf(d))
    ensures LocalForms(p, v, t, d, AllSet(|d.cores|)) <==> LocalConstraints(p, v, CoresOf(d))
  {
    CoresAreWf(p, d);
    forall c: nat | c < |d.cores|
      ensures CoresOf(d).traces[d.cores[c]] == d.traces[c] && CoresOf(d).privs[d.cores[c]] == AsSet(d.privs[c])
    {
      EntryIs(d, c);
    }
    if LocalForms(p, v, t, d, AllSet(|d.cores|)) {
      forall core | core in CoresOf(d).traces ensures OrderedLocal(p, v, CoresOf(d).traces[core], CoresOf(d).privs[core]) {
        var c := EntryOf(d, core);
        assert AllSet(|d.cores|)[c];
      }
    }
  }

  /** The solutions of a list built with every core ordered, in the axioms' own terms. */
  lemma {:induction false} SolvesOrdered(p: Program, m: Model, v: Valuation, t: Times, d: Template)
    requires Wf(p) && Sized(p, t) && WfTemplate(p, d) && OwnCores(p, d)
    ensures WfCores(p, CoresOf(d))
    ensures Solves(p, m, v, t, d, AllSet(|d.cores|)) <==>
              && Ordered(p, t) && LocalConstraints(p, v, CoresOf(d))
              && if m == SC then ScAxioms(p, v, t) else Axioms(p, v, t)
  {
    AllInOrder(p, t, d, AllSet(|d.cores|));
    FormsAreConstraints(p, v, t, d);
  }

  /** A valuation is a run of the machine of the memory model. */
  ghost predicate IsBehaviour(p: Program, m: Model, v: Valuation, cs: Cores)
    requires WfCores(p, cs)
  {
    if m == SC then MachineBehaviour(p, v, cs) else TsoMachineBehaviour(p, v, cs)
  }

  lemma {:induction false} SolvesIsBehaviour(p: Program, m: Model, v: Valuation, d: Template)
    requires Wf(p) && WfTemplate(p, d) && OwnCores(p, d) && WfCores(p, CoresOf(d)) && Keeps(p, v, CoresOf(d))
    ensures (exists t :: Sized(p, t) && Solves(p, m, v, t, d, AllSet(|d.cores|))) <==> IsBehaviour(p, m, v, CoresOf(d))
  {
    var cs := CoresOf(d);
    if t :| Sized(p, t) && Solves(p, m, v, t, d, AllSet(|d.cores|)) {
      SolvesOrdered(p, m, v, t, d);
    }
    ScIsSequential(p, v, cs);
    TsoIsPrivateStoreBuffer(p, v, cs);
    if IsBehaviour(p, m, v, cs) {
      if m == SC {
        var t :| ScAxioms(p, v, t) && Ordered(p, t);
        SolvesOrdered(p, m, v, t, d);
      } else {
        var t :| Axioms(p, v, t) && Ordered(p, t);
        SolvesOrdered(p, m, v, t, d);
      }
    }
  }

  /** The constraint list built with every core ordered can be satisfied, by some timestamps, exactly
      when the valuation is a run: of the steps one by one under SC, of the store-buffer machine with
      private cells under TSO. */
  method EncodeOrdered(p: Program, m: Model, d: Template, final: nat) returns (cs: seq<Constr>)
    requires Wf(p) && WfTemplate(p, d) && FinalIs(p, final) && OwnCores(p, d)
    ensures WfCores(p, CoresOf(d))
    ensures forall v :: Keeps(p, v, CoresOf(d)) ==>
              ((exists t :: Sized(p, t) && AllHold(p, v, t, cs)) <==> IsBehaviour(p, m, v, CoresOf(d)))
  {
    CoresAreWf(p, d);
    cs := Encode(p, m, d, AllSet(|d.cores|), final);
    forall v | Keeps(p, v, CoresOf(d))
      ensures (exists t :: Sized(p, t) && AllHold(p, v, t, cs)) <==> IsBehaviour(p, m, v, CoresOf(d))
    {
      SolvesIsBehaviour(p, m, v, d);
    }
  }
}
