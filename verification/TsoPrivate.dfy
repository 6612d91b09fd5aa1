/** The store-buffer machine with a private cell for each private state of a core, and the TSO axioms
    with the ordered local states. */
module TsoPrivate {
  import opened Traces
  import opened TsoAxioms
  import opened LocalState
  import SB = StoreBuffer
  import TM = TsoMachine
  import opened Sequential

  /** What the cell of a private state holds after `k` events: executing a decoded step writes the
      private states it updates at once. */
  function CellAt(p: Program, v: Valuation, es: seq<SB.Event>, k: nat, s: Var): int
    requires k <= |es|
  {
    if k == 0 then v.init(s, 0)
    else if es[k - 1].Exec? && Updates(p, s, es[k - 1].i) && v.decode(es[k - 1].i) then v.wval(es[k - 1].i, s)
    else CellAt(p, v, es, k - 1, s)
  }

  /** Each read of a private state finds its cell, and each final value is what the cell ends with. */
  ghost predicate CellsAgree(p: Program, v: Valuation, c: nat, privs: set<Var>, es: seq<SB.Event>) {
    && (forall k: nat, s :: k < |es| && ExecutesOn(p, es[k], c) && s in privs && Reads(p, s, es[k].i) ==>
          v.rval(es[k].i, s) == CellAt(p, v, es, k, s))
    && (forall s :: s in privs ==> v.fin(s) == CellAt(p, v, es, |es|, s))
  }

  predicate ExecutesOn(p: Program, e: SB.Event, c: nat) {
    e.Exec? && InRange(p, e.i) && p.steps[e.i].core == c
  }

  ghost predicate PrivateRun(p: Program, v: Valuation, cs: Cores, es: seq<SB.Event>) {
    SB.Run(p, v, es) && forall c :: c in cs.traces && c in cs.privs ==> CellsAgree(p, v, c, cs.privs[c], es)
  }

  // ----- the executions alone -----

  /** The steps executed by the first `k` events. */
  function Execs(es: seq<SB.Event>, k: nat): seq<nat>
    requires k <= |es|
  {
    if k == 0 then [] else if es[k - 1].Exec? then Execs(es, k - 1) + [es[k - 1].i] else Execs(es, k - 1)
  }

  lemma {:induction false} ExecsPrefix(es: seq<SB.Event>, j: nat, k: nat)
    requires j <= k <= |es|
    ensures |Execs(es, j)| <= |Execs(es, k)| && Execs(es, k)[..|Execs(es, j)|] == Execs(es, j)
  {
    if j < k {
      ExecsPrefix(es, j, k - 1);
    }
  }

  lemma {:induction false} ExecAt(es: seq<SB.Event>, k: nat)
    requires k < |es| && es[k].Exec?
    ensures |Execs(es, k)| < |Execs(es, |es|)| && Execs(es, |es|)[|Execs(es, k)|] == es[k].i
  {
    ExecsPrefix(es, k + 1, |es|);
    assert Execs(es, k + 1)[|Execs(es, k)|] == es[k].i;
  }

  /** Every execution is some event's. */
  lemma {:induction false} EventOf(es: seq<SB.Event>, n: nat, a: nat) returns (k: nat)
    requires n <= |es| && a < |Execs(es, n)|
    ensures k < n && es[k].Exec? && |Execs(es, k)| == a && es[k].i == Execs(es, n)[a]
  {
    if es[n - 1].Exec? && a == |Execs(es, n - 1)| {
      k := n - 1;
    } else {
      k := EventOf(es, n - 1, a);
    }
  }

  /** The executions of a run interleave the cores' steps. */
  lemma {:induction false} ExecsInterleave(p: Program, v: Valuation, es: seq<SB.Event>)
    requires SB.Run(p, v, es)
    ensures Interleaving(p, Execs(es, |es|))
  {
    var os := Execs(es, |es|);
    forall a | 0 <= a < |os| ensures InRange(p, os[a]) {
      var k := EventOf(es, |es|, a);
      SB.PosOf(p, es, k);
    }
    forall a, b | 0 <= a < b < |os| ensures os[a] != os[b] && !Po(p, os[b], os[a]) {
      TwoExecs(p, v, es, a, b);
    }
    forall i: nat | InRange(p, i) ensures i in os {
      assert SB.IsEvent(p, SB.Exec(i));
      ExecAt(es, SB.Pos(es, SB.Exec(i)));
    }
  }

  lemma {:induction false} TwoExecs(p: Program, v: Valuation, es: seq<SB.Event>, a: nat, b: nat)
    requires SB.Run(p, v, es) && a < b < |Execs(es, |es|)|
    ensures var os := Execs(es, |es|); os[a] != os[b] && !Po(p, os[b], os[a])
  {
    var j := EventOf(es, |es|, a);
    var k := EventOf(es, |es|, b);
    if k < j {
      ExecsPrefix(es, k, j);
    }
    SB.PosOf(p, es, j);
    SB.PosOf(p, es, k);
    SB.StateIsOk(p, v, es, j);
    assert SB.EnabledAt(p, v, es, j);
  }

  /** The cell of a private state holds what the same steps, run one by one, leave in it. */
  lemma {:induction false} CellIsMem(p: Program, v: Valuation, es: seq<SB.Event>, k: nat, s: Var)
    requires k <= |es| && s !in p.shared
    ensures CellAt(p, v, es, k, s) == MemAt(p, v, Execs(es, k), |Execs(es, k)|)(Loc(s, 0))
  {
    if k > 0 {
      CellIsMem(p, v, es, k - 1, s);
      if es[k - 1].Exec? {
        var front, i := Execs(es, k - 1), es[k - 1].i;
        var os := front + [i];
        MemOfPrefix(p, v, front, os, |front|, Loc(s, 0));
        assert WritesCell(p, v, os[|front|], Loc(s, 0)) <==> Updates(p, s, i) && v.decode(i);
        assert Execs(es, k) == os && |os| == |front| + 1;
      }
    }
  }

  lemma {:induction false} MemOfPrefix(p: Program, v: Valuation, front: seq<nat>, os: seq<nat>, k: nat, l: Loc)
    requires k <= |front| <= |os| && os[..|front|] == front
    ensures MemAt(p, v, front, k)(l) == MemAt(p, v, os, k)(l)
  {
    if k > 0 {
      MemOfPrefix(p, v, front, os, k - 1, l);
      assert os[..|front|][k - 1] == front[k - 1];
    }
  }

  lemma {:induction false} CellAtExec(p: Program, v: Valuation, es: seq<SB.Event>, k: nat, s: Var)
    requires k <= |es| && s !in p.shared
    ensures |Execs(es, k)| <= |Execs(es, |es|)|
    ensures CellAt(p, v, es, k, s) == MemAt(p, v, Execs(es, |es|), |Execs(es, k)|)(Loc(s, 0))
  {
    CellIsMem(p, v, es, k, s);
    ExecsPrefix(es, k, |es|);
    MemOfPrefix(p, v, Execs(es, k), Execs(es, |es|), |Execs(es, k)|, Loc(s, 0));
  }

  /** The cells agree exactly when the core, run on its own, gives the same values. */
  lemma {:induction false} CellsAreLocal(p: Program, v: Valuation, c: nat, tr: seq<nat>, privs: set<Var>, es: seq<SB.Event>)
    requires SB.Run(p, v, es) && TraceOf(p, c, tr) && forall s :: s in privs ==> Owns(p, c, s)
    ensures CellsAgree(p, v, c, privs, es) <==> LocalRun(p, v, tr, privs)
  {
    var os := Execs(es, |es|);
    ExecsInterleave(p, v, es);
    CoreIsLocal(p, v, c, tr, privs, os);
    forall s | s in privs ensures CellAt(p, v, es, |es|, s) == MemAt(p, v, os, |os|)(Loc(s, 0)) {
      CellAtExec(p, v, es, |es|, s);
    }
    if CellsAgree(p, v, c, privs, es) {
      forall a: nat, s | a < |os| && p.steps[os[a]].core == c && s in privs && Reads(p, s, os[a])
        ensures v.rval(os[a], s) == MemAt(p, v, os, a)(Loc(s, 0))
      {
        var k := EventOf(es, |es|, a);
        CellAtExec(p, v, es, k, s);
        assert ExecutesOn(p, es[k], c);
      }
      assert CoreAgrees(p, v, c, privs, os);
    }
    if CoreAgrees(p, v, c, privs, os) {
      forall k: nat, s | k < |es| && ExecutesOn(p, es[k], c) && s in privs && Reads(p, s, es[k].i)
        ensures v.rval(es[k].i, s) == CellAt(p, v, es, k, s)
      {
        ExecAt(es, k);
        CellAtExec(p, v, es, k, s);
      }
    }
  }

  /** In any run all cells agree exactly when the ordered local-state constraints hold. */
  lemma {:induction false} CellsAreConstraints(p: Program, v: Valuation, cs: Cores, es: seq<SB.Event>)
    requires SB.Run(p, v, es) && WfCores(p, cs) && Keeps(p, v, cs)
    ensures PrivateRun(p, v, cs, es) <==> LocalConstraints(p, v, cs)
  {
    forall c | c in cs.traces
      ensures CellsAgree(p, v, c, cs.privs[c], es) <==> OrderedLocal(p, v, cs.traces[c], cs.privs[c])
    {
      CellsAreLocal(p, v, c, cs.traces[c], cs.privs[c], es);
      OrderedIsRun(p, v, cs.traces[c], cs.privs[c]);
    }
  }

  ghost predicate TsoAxiomBehaviour(p: Program, v: Valuation, cs: Cores)
    requires WfCores(p, cs)
  {
    LocalConstraints(p, v, cs) && TM.AxiomBehaviour(p, v)
  }

  ghost predicate TsoMachineBehaviour(p: Program, v: Valuation, cs: Cores) {
    exists es :: PrivateRun(p, v, cs, es)
  }

  /** The TSO axioms with ordered cores and local states describe exactly the store-buffer machine
      with private cells. */
  lemma {:induction false} TsoIsPrivateStoreBuffer(p: Program, v: Valuation, cs: Cores)
    requires Wf(p) && WfCores(p, cs) && Keeps(p, v, cs)
    ensures TsoAxiomBehaviour(p, v, cs) <==> TsoMachineBehaviour(p, v, cs)
  {
    TM.TsoIsStoreBuffer(p, v);
    if TsoAxiomBehaviour(p, v, cs) {
      var es :| SB.Run(p, v, es);
      CellsAreConstraints(p, v, cs, es);
    }
    if es :| PrivateRun(p, v, cs, es) {
      assert SB.Run(p, v, es);
      CellsAreConstraints(p, v, cs, es);
    }
  }
}
