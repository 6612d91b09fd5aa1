/** The driver of the multi-core unroller: register every core's steps, apply the axioms, link the
    private states.  The collected constraints are the axioms. */
module Unrolling {
  import opened Traces
  import opened TsoAxioms
  import opened Constraints
  import opened MemoryModels
  import opened LocalState
  import opened LocalLinks
  import opened Sequential

  /** One trace and one list of private states for each ILA; `cores[i]` is the ILA's core. */
  datatype Template = Template(cores: seq<nat>, traces: seq<seq<nat>>, privs: seq<seq<Var>>)

  ghost predicate WfTemplate(p: Program, d: Template) {
    && |d.cores| == |d.traces| == |d.privs|
    && (forall c :: 0 <= c < |d.cores| ==> TraceOf(p, d.cores[c], d.traces[c]))
    && (forall c, k :: 0 <= c < |d.cores| && 0 <= k < |d.traces[c]| ==> p.steps[d.traces[c][k]].kind != Final)
    && (forall i: nat :: InRange(p, i) && p.steps[i].kind != Final ==> p.steps[i].core in d.cores)
  }

  /** No step is final, or `final` is the only one. */
  ghost predicate FinalIs(p: Program, final: nat) {
    forall i: nat :: InRange(p, i) ==> (p.steps[i].kind == Final <==> i == final)
  }

  ghost predicate Bounds(p: Program, m: Model, t: Times, i: nat)
    requires Sized(p, t)
  {
    InRange(p, i) ==> t.ts[i] > 0 && (m == TSO && SharedWriter(p, i) ==> t.gts[i] > 0)
  }

  method RegisterSteps(mm: MemoryModel, trace: seq<nat>)
    requires mm.Valid() && IsTrace(mm.p, trace)
    modifies mm
    ensures mm.Valid() && mm.registered == old(mm.registered) + set i | i in trace
    ensures forall v, t :: Sized(mm.p, t) ==>
              (AllHold(mm.p, v, t, mm.constr) <==>
               AllHold(mm.p, v, t, old(mm.constr)) && forall k :: 0 <= k < |trace| ==> Bounds(mm.p, mm.m, t, trace[k]))
  {
    for k := 0 to |trace|
      invariant mm.Valid() && mm.registered == old(mm.registered) + set i | i in trace[..k]
      invariant forall v, t :: Sized(mm.p, t) ==>
                  (AllHold(mm.p, v, t, mm.constr) <==>
                   AllHold(mm.p, v, t, old(mm.constr)) && forall j :: 0 <= j < k ==> Bounds(mm.p, mm.m, t, trace[j]))
    {
      ghost var before := mm.constr;
      mm.RegisterStep(trace[k]);
      assert trace[..k + 1] == trace[..k] + [trace[k]];
      forall v, t | Sized(mm.p, t)
        ensures AllHold(mm.p, v, t, mm.constr) <==> AllHold(mm.p, v, t, before) && Bounds(mm.p, mm.m, t, trace[k])
      {
        var bounds := RegisterBounds(mm.p, mm.m, trace[k]);
        AllHoldAppend(mm.p, v, t, before, bounds);
        assert AllHold(mm.p, v, t, bounds) <==>
                 Holds(mm.p, v, t, bounds[0]) && (|bounds| == 2 ==> Holds(mm.p, v, t, bounds[1]));
      }
    }
    assert trace[..|trace|] == trace;
  }

  ghost predicate TracesBounded(p: Program, m: Model, t: Times, traces: seq<seq<nat>>)
    requires Sized(p, t)
  {
    forall c, k :: 0 <= c < |traces| && 0 <= k < |traces[c]| ==> Bounds(p, m, t, traces[c][k])
  }

  lemma {:induction false} TemplateCovers(p: Program, d: Template, i: nat)
    requires WfTemplate(p, d) && InRange(p, i) && p.steps[i].kind != Final
    ensures exists c, k :: 0 <= c < |d.cores| && 0 <= k < |d.traces[c]| && d.traces[c][k] == i
  {
    var c :| 0 <= c < |d.cores| && d.cores[c] == p.steps[i].core;
    assert i in d.traces[c];
    var k :| 0 <= k < |d.traces[c]| && d.traces[c][k] == i;
  }

  ghost predicate Registered(p: Program, traces: seq<seq<nat>>, registered: set<nat>) {
    forall i: nat :: i in registered <==> exists c :: 0 <= c < |traces| && i in traces[c]
  }

  lemma {:induction false} BoundedOneMore(p: Program, m: Model, t: Times, traces: seq<seq<nat>>, c: nat)
    requires Sized(p, t) && c < |traces|
    ensures TracesBounded(p, m, t, traces[..c + 1]) <==>
              TracesBounded(p, m, t, traces[..c]) && forall k :: 0 <= k < |traces[c]| ==> Bounds(p, m, t, traces[c][k])
  {
    if TracesBounded(p, m, t, traces[..c + 1]) {
      forall b, k | 0 <= b < c && 0 <= k < |traces[..c][b]| ensures Bounds(p, m, t, traces[..c][b][k]) {
        assert traces[..c + 1][b] == traces[..c][b];
      }
      assert traces[..c + 1][c] == traces[c];
    }
  }

  lemma {:induction false} RegisteredOneMore(p: Program, traces: seq<seq<nat>>, c: nat, before: set<nat>, now: set<nat>)
    requires c < |traces| && Registered(p, traces[..c], before) && now == before + set i | i in traces[c]
    ensures Registered(p, traces[..c + 1], now)
  {
    var more := traces[..c + 1];
    forall i: nat ensures i in now <==> exists b :: 0 <= b < |more| && i in more[b] {
      if i in before {
        var b :| 0 <= b < c && i in traces[..c][b];
        assert i in more[b];
      }
      if i in traces[c] { assert i in more[c]; }
      if b :| 0 <= b < |more| && i in more[b] {
        if b < c { assert i in traces[..c][b]; }
      }
    }
  }

  lemma {:induction false} AllRegistered(p: Program, d: Template, registered: set<nat>)
    requires WfTemplate(p, d) && Registered(p, d.traces, registered)
    ensures forall i: nat :: i in registered <==> InRange(p, i) && p.steps[i].kind != Final
  {
    forall i: nat ensures i in registered <==> InRange(p, i) && p.steps[i].kind != Final {
      if InRange(p, i) && p.steps[i].kind != Final { TemplateCovers(p, d, i); }
      if i in registered {
        var c :| 0 <= c < |d.traces| && i in d.traces[c];
        var k :| 0 <= k < |d.traces[c]| && d.traces[c][k] == i;
      }
    }
  }

  /** Every step of every core is registered; then the lists are settled. */
  method Unroll(mm: MemoryModel, d: Template)
    requires Wf(mm.p) && mm.Valid() && mm.registered == {} && mm.constr == [] && WfTemplate(mm.p, d)
    modifies mm
    ensures mm.Valid() && (forall i: nat :: i in mm.pureWriteList <==> PureWrite(mm.p, i))
    ensures forall i: nat :: i in mm.registered <==> i < |mm.p.steps| && mm.p.steps[i].kind != Final
    ensures forall v, t :: Sized(mm.p, t) ==>
              (AllHold(mm.p, v, t, mm.constr) <==> TracesBounded(mm.p, mm.m, t, d.traces))
  {
    for c := 0 to |d.traces|
      invariant mm.Valid() && Registered(mm.p, d.traces[..c], mm.registered)
      invariant forall v, t :: Sized(mm.p, t) ==>
                  (AllHold(mm.p, v, t, mm.constr) <==> TracesBounded(mm.p, mm.m, t, d.traces[..c]))
    {
      ghost var before := mm.registered;
      RegisterSteps(mm, d.traces[c]);
      RegisteredOneMore(mm.p, d.traces, c, before, mm.registered);
      forall t | Sized(mm.p, t)
        ensures TracesBounded(mm.p, mm.m, t, d.traces[..c + 1]) <==>
                  TracesBounded(mm.p, mm.m, t, d.traces[..c])
                  && forall k :: 0 <= k < |d.traces[c]| ==> Bounds(mm.p, mm.m, t, d.traces[c][k])
      {
        BoundedOneMore(mm.p, mm.m, t, d.traces, c);
      }
    }
    assert d.traces[..|d.traces|] == d.traces;
    AllRegistered(mm.p, d, mm.registered);
    mm.FinishRegisterSteps();
  }

  /** What linking the private states of one core says: with its steps in program order, or with
      no order but the one the values need. */
  ghost predicate CoreLinked(p: Program, v: Valuation, t: Times, d: Template, c: nat, inOrder: bool)
    requires Sized(p, t) && |p.steps| > 0 && WfTemplate(p, d) && c < |d.cores|
  {
    if inOrder then OrderedLocal(p, v, d.traces[c], AsSet(d.privs[c])) && StepwiseOrder(p, t, d.traces[c])
    else UnorderedLocal(p, v, t, d.traces[c], AsSet(d.privs[c]))
  }

  ghost predicate LocalsLinked(p: Program, v: Valuation, t: Times, d: Template, flags: seq<bool>, n: nat)
    requires Sized(p, t) && |p.steps| > 0 && WfTemplate(p, d) && n <= |d.cores| == |flags|
  {
    forall c :: 0 <= c < n ==> CoreLinked(p, v, t, d, c, flags[c])
  }

  method LinkCore(p: Program, d: Template, c: nat, inOrder: bool) returns (cs: seq<Constr>)
    requires |p.steps| > 0 && WfTemplate(p, d) && c < |d.cores|
    ensures forall v, t :: Sized(p, t) ==> (AllHold(p, v, t, cs) <==> CoreLinked(p, v, t, d, c, inOrder))
  {
    if inOrder {
      cs := SetLocalStateOrdered(p, d.traces[c], d.privs[c]);
    } else {
      cs := SetLocalStateUnordered(p, d.traces[c], d.privs[c]);
    }
  }

  method LinkLocals(p: Program, d: Template, flags: seq<bool>) returns (cs: seq<Constr>)
    requires |p.steps| > 0 && WfTemplate(p, d) && |flags| == |d.cores|
    ensures forall v, t :: Sized(p, t) ==> (AllHold(p, v, t, cs) <==> LocalsLinked(p, v, t, d, flags, |d.cores|))
  {
    cs := [];
    for c := 0 to |d.cores|
      invariant forall v, t :: Sized(p, t) ==> (AllHold(p, v, t, cs) <==> LocalsLinked(p, v, t, d, flags, c))
    {
      var core := LinkCore(p, d, c, flags[c]);
      forall v, t | Sized(p, t) ensures AllHold(p, v, t, cs + core) <==> LocalsLinked(p, v, t, d, flags, c + 1) {
        AllHoldAppend(p, v, t, cs, core);
      }
      cs := cs + core;
    }
  }

  lemma {:induction false} StepwiseIsOrdered(p: Program, t: Times, tr: seq<nat>, j: nat, k: nat)
    requires Sized(p, t) && IsTrace(p, tr) && StepwiseOrder(p, t, tr) && j < k < |tr|
    ensures t.ts[tr[j]] < t.ts[tr[k]]
  {
    if j + 1 < k { StepwiseIsOrdered(p, t, tr, j, k - 1); }
  }

  ghost predicate FinalLast(p: Program, t: Times, final: nat)
    requires Sized(p, t)
  {
    InRange(p, final) ==> forall i: nat :: i < |p.steps| && i != final ==> Stamp(p, t, i) < Stamp(p, t, final)
  }

  /** Program order on the cores flagged as ordered; the final step after every other. */
  ghost predicate OrderedOn(p: Program, t: Times, d: Template, flags: seq<bool>)
    requires Sized(p, t) && |flags| == |d.cores|
  {
    forall i: nat, j: nat :: Po(p, i, j) && (p.steps[j].kind == Final || InOrder(p, d, flags, j)) ==> t.ts[i] < t.ts[j]
  }

  ghost predicate InOrder(p: Program, d: Template, flags: seq<bool>, i: nat)
    requires InRange(p, i) && |flags| == |d.cores|
  {
    exists c :: 0 <= c < |flags| && flags[c] && d.cores[c] == p.steps[i].core
  }

  /** With every core ordered this is program order. */
  lemma {:induction false} AllInOrder(p: Program, t: Times, d: Template, flags: seq<bool>)
    requires Sized(p, t) && WfTemplate(p, d) && |flags| == |d.cores| && forall c :: 0 <= c < |flags| ==> flags[c]
    ensures OrderedOn(p, t, d, flags) <==> Ordered(p, t)
  {
    forall j: nat | InRange(p, j) && p.steps[j].kind != Final ensures InOrder(p, d, flags, j) {
      assert p.steps[j].core in d.cores;
      var c :| 0 <= c < |d.cores| && d.cores[c] == p.steps[j].core;
      assert flags[c];
    }
  }

  lemma {:induction false} InTrace(p: Program, d: Template, c: nat, i: nat, j: nat) returns (a: nat, b: nat)
    requires WfTemplate(p, d) && c < |d.cores| && Po(p, i, j) && p.steps[j].kind != Final && d.cores[c] == p.steps[j].core
    ensures a < b < |d.traces[c]| && d.traces[c][a] == i && d.traces[c][b] == j
  {
    assert i in d.traces[c] && j in d.traces[c];
    a :| 0 <= a < |d.traces[c]| && d.traces[c][a] == i;
    b :| 0 <= b < |d.traces[c]| && d.traces[c][b] == j;
    assert b < a ==> Po(p, j, i);
  }

  lemma {:induction false} BoundsGiveOrder(p: Program, m: Model, t: Times, d: Template, flags: seq<bool>, final: nat)
    requires Wf(p) && Sized(p, t) && WfTemplate(p, d) && FinalIs(p, final) && |flags| == |d.cores|
    requires TracesBounded(p, m, t, d.traces) && FinalLast(p, t, final)
    requires forall c :: 0 <= c < |d.cores| && flags[c] ==> StepwiseOrder(p, t, d.traces[c])
    ensures Positive(m, p, t) && OrderedOn(p, t, d, flags)
  {
    forall i: nat | InRange(p, i) ensures Bounds(p, m, t, i) {
      if i != final {
        TemplateCovers(p, d, i);
      } else {
        assert Stamp(p, t, 0) < Stamp(p, t, i) && !SharedWriter(p, i);
      }
    }
    forall i: nat, j: nat | Po(p, i, j) && (p.steps[j].kind == Final || InOrder(p, d, flags, j)) ensures t.ts[i] < t.ts[j] {
      if j == final {
        assert Stamp(p, t, i) < Stamp(p, t, j);
      } else {
        var c :| 0 <= c < |flags| && flags[c] && d.cores[c] == p.steps[j].core;
        var a, b := InTrace(p, d, c, i, j);
        StepwiseIsOrdered(p, t, d.traces[c], a, b);
      }
    }
  }

  lemma {:induction false} OrderGivesBounds(p: Program, m: Model, t: Times, d: Template, flags: seq<bool>, final: nat)
    requires Wf(p) && Sized(p, t) && WfTemplate(p, d) && FinalIs(p, final) && |flags| == |d.cores|
    requires Positive(m, p, t) && OrderedOn(p, t, d, flags)
    ensures TracesBounded(p, m, t, d.traces) && FinalLast(p, t, final)
    ensures forall c :: 0 <= c < |d.cores| && flags[c] ==> StepwiseOrder(p, t, d.traces[c])
  {
    forall c, k | 0 <= c < |d.cores| && flags[c] && 0 < k < |d.traces[c]| ensures t.ts[d.traces[c][k - 1]] < t.ts[d.traces[c][k]] {
      assert Po(p, d.traces[c][k - 1], d.traces[c][k]);
      assert p.steps[d.traces[c][k]].core == d.cores[c];
      assert InOrder(p, d, flags, d.traces[c][k]);
    }
    if InRange(p, final) {
      forall i: nat | i < |p.steps| && i != final ensures Stamp(p, t, i) < Stamp(p, t, final) {
        if i > 0 { assert Po(p, i, final); }
      }
    }
  }

  lemma {:induction false} OrderMeaning(p: Program, m: Model, t: Times, d: Template, flags: seq<bool>, final: nat)
    requires Wf(p) && Sized(p, t) && WfTemplate(p, d) && FinalIs(p, final) && |flags| == |d.cores|
    ensures (TracesBounded(p, m, t, d.traces) && FinalLast(p, t, final)
             && forall c :: 0 <= c < |d.cores| && flags[c] ==> StepwiseOrder(p, t, d.traces[c]))
            <==> Positive(m, p, t) && OrderedOn(p, t, d, flags)
  {
    if TracesBounded(p, m, t, d.traces) && FinalLast(p, t, final)
       && forall c :: 0 <= c < |d.cores| && flags[c] ==> StepwiseOrder(p, t, d.traces[c]) {
      BoundsGiveOrder(p, m, t, d, flags, final);
    }
    if Positive(m, p, t) && OrderedOn(p, t, d, flags) {
      OrderGivesBounds(p, m, t, d, flags, final);
    }
  }

  /** Each core's private states in the form its flag asks for. */
  ghost predicate LocalForms(p: Program, v: Valuation, t: Times, d: Template, flags: seq<bool>)
    requires Sized(p, t) && |p.steps| > 0 && WfTemplate(p, d) && |flags| == |d.cores|
  {
    forall c :: 0 <= c < |d.cores| ==>
      if flags[c] then OrderedLocal(p, v, d.traces[c], AsSet(d.privs[c])) else UnorderedLocal(p, v, t, d.traces[c], AsSet(d.privs[c]))
  }

  ghost predicate Solves(p: Program, m: Model, v: Valuation, t: Times, d: Template, flags: seq<bool>)
    requires Sized(p, t) && |p.steps| > 0 && WfTemplate(p, d) && |flags| == |d.cores|
  {
    Positive(m, p, t) && OrderedOn(p, t, d, flags) && AxiomsOf(m, p, v, t) && LocalForms(p, v, t, d, flags)
  }

  /** The constraints the unroller collects are satisfied by exactly the solutions of the model's
      axioms with program order on the ordered cores and each core's local states in its form. */
  method Encode(p: Program, m: Model, d: Template, flags: seq<bool>, final: nat) returns (cs: seq<Constr>)
    requires Wf(p) && WfTemplate(p, d) && FinalIs(p, final) && |flags| == |d.cores|
    ensures forall v, t :: Sized(p, t) ==> (AllHold(p, v, t, cs) <==> Solves(p, m, v, t, d, flags))
  {
    var mm := new MemoryModel(p, m);
    Unroll(mm, d);
    if 1 <= final < |p.steps| {
      mm.SetFinalProperty(final);
    }
    assert mm.Finished();
    ghost var bounds := mm.constr;
    assert forall v, t :: Sized(p, t) ==>
      (AllHold(p, v, t, bounds) <==> TracesBounded(p, m, t, d.traces) && FinalLast(p, t, final));
    mm.ApplyAxioms();
    var locals := LinkLocals(p, d, flags);
    cs := mm.constr + locals;
    forall v, t | Sized(p, t) ensures AllHold(p, v, t, cs) <==> Solves(p, m, v, t, d, flags) {
      AllHoldAppend(p, v, t, mm.constr, locals);
      OrderMeaning(p, m, t, d, flags, final);
    }
  }
}
