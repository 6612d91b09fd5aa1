/** Unrolling a path: from frame 0 the solutions are the state sequences in which step `i` fires
    instruction `i` of the path. */
module PathUnroll {
  import opened Formulas
  import opened UnrollEncodings
  import opened Unrollers
  import MU = MonoUnroll

  /** A path, its variables, and the predicates to hold at all frames, at the first and at each. */
  datatype Route = Route(steps: seq<Instr>, vars: seq<Name>, glob: seq<IExpr>, init: seq<IExpr>, step: nat -> seq<IExpr>)

  function PredsOf(p: Route, k: nat): seq<IExpr> {
    (if k == 0 && k < |p.steps| then p.init else []) + p.glob + p.step(k)
  }

  /** Step `k` fires its instruction and moves every variable by it. */
  ghost predicate Fires(I: Interp, p: Route, env: Env, k: nat) {
    k < |p.steps| ==>
      && Decodes(I, p.steps[k], MU.At(env, k))
      && forall x :: x in p.vars ==> MU.At(env, k + 1)(x) == NextValue(I, p.steps[k], x, MU.At(env, k))
  }

  /** The states at frames 0 to the length of the path are a run of it. */
  ghost predicate IsPathRun(I: Interp, p: Route, env: Env) {
    && (forall k: nat :: k <= |p.steps| ==> Sat(I, MU.At(env, k), PredsOf(p, k)))
    && forall k: nat :: k < |p.steps| ==> Fires(I, p, env, k)
  }

  /** The system of a path as far as it goes. */
  ghost predicate SystemOfPath(p: Route, m: System) {
    && m.vars == p.vars && m.glob == p.glob && m.init == p.init && (forall k: nat :: m.step(k) == p.step(k))
    && forall k: nat :: k < |p.steps| ==> m.next(k) == NextState(p.steps[k], p.vars) && m.pred(k) == [DecodeOf(p.steps[k])]
  }

  lemma {:induction false} StepMeans(I: Interp, p: Route, m: System, env: Env, k: nat)
    requires WfSystem(m) && SystemOfPath(p, m) && k < |p.steps|
    ensures StepsAt(I, m, env, k) <==> forall x :: x in p.vars ==> MU.At(env, k + 1)(x) == NextValue(I, p.steps[k], x, MU.At(env, k))
  {
    forall j | 0 <= j < |p.vars|
      ensures Eval(I, GetExpr(m.next(k)[j], Curr(0 + k)), env) == NextValue(I, p.steps[k], p.vars[j], MU.At(env, k))
    {
      NextMeans(I, p.steps[k], p.vars[j], env, k);
    }
    if StepsAt(I, m, env, k) {
      forall x | x in p.vars ensures MU.At(env, k + 1)(x) == NextValue(I, p.steps[k], x, MU.At(env, k)) {
        var j :| 0 <= j < |p.vars| && p.vars[j] == x;
        assert env(Symbol(m.vars[j], Curr(k + 1))) == Eval(I, GetExpr(m.next(k)[j], Curr(0 + k)), env);
      }
    }
    if forall x :: x in p.vars ==> MU.At(env, k + 1)(x) == NextValue(I, p.steps[k], x, MU.At(env, k)) {
      forall j | 0 <= j < |m.vars| ensures env(Symbol(m.vars[j], Curr(k + 1))) == Eval(I, GetExpr(m.next(k)[j], Curr(0 + k)), env) {
        assert MU.At(env, k + 1)(p.vars[j]) == NextValue(I, p.steps[k], p.vars[j], MU.At(env, k));
      }
    }
  }

  lemma {:induction false} NextMeans(I: Interp, instr: Instr, x: Name, env: Env, k: nat)
    ensures Eval(I, GetExpr(UpdateOf(instr, x), Curr(k)), env) == NextValue(I, instr, x, MU.At(env, k))
  {
    FrameValue(I, UpdateOf(instr, x), Curr(k), env);
    SameOnNames(I, UpdateOf(instr, x), (y: Name) => env(Symbol(y, Curr(k))), MU.At(env, k));
    CompletionsMean(I, instr, x, MU.At(env, k));
  }

  lemma {:induction false} PredsMean(I: Interp, p: Route, m: System, env: Env, k: nat)
    requires SystemOfPath(p, m) && k < |p.steps|
    ensures PredsAt(I, m, env, k) <==> Sat(I, MU.At(env, k), PredsOf(p, k)) && Decodes(I, p.steps[k], MU.At(env, k))
  {
    var f, first, decode := MU.At(env, k), if k == 0 then m.init else [], [DecodeOf(p.steps[k])];
    MU.SatAt(I, env, FramePreds(m, k), k);
    SatAppend(I, f, first + m.glob + decode, m.step(k));
    SatAppend(I, f, first + m.glob, decode);
    SatAppend(I, f, first + m.glob, m.step(k));
    CompletionsMean(I, p.steps[k], Dead, f);
    assert Sat(I, f, decode) <==> Truth(Eval(I, decode[0], f));
  }

  /** The solutions of the linked encoding are the runs of the path. */
  lemma {:induction false} PathIsRuns(I: Interp, p: Route, m: System, env: Env)
    requires WfSystem(m) && SystemOfPath(p, m)
    ensures Sat(I, env, AssnCstr(m, |p.steps|, 0)) <==> IsPathRun(I, p, env)
  {
    var len := |p.steps|;
    AssnSplits(I, m, env, len);
    MU.SatAt(I, env, m.glob + m.step(len), len);
    assert PredsOf(p, len) == m.glob + m.step(len);
    forall k: nat | k < len
      ensures PredsAt(I, m, env, k) && StepsAt(I, m, env, k) <==> Sat(I, MU.At(env, k), PredsOf(p, k)) && Fires(I, p, env, k)
    {
      PredsMean(I, p, m, env, k);
      StepMeans(I, p, m, env, k);
    }
    FramesAreRun(I, p, m, env);
  }

  lemma {:induction false} FramesAreRun(I: Interp, p: Route, m: System, env: Env)
    requires WfSystem(m)
    requires forall k: nat :: k < |p.steps| ==>
      ((PredsAt(I, m, env, k) && StepsAt(I, m, env, k)) <==> (Sat(I, MU.At(env, k), PredsOf(p, k)) && Fires(I, p, env, k)))
    ensures IsPathRun(I, p, env) <==>
      && Sat(I, MU.At(env, |p.steps|), PredsOf(p, |p.steps|))
      && (forall k: nat :: k < |p.steps| ==> PredsAt(I, m, env, k)) && (forall k: nat :: k < |p.steps| ==> StepsAt(I, m, env, k))
  {
  }

  // ----- the unroller object in path mode -----

  ghost function PathOf(u: Unroller): Route
    reads u
    requires u.mode.Path?
  {
    var steps := u.sPred;
    Route(u.mode.steps, u.depVars, u.gPred, u.iPred, (i: nat) => if i in steps then steps[i] else [])
  }

  /** From frame 0 the formula the object returns for its whole path has exactly the runs of the path
      as its solutions. */
  method PathAssn(u: Unroller) returns (z: ZExpr)
    requires u.mode.Path? && u.Valid(|u.mode.steps|)
    modifies u`vars, u`kNext, u`kPred, u`kCurr, u`kNextZ, u`kPrev, u`cstr
    ensures PathOf(u) == old(PathOf(u))
    ensures forall I, env :: Truth(Eval(I, z, env)) <==> IsPathRun(I, PathOf(u), env)
  {
    ghost var p := PathOf(u);
    z := u.UnrollAssn(|u.mode.steps|, 0);
    assert forall i: nat :: u.Sys().step(i) == p.step(i);
    forall I, env ensures Truth(Eval(I, z, env)) <==> IsPathRun(I, p, env) {
      PathIsRuns(I, p, u.Sys(), env);
    }
  }
}
