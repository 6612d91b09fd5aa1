/** The monolithic unrolling: in every solution each step selects exactly one instruction or the
    deadlock bit, and the solutions are the runs of the instruction set. */
module MonoUnroll {
  import opened Formulas
  import opened UnrollEncodings
  import opened Unrollers

  /** Bit `c` is selected; `c == n` is the deadlock bit. */
  predicate Selected(f: Name -> Value, n: nat, c: nat) {
    if c < n then Truth(f(Select(c))) else Truth(f(Dead))
  }

  ghost predicate OnlySelected(f: Name -> Value, n: nat, c: nat) {
    c <= n && Selected(f, n, c) && forall d: nat :: d <= n && d != c ==> !Selected(f, n, d)
  }

  /** Choice `c` is allowed in the state `f` and gives the next state `next`. */
  ghost predicate Takes(I: Interp, instrs: seq<Instr>, vars: seq<Name>, f: Name -> Value, next: Name -> Value, c: nat) {
    && c <= |instrs|
    && (if c < |instrs| then Decodes(I, instrs[c], f) else forall i :: 0 <= i < |instrs| ==> !Decodes(I, instrs[i], f))
    && forall x :: x in vars ==> next(x) == if c < |instrs| then NextValue(I, instrs[c], x, f) else f(x)
  }

  // ----- the meaning of the pieces -----

  lemma {:induction false} SelectDecodesMeans(I: Interp, instrs: seq<Instr>, f: Name -> Value, n: nat)
    requires n <= |instrs|
    ensures Truth(Eval(I, SelectDecodes(instrs, n), f)) <==>
              forall i :: 0 <= i < n && Truth(f(Select(i))) ==> Decodes(I, instrs[i], f)
  {
    if n > 0 {
      SelectDecodesMeans(I, instrs, f, n - 1);
      CompletionsMean(I, instrs[n - 1], Dead, f);
      Connectives(I, f, Var(Select(n - 1)), DecodeOf(instrs[n - 1]));
      Connectives(I, f, SelectDecodes(instrs, n - 1), Implies(Var(Select(n - 1)), DecodeOf(instrs[n - 1])));
    }
  }

  lemma {:induction false} NoneDecodesMeans(I: Interp, instrs: seq<Instr>, f: Name -> Value, n: nat)
    requires n <= |instrs|
    ensures Truth(Eval(I, NoneDecodes(instrs, n), f)) <==> forall i :: 0 <= i < n ==> !Decodes(I, instrs[i], f)
  {
    if n > 0 {
      NoneDecodesMeans(I, instrs, f, n - 1);
      CompletionsMean(I, instrs[n - 1], Dead, f);
      Connectives(I, f, DecodeOf(instrs[n - 1]), True());
      Connectives(I, f, NoneDecodes(instrs, n - 1), Neg(DecodeOf(instrs[n - 1])));
    }
  }

  lemma {:induction false} SelectUpdatesMeans(I: Interp, instrs: seq<Instr>, x: Name, f: Name -> Value, n: nat)
    requires n <= |instrs|
    ensures Truth(Eval(I, SelectUpdates(instrs, x, n), f)) <==>
              forall i :: 0 <= i < n && Truth(f(Select(i))) ==> f(VirtualOf(x)) == NextValue(I, instrs[i], x, f)
  {
    if n > 0 {
      SelectUpdatesMeans(I, instrs, x, f, n - 1);
      CompletionsMean(I, instrs[n - 1], x, f);
      var eq := Equal(Var(VirtualOf(x)), UpdateOf(instrs[n - 1], x));
      Connectives(I, f, Var(VirtualOf(x)), UpdateOf(instrs[n - 1], x));
      Connectives(I, f, Var(Select(n - 1)), eq);
      Connectives(I, f, SelectUpdates(instrs, x, n - 1), Implies(Var(Select(n - 1)), eq));
    }
  }

  lemma {:induction false} AtLeastOneMeans(I: Interp, f: Name -> Value, n: nat)
    ensures Truth(Eval(I, AtLeastOne(n), f)) <==> Truth(f(Dead)) || exists i: nat :: i < n && Truth(f(Select(i)))
  {
    if n > 0 {
      AtLeastOneMeans(I, f, n - 1);
      Connectives(I, f, AtLeastOne(n - 1), Var(Select(n - 1)));
    }
  }

  lemma {:induction false} PairsFromMeans(I: Interp, f: Name -> Value, i: nat, n: nat, acc: IExpr)
    ensures Truth(Eval(I, PairsFrom(i, n, acc), f)) <==>
              Truth(Eval(I, acc, f)) && forall j: nat :: i < j < n ==> !(Truth(f(Select(i))) && Truth(f(Select(j))))
  {
    if n > i + 1 {
      PairsFromMeans(I, f, i, n - 1, acc);
      Connectives(I, f, Var(Select(i)), True());
      Connectives(I, f, Var(Select(n - 1)), True());
      Connectives(I, f, Neg(Var(Select(i))), Neg(Var(Select(n - 1))));
      Connectives(I, f, PairsFrom(i, n - 1, acc), NotBoth(i, n - 1));
    }
  }

  lemma {:induction false} AtMostOneMeans(I: Interp, f: Name -> Value, k: nat, n: nat)
    requires k <= n
    ensures Truth(Eval(I, AtMostOne(k, n), f)) <==>
              forall i: nat, j: nat :: i < k && i < j < n ==> !(Truth(f(Select(i))) && Truth(f(Select(j))))
  {
    if k > 0 {
      AtMostOneMeans(I, f, k - 1, n);
      PairsFromMeans(I, f, k - 1, n, AtMostOne(k - 1, n));
    }
  }

  ghost predicate ChoiceOk(I: Interp, instrs: seq<Instr>, f: Name -> Value) {
    && (forall i :: 0 <= i < |instrs| && Truth(f(Select(i))) ==> Decodes(I, instrs[i], f))
    && (Truth(f(Dead)) ==> forall i :: 0 <= i < |instrs| ==> !Decodes(I, instrs[i], f))
  }

  ghost predicate NextOk(I: Interp, instrs: seq<Instr>, x: Name, f: Name -> Value) {
    && (forall i :: 0 <= i < |instrs| && Truth(f(Select(i))) ==> f(VirtualOf(x)) == NextValue(I, instrs[i], x, f))
    && (Truth(f(Dead)) ==> f(VirtualOf(x)) == f(x))
  }

  lemma {:induction false} ChoicePredsMean(I: Interp, instrs: seq<Instr>, x: Name, f: Name -> Value)
    ensures Sat(I, f, ChoicePreds(instrs, x)) <==> ChoiceOk(I, instrs, f) && NextOk(I, instrs, x, f)
  {
    var n := |instrs|;
    SelectDecodesMeans(I, instrs, f, n);
    NoneDecodesMeans(I, instrs, f, n);
    SelectUpdatesMeans(I, instrs, x, f, n);
    Connectives(I, f, Var(Dead), NoneDecodes(instrs, n));
    Connectives(I, f, SelectDecodes(instrs, n), Implies(Var(Dead), NoneDecodes(instrs, n)));
    Connectives(I, f, Var(VirtualOf(x)), Var(x));
    Connectives(I, f, Var(Dead), Equal(Var(VirtualOf(x)), Var(x)));
    Connectives(I, f, SelectUpdates(instrs, x, n), Implies(Var(Dead), Equal(Var(VirtualOf(x)), Var(x))));
    var cs := ChoicePreds(instrs, x);
    assert Sat(I, f, cs) <==> Truth(Eval(I, cs[0], f)) && Truth(Eval(I, cs[1], f));
  }

  lemma {:induction false} VarPredsMean(I: Interp, instrs: seq<Instr>, vars: seq<Name>, f: Name -> Value, n: nat)
    requires n <= |vars|
    ensures Sat(I, f, VarPreds(instrs, vars, n)) <==>
              forall i :: 0 <= i < n ==> ChoiceOk(I, instrs, f) && NextOk(I, instrs, vars[i], f)
  {
    if n > 0 {
      VarPredsMean(I, instrs, vars, f, n - 1);
      SatAppend(I, f, VarPreds(instrs, vars, n - 1), ChoicePreds(instrs, vars[n - 1]));
      ChoicePredsMean(I, instrs, vars[n - 1], f);
    }
  }

  lemma {:induction false} MonoPredsMean(I: Interp, instrs: seq<Instr>, vars: seq<Name>, f: Name -> Value)
    requires |vars| > 0
    ensures Sat(I, f, MonoPreds(instrs, vars)) <==>
              && ChoiceOk(I, instrs, f) && (forall x :: x in vars ==> NextOk(I, instrs, x, f))
              && (Truth(f(Dead)) || exists i: nat :: i < |instrs| && Truth(f(Select(i))))
              && (forall i: nat, j: nat :: i < j < |instrs| ==> !(Truth(f(Select(i))) && Truth(f(Select(j)))))
  {
    var n := |instrs|;
    var tail := [AtLeastOne(n), AtMostOne(n, n)];
    SatAppend(I, f, VarPreds(instrs, vars, |vars|), tail);
    VarPredsMean(I, instrs, vars, f, |vars|);
    AtLeastOneMeans(I, f, n);
    AtMostOneMeans(I, f, n, n);
    assert Sat(I, f, tail) <==> Truth(Eval(I, tail[0], f)) && Truth(Eval(I, tail[1], f));
    assert (forall i :: 0 <= i < |vars| ==> ChoiceOk(I, instrs, f) && NextOk(I, instrs, vars[i], f)) <==>
           ChoiceOk(I, instrs, f) && forall x :: x in vars ==> NextOk(I, instrs, x, f) by {
      assert vars[0] in vars;
    }
  }

  /** The step predicate holds exactly when one choice alone is selected and is taken, although
      the at-most-one clause leaves the deadlock bit out. */
  lemma {:induction false} OneChoice(I: Interp, instrs: seq<Instr>, vars: seq<Name>, f: Name -> Value)
    requires |vars| > 0
    ensures Sat(I, f, MonoPreds(instrs, vars)) <==>
              exists c: nat :: OnlySelected(f, |instrs|, c) && Takes(I, instrs, vars, f, x => f(VirtualOf(x)), c)
  {
    var n := |instrs|;
    MonoPredsMean(I, instrs, vars, f);
    if Sat(I, f, MonoPreds(instrs, vars)) {
      var c: nat := n;
      if i: nat :| i < n && Truth(f(Select(i))) {
        c := i;
        assert Decodes(I, instrs[i], f);
      }
      assert OnlySelected(f, n, c) && Takes(I, instrs, vars, f, x => f(VirtualOf(x)), c);
    }
    if c: nat :| OnlySelected(f, n, c) && Takes(I, instrs, vars, f, x => f(VirtualOf(x)), c) {
      assert Selected(f, n, n) <==> c == n;
      forall i: nat | i < n ensures Truth(f(Select(i))) <==> i == c {
        assert Selected(f, n, i) <==> i == c;
      }
    }
  }

  // ----- whole runs -----

  datatype Model = Model(instrs: seq<Instr>, vars: seq<Name>, glob: seq<IExpr>, init: seq<IExpr>, step: nat -> seq<IExpr>)

  function SystemOf(m: Model): System {
    System(m.vars, i => Virtuals(m.vars), i => MonoPreds(m.instrs, m.vars), m.glob, m.init, m.step)
  }

  ghost function At(env: Env, k: nat): Name -> Value {
    x => env(Symbol(x, Curr(k)))
  }

  predicate UserName(x: Name) {
    x.State? || x.Input?
  }

  predicate UserExpr(e: IExpr) {
    match e
    case Var(x) => UserName(x)
    case Lit(v) => true
    case App(op, args) => forall i :: 0 <= i < |args| ==> UserExpr(args[i])
  }

  predicate UserExprs(es: seq<IExpr>) {
    forall i :: 0 <= i < |es| ==> UserExpr(es[i])
  }

  /** Expressions mention only states and inputs; the variables are states. */
  ghost predicate WfModel(m: Model) {
    && |m.vars| > 0 && Distinct(m.vars) && (forall x :: x in m.vars ==> x.State?)
    && UserExprs(m.glob) && UserExprs(m.init) && (forall i: nat :: UserExprs(m.step(i)))
    && forall c :: 0 <= c < |m.instrs| ==> UserInstr(m.instrs[c])
  }

  ghost predicate UserInstr(instr: Instr) {
    (instr.decode.Some? ==> UserExpr(instr.decode.value)) && forall x :: x in instr.updates ==> UserExpr(instr.updates[x])
  }

  function UserPreds(m: Model, k: nat, len: nat): seq<IExpr> {
    (if k == 0 && k < len then m.init else []) + m.glob + m.step(k)
  }

  ghost predicate UserHolds(I: Interp, m: Model, env: Env, len: nat) {
    forall k: nat :: k <= len ==> Sat(I, At(env, k), UserPreds(m, k, len))
  }

  /** Step `k` takes choice `c`, from frame `k` to frame `k + 1`. */
  ghost predicate RunStep(I: Interp, m: Model, env: Env, k: nat, c: nat) {
    Takes(I, m.instrs, m.vars, At(env, k), At(env, k + 1), c)
  }

  ghost predicate CanStep(I: Interp, m: Model, env: Env, k: nat) {
    exists c: nat :: RunStep(I, m, env, k, c)
  }

  /** The states at frames 0 to `len` are a run of the instruction set. */
  ghost predicate IsRun(I: Interp, m: Model, env: Env, len: nat) {
    UserHolds(I, m, env, len) && forall k: nat :: k < len ==> CanStep(I, m, env, k)
  }

  lemma {:induction false} SatAt(I: Interp, env: Env, es: seq<IExpr>, k: nat)
    ensures Sat(I, env, GetAll(es, Curr(k))) <==> Sat(I, At(env, k), es)
  {
    forall i | 0 <= i < |es| ensures Eval(I, GetAll(es, Curr(k))[i], env) == Eval(I, es[i], At(env, k)) {
      FrameValue(I, es[i], Curr(k), env);
      SameOnNames(I, es[i], (x: Name) => env(Symbol(x, Curr(k))), At(env, k));
    }
  }

  ghost predicate VirtualsLinked(m: Model, env: Env, k: nat) {
    forall x :: x in m.vars ==> At(env, k + 1)(x) == At(env, k)(VirtualOf(x))
  }

  ghost predicate FrameOk(I: Interp, m: Model, env: Env, k: nat) {
    Sat(I, At(env, k), MonoPreds(m.instrs, m.vars)) && VirtualsLinked(m, env, k)
  }

  lemma {:induction false} FrameSplits(I: Interp, m: Model, env: Env, len: nat, k: nat)
    requires WfModel(m) && k < len && WfSystem(SystemOf(m))
    ensures PredsAt(I, SystemOf(m), env, k) && StepsAt(I, SystemOf(m), env, k) <==>
              Sat(I, At(env, k), UserPreds(m, k, len)) && FrameOk(I, m, env, k)
  {
    var s := SystemOf(m);
    var first := if k == 0 then m.init else [];
    var mono := MonoPreds(m.instrs, m.vars);
    SatAt(I, env, FramePreds(s, k), k);
    SatAppend(I, At(env, k), first + m.glob + mono, m.step(k));
    SatAppend(I, At(env, k), first + m.glob, mono);
    SatAppend(I, At(env, k), first + m.glob, m.step(k));
    forall j | 0 <= j < |m.vars|
      ensures Eval(I, GetExpr(s.next(k)[j], Curr(0 + k)), env) == At(env, k)(VirtualOf(m.vars[j]))
    {
    }
    if VirtualsLinked(m, env, k) {
      forall j | 0 <= j < |m.vars| ensures env(Symbol(m.vars[j], Curr(k + 1))) == At(env, k)(VirtualOf(m.vars[j])) {
        assert At(env, k + 1)(m.vars[j]) == At(env, k)(VirtualOf(m.vars[j]));
      }
    }
    if StepsAt(I, s, env, k) {
      forall x | x in m.vars ensures At(env, k + 1)(x) == At(env, k)(VirtualOf(x)) {
        var j :| 0 <= j < |m.vars| && m.vars[j] == x;
        assert env(Symbol(m.vars[j], Curr(k + 1))) == Eval(I, GetExpr(s.next(k)[j], Curr(0 + k)), env);
      }
    }
  }

  lemma {:induction false} MonoSplits(I: Interp, m: Model, env: Env, len: nat)
    requires WfModel(m)
    ensures WfSystem(SystemOf(m))
    ensures Sat(I, env, AssnCstr(SystemOf(m), len, 0)) <==>
              UserHolds(I, m, env, len) && forall k: nat :: k < len ==> FrameOk(I, m, env, k)
  {
    var s := SystemOf(m);
    AssnSplits(I, s, env, len);
    SatAt(I, env, m.glob + m.step(len), len);
    AllFramesSplit(I, m, env, len);
    assert UserPreds(m, len, len) == m.glob + m.step(len);
  }

  lemma {:induction false} AllFramesSplit(I: Interp, m: Model, env: Env, len: nat)
    requires WfModel(m)
    ensures var s := SystemOf(m);
      (forall k: nat :: k < len ==> PredsAt(I, s, env, k) && StepsAt(I, s, env, k)) <==>
        forall k: nat :: k < len ==> Sat(I, At(env, k), UserPreds(m, k, len)) && FrameOk(I, m, env, k)
  {
    var s := SystemOf(m);
    forall k: nat | k < len
      ensures PredsAt(I, s, env, k) && StepsAt(I, s, env, k) <==>
                Sat(I, At(env, k), UserPreds(m, k, len)) && FrameOk(I, m, env, k)
    {
      FrameSplits(I, m, env, len, k);
    }
  }

  /** In every solution each step selects exactly one instruction or the deadlock bit; a selected
      instruction decodes and gives the next state, and deadlock means that nothing decodes and
      the state stays. */
  lemma {:induction false} MonoSelectsOne(I: Interp, m: Model, env: Env, len: nat, k: nat)
    requires WfModel(m) && Sat(I, env, AssnCstr(SystemOf(m), len, 0)) && k < len
    ensures exists c: nat :: OnlySelected(At(env, k), |m.instrs|, c) && RunStep(I, m, env, k, c)
  {
    MonoSplits(I, m, env, len);
    assert FrameOk(I, m, env, k);
    OneChoice(I, m.instrs, m.vars, At(env, k));
    var c: nat :| OnlySelected(At(env, k), |m.instrs|, c)
                  && Takes(I, m.instrs, m.vars, At(env, k), x => At(env, k)(VirtualOf(x)), c);
    assert RunStep(I, m, env, k, c);
  }

  // ----- every run is a solution -----

  /** `env'` gives every state and input the value `env` does. */
  ghost predicate SameStates(env: Env, env': Env) {
    forall x, t: nat :: UserName(x) ==> env'(Symbol(x, Curr(t))) == env(Symbol(x, Curr(t)))
  }

  lemma {:induction false} UserValue(I: Interp, e: IExpr, f: Name -> Value, g: Name -> Value)
    requires UserExpr(e) && forall x :: UserName(x) ==> f(x) == g(x)
    ensures Eval(I, e, f) == Eval(I, e, g)
  {
    match e
    case Var(x) =>
    case Lit(v) =>
    case App(op, args) =>
      forall i | 0 <= i < |args| ensures Eval(I, args[i], f) == Eval(I, args[i], g) {
        UserValue(I, args[i], f, g);
      }
      assert seq(|args|, i requires 0 <= i < |args| => Eval(I, args[i], f))
          == seq(|args|, i requires 0 <= i < |args| => Eval(I, args[i], g));
  }

  lemma {:induction false} SameRun(I: Interp, m: Model, env: Env, env': Env, len: nat)
    requires WfModel(m) && SameStates(env, env')
    ensures IsRun(I, m, env, len) <==> IsRun(I, m, env', len)
  {
    forall k: nat ensures forall x :: UserName(x) ==> At(env, k)(x) == At(env', k)(x) {
    }
    forall k: nat ensures Sat(I, At(env, k), UserPreds(m, k, len)) <==> Sat(I, At(env', k), UserPreds(m, k, len)) {
      var es := UserPreds(m, k, len);
      forall i | 0 <= i < |es| ensures Eval(I, es[i], At(env, k)) == Eval(I, es[i], At(env', k)) {
        assert UserExprs(m.step(k));
        UserValue(I, es[i], At(env, k), At(env', k));
      }
    }
    forall k: nat, c: nat ensures RunStep(I, m, env, k, c) <==> RunStep(I, m, env', k, c) {
      SameStep(I, m, env, env', k, c);
    }
    forall k: nat ensures CanStep(I, m, env, k) <==> CanStep(I, m, env', k) {
    }
  }

  lemma {:induction false} SameStep(I: Interp, m: Model, env: Env, env': Env, k: nat, c: nat)
    requires WfModel(m) && SameStates(env, env')
    ensures RunStep(I, m, env, k, c) <==> RunStep(I, m, env', k, c)
  {
    forall x, t: nat | UserName(x) ensures At(env, t)(x) == At(env', t)(x) {
      assert env'(Symbol(x, Curr(t))) == env(Symbol(x, Curr(t)));
    }
    forall i | 0 <= i < |m.instrs|
      ensures Decodes(I, m.instrs[i], At(env, k)) <==> Decodes(I, m.instrs[i], At(env', k))
      ensures forall x :: x in m.vars ==> NextValue(I, m.instrs[i], x, At(env, k)) == NextValue(I, m.instrs[i], x, At(env', k))
    {
      var instr := m.instrs[i];
      assert UserInstr(instr);
      if instr.decode.Some? {
        UserValue(I, instr.decode.value, At(env, k), At(env', k));
      }
      forall x | x in m.vars ensures NextValue(I, instr, x, At(env, k)) == NextValue(I, instr, x, At(env', k)) {
        if x in instr.updates {
          UserValue(I, instr.updates[x], At(env, k), At(env', k));
        } else {
          assert UserName(x);
        }
      }
    }
    assert forall x :: x in m.vars ==> UserName(x);
  }

  ghost function Choice(I: Interp, m: Model, env: Env, k: nat): (c: nat)
    ensures CanStep(I, m, env, k) ==> RunStep(I, m, env, k, c)
  {
    if CanStep(I, m, env, k) then
      var c: nat :| RunStep(I, m, env, k, c);
      c
    else 0
  }

  /** The run with its selection bits and virtual next states filled in. */
  ghost function Annotated(I: Interp, m: Model, env: Env): Env {
    (y: Symbol) =>
      if !y.at.Curr? then env(y)
      else
        match y.x
        case State(_) => env(y)
        case Input(_) => env(y)
        case Select(i) => BoolV(i == Choice(I, m, env, y.at.t))
        case Dead => BoolV(|m.instrs| == Choice(I, m, env, y.at.t))
        case Virtual(id) => env(Symbol(State(id), Curr(y.at.t + 1)))
  }

  lemma {:induction false} AnnotatedFrame(I: Interp, m: Model, env: Env, k: nat)
    requires WfModel(m) && CanStep(I, m, env, k)
    ensures FrameOk(I, m, Annotated(I, m, env), k)
  {
    var env' := Annotated(I, m, env);
    var c := Choice(I, m, env, k);
    var f := At(env', k);
    assert SameStates(env, env');
    SameStep(I, m, env, env', k, c);
    forall x | x in m.vars ensures f(VirtualOf(x)) == At(env', k + 1)(x) {
    }
    assert OnlySelected(f, |m.instrs|, c) && Takes(I, m.instrs, m.vars, f, x => f(VirtualOf(x)), c);
    OneChoice(I, m.instrs, m.vars, f);
  }

  /** The solutions of the monolithic unrolling, seen on states and inputs, are the runs. */
  lemma {:induction false} MonoIsRuns(I: Interp, m: Model, env: Env, len: nat)
    requires WfModel(m)
    ensures IsRun(I, m, env, len) <==>
              exists env': Env :: SameStates(env, env') && Sat(I, env', AssnCstr(SystemOf(m), len, 0))
  {
    if IsRun(I, m, env, len) {
      var env' := Annotated(I, m, env);
      assert SameStates(env, env');
      SameRun(I, m, env, env', len);
      forall k: nat | k < len ensures FrameOk(I, m, env', k) {
        AnnotatedFrame(I, m, env, k);
      }
      MonoSplits(I, m, env', len);
    }
    forall env': Env | SameStates(env, env') && Sat(I, env', AssnCstr(SystemOf(m), len, 0))
      ensures IsRun(I, m, env, len)
    {
      MonoSplits(I, m, env', len);
      forall k: nat | k < len ensures CanStep(I, m, env', k) {
        MonoSelectsOne(I, m, env', len, k);
      }
      SameRun(I, m, env, env', len);
    }
  }

  // ----- the unroller object in monolithic mode -----

  /** The model an unroller object holds. */
  ghost function ModelOf(u: Unroller): Model
    reads u
    requires u.mode.Mono?
  {
    var steps := u.sPred;
    Model(u.mode.instrs, u.depVars, u.gPred, u.iPred, (i: nat) => if i in steps then steps[i] else [])
  }

  ghost predicate SameSystem(a: System, b: System) {
    && a.vars == b.vars && a.glob == b.glob && a.init == b.init
    && forall i: nat :: a.next(i) == b.next(i) && a.pred(i) == b.pred(i) && a.step(i) == b.step(i)
  }

  lemma {:induction false} SameFrames(a: System, b: System, pos: nat, n: nat)
    requires WfSystem(a) && WfSystem(b) && SameSystem(a, b)
    ensures AssnFrames(a, pos, n) == AssnFrames(b, pos, n)
  {
    if n > 0 {
      SameFrames(a, b, pos, n - 1);
      assert FramePreds(a, n - 1) == FramePreds(b, n - 1);
    }
  }

  lemma {:induction false} ObjectIsModel(u: Unroller, len: nat)
    requires u.mode.Mono? && WfModel(ModelOf(u)) && WfSystem(u.Sys()) && WfSystem(SystemOf(ModelOf(u)))
    ensures AssnCstr(u.Sys(), len, 0) == AssnCstr(SystemOf(ModelOf(u)), len, 0)
  {
    var a, b := u.Sys(), SystemOf(ModelOf(u));
    assert forall i: nat :: a.step(i) == b.step(i);
    SameFrames(a, b, 0, len);
  }

  /** From frame 0 the formula the object returns has, on states and inputs, the runs of `len` steps
      as its solutions. */
  method MonoAssn(u: Unroller, len: nat) returns (z: ZExpr)
    requires u.mode.Mono? && u.Valid(len) && WfModel(ModelOf(u))
    modifies u`vars, u`kNext, u`kPred, u`kCurr, u`kNextZ, u`kPrev, u`cstr
    ensures ModelOf(u) == old(ModelOf(u))
    ensures forall I, env :: IsRun(I, ModelOf(u), env, len) <==>
              exists env': Env :: SameStates(env, env') && Truth(Eval(I, z, env'))
  {
    ghost var m := ModelOf(u);
    z := u.UnrollAssn(len, 0);
    forall I, env ensures IsRun(I, m, env, len) <==> exists env': Env :: SameStates(env, env') && Truth(Eval(I, z, env')) {
      MonoSplits(I, m, env, len);
      ObjectIsModel(u, len);
      MonoIsRuns(I, m, env, len);
    }
  }
}
