/** The three encodings of a path: next states substituted, linked by equalities, and left open.
    `vars` are the state variables; everything else in an expression is free in each frame. */
module UnrollEncodings {
  import opened Formulas

  datatype System = System(
    vars: seq<Name>,
    next: nat -> seq<IExpr>,
    pred: nat -> seq<IExpr>,
    glob: seq<IExpr>,
    init: seq<IExpr>,
    step: nat -> seq<IExpr>)

  ghost predicate WfSystem(m: System) {
    && Distinct(m.vars)
    && forall i: nat :: |m.next(i)| == |m.vars|
  }

  function Symbols(xs: seq<Name>, s: Suffix): (r: seq<Symbol>)
    ensures |r| == |xs|
  {
    seq(|xs|, i requires 0 <= i < |xs| => Symbol(xs[i], s))
  }

  function SubstituteAll(zs: seq<ZExpr>, src: seq<Symbol>, dst: seq<ZExpr>): (r: seq<ZExpr>)
    requires |src| == |dst|
    ensures |r| == |zs|
  {
    seq(|zs|, i requires 0 <= i < |zs| => Substitute(zs[i], src, dst))
  }

  /** Each expression equals the variable at the same place. */
  function Equalities(a: seq<ZExpr>, xs: seq<Name>, s: Suffix): (r: seq<ZExpr>)
    requires |a| == |xs|
    ensures |r| == |a|
  {
    seq(|a|, i requires 0 <= i < |a| => Equal(a[i], Var(Symbol(xs[i], s))))
  }

  // ----- the constraint lists, frame by frame -----

  function FramePreds(m: System, i: nat): seq<IExpr> {
    (if i == 0 then m.init else []) + m.glob + m.pred(i) + m.step(i)
  }

  /** The state after `i` steps as expressions over the first state and the inputs. */
  ghost function Prev(m: System, pos: nat, i: nat): (r: seq<ZExpr>)
    requires WfSystem(m)
    ensures |r| == |m.vars|
  {
    if i == 0 then VarsAt(m.vars, Curr(pos))
    else SubstituteAll(GetAll(m.next(i - 1), Curr(pos + i - 1)), Symbols(m.vars, Curr(pos + i - 1)), Prev(m, pos, i - 1))
  }

  ghost function SubsFrame(m: System, pos: nat, i: nat): seq<ZExpr>
    requires WfSystem(m)
  {
    SubstituteAll(GetAll(FramePreds(m, i), Curr(pos + i)), Symbols(m.vars, Curr(pos + i)), Prev(m, pos, i))
  }

  ghost function SubsFrames(m: System, pos: nat, n: nat): seq<ZExpr>
    requires WfSystem(m)
  {
    if n == 0 then [] else SubsFrames(m, pos, n - 1) + SubsFrame(m, pos, n - 1)
  }

  /** The predicates of the end frame, whose suffix does not include `pos`. */
  function EndFrame(m: System, len: nat): seq<ZExpr> {
    GetAll(m.glob + m.step(len), Curr(len))
  }

  ghost function SubsCstr(m: System, len: nat, pos: nat): seq<ZExpr>
    requires WfSystem(m)
  {
    SubsFrames(m, pos, len) + Equalities(Prev(m, pos, len), m.vars, Curr(len)) + EndFrame(m, len)
  }

  ghost function LinkFrame(m: System, pos: nat, i: nat, next: Suffix): seq<ZExpr>
    requires WfSystem(m)
  {
    GetAll(FramePreds(m, i), Curr(pos + i)) + Equalities(GetAll(m.next(i), Curr(pos + i)), m.vars, next)
  }

  ghost function AssnFrames(m: System, pos: nat, n: nat): seq<ZExpr>
    requires WfSystem(m)
  {
    if n == 0 then [] else AssnFrames(m, pos, n - 1) + LinkFrame(m, pos, n - 1, Curr(pos + n))
  }

  ghost function AssnCstr(m: System, len: nat, pos: nat): seq<ZExpr>
    requires WfSystem(m)
  {
    AssnFrames(m, pos, len) + EndFrame(m, len)
  }

  ghost function NoneCstr(m: System, len: nat, pos: nat): seq<ZExpr>
    requires WfSystem(m)
  {
    if len == 0 then [] else NoneCstr(m, len - 1, pos) + LinkFrame(m, pos, len - 1, Next(pos + len - 1))
  }

  // ----- what the encodings say -----

  ghost predicate PredsHold(I: Interp, m: System, env: Env, pos: nat, i: nat) {
    Sat(I, env, GetAll(FramePreds(m, i), Curr(pos + i)))
  }

  /** The variables at `next` hold the next state of frame `i`. */
  ghost predicate Steps(I: Interp, m: System, env: Env, pos: nat, i: nat, next: Suffix)
    requires WfSystem(m)
  {
    forall j :: 0 <= j < |m.vars| ==> env(Symbol(m.vars[j], next)) == Eval(I, GetExpr(m.next(i)[j], Curr(pos + i)), env)
  }

  ghost predicate AssnStep(I: Interp, m: System, env: Env, pos: nat, i: nat)
    requires WfSystem(m)
  {
    Sat(I, env, LinkFrame(m, pos, i, Curr(pos + i + 1)))
  }

  ghost predicate NoneStep(I: Interp, m: System, env: Env, pos: nat, i: nat)
    requires WfSystem(m)
  {
    Sat(I, env, LinkFrame(m, pos, i, Next(pos + i)))
  }

  lemma {:induction false} EqualitiesMean(I: Interp, env: Env, a: seq<ZExpr>, xs: seq<Name>, s: Suffix)
    requires |a| == |xs|
    ensures Sat(I, env, Equalities(a, xs, s)) <==> forall j :: 0 <= j < |a| ==> Eval(I, a[j], env) == env(Symbol(xs[j], s))
  {
    forall j | 0 <= j < |a|
      ensures Truth(Eval(I, Equalities(a, xs, s)[j], env)) <==> Eval(I, a[j], env) == env(Symbol(xs[j], s))
    {
      Connectives(I, env, a[j], Var(Symbol(xs[j], s)));
    }
  }

  lemma {:induction false} LinkFrameMeans(I: Interp, m: System, env: Env, pos: nat, i: nat, next: Suffix)
    requires WfSystem(m)
    ensures Sat(I, env, LinkFrame(m, pos, i, next)) <==> PredsHold(I, m, env, pos, i) && Steps(I, m, env, pos, i, next)
  {
    var step := GetAll(m.next(i), Curr(pos + i));
    SatAppend(I, env, GetAll(FramePreds(m, i), Curr(pos + i)), Equalities(step, m.vars, next));
    EqualitiesMean(I, env, step, m.vars, next);
  }

  lemma {:induction false} AssnFramesMean(I: Interp, m: System, env: Env, pos: nat, n: nat)
    requires WfSystem(m)
    ensures Sat(I, env, AssnFrames(m, pos, n)) <==>
              forall i: nat :: i < n ==> AssnStep(I, m, env, pos, i)
  {
    if n > 0 {
      AssnFramesMean(I, m, env, pos, n - 1);
      SatAppend(I, env, AssnFrames(m, pos, n - 1), LinkFrame(m, pos, n - 1, Curr(pos + n)));
      assert AssnStep(I, m, env, pos, n - 1) <==> Sat(I, env, LinkFrame(m, pos, n - 1, Curr(pos + n)));
    }
  }

  lemma {:induction false} NoneMeans(I: Interp, m: System, env: Env, n: nat, pos: nat)
    requires WfSystem(m)
    ensures Sat(I, env, NoneCstr(m, n, pos)) <==>
              forall i: nat :: i < n ==> NoneStep(I, m, env, pos, i)
  {
    if n > 0 {
      NoneMeans(I, m, env, n - 1, pos);
      SatAppend(I, env, NoneCstr(m, n - 1, pos), LinkFrame(m, pos, n - 1, Next(pos + n - 1)));
      assert NoneStep(I, m, env, pos, n - 1) <==> Sat(I, env, LinkFrame(m, pos, n - 1, Next(pos + n - 1)));
    }
  }

  /** The links an unlinked unrolling leaves to its caller. */
  ghost predicate Linked(m: System, env: Env, len: nat, pos: nat) {
    forall i: nat :: pos <= i < pos + len ==> LinkedAt(m, env, i)
  }

  ghost predicate LinkedAt(m: System, env: Env, i: nat) {
    forall x :: x in m.vars ==> env(Symbol(x, Next(i))) == env(Symbol(x, Curr(i + 1)))
  }

  /** The unlinked encoding with the links and the end frame added is the linked encoding. */
  lemma {:induction false} NoneIsAssn(I: Interp, m: System, env: Env, len: nat, pos: nat)
    requires WfSystem(m) && Linked(m, env, len, pos)
    ensures Sat(I, env, NoneCstr(m, len, pos)) && Sat(I, env, EndFrame(m, len)) <==> Sat(I, env, AssnCstr(m, len, pos))
  {
    NoneMeans(I, m, env, len, pos);
    AssnFramesMean(I, m, env, pos, len);
    SatAppend(I, env, AssnFrames(m, pos, len), EndFrame(m, len));
    forall i: nat | i < len
      ensures NoneStep(I, m, env, pos, i) <==> AssnStep(I, m, env, pos, i)
    {
      assert LinkedAt(m, env, pos + i);
      LinkFrameMeans(I, m, env, pos, i, Next(pos + i));
      LinkFrameMeans(I, m, env, pos, i, Curr(pos + i + 1));
      forall j | 0 <= j < |m.vars|
        ensures env(Symbol(m.vars[j], Next(pos + i))) == env(Symbol(m.vars[j], Curr(pos + i + 1)))
      {
      }
    }
  }

  // ----- substitution against assignment -----

  /** `env'` agrees with `env` on frame `f`, but for the state variables, which take the values
      of the expressions put in their place. */
  ghost predicate Matches(I: Interp, xs: seq<Name>, prev: seq<ZExpr>, env: Env, env': Env, f: nat)
    requires |xs| == |prev|
  {
    forall x :: env'(Symbol(x, Curr(f))) ==
      if x in xs then Eval(I, prev[IndexOf(xs, x)], env) else env(Symbol(x, Curr(f)))
  }

  ghost predicate Distinct(xs: seq<Name>) {
    forall i, j :: 0 <= i < j < |xs| ==> xs[i] != xs[j]
  }

  lemma {:induction false} SymbolsOf(xs: seq<Name>, s: Suffix, x: Name)
    requires Distinct(xs)
    ensures Symbol(x, s) in Symbols(xs, s) <==> x in xs
    ensures x in xs ==> IndexOf(Symbols(xs, s), Symbol(x, s)) == IndexOf(xs, x)
  {
    var src := Symbols(xs, s);
    if x in xs { assert src[IndexOf(xs, x)] == Symbol(x, s); }
    if Symbol(x, s) in src {
      assert src[IndexOf(src, Symbol(x, s))] == Symbol(x, s);
      assert xs[IndexOf(src, Symbol(x, s))] == x;
    }
  }

  /** A frame's expression, its state variables replaced, has the value it has under `env'`. */
  lemma {:induction false} FrameSubstitution(I: Interp, xs: seq<Name>, prev: seq<ZExpr>, env: Env, env': Env, f: nat, e: IExpr)
    requires Distinct(xs) && |xs| == |prev| && Matches(I, xs, prev, env, env', f)
    ensures Eval(I, Substitute(GetExpr(e, Curr(f)), Symbols(xs, Curr(f)), prev), env) == Eval(I, GetExpr(e, Curr(f)), env')
  {
    var s := Curr(f);
    var src := Symbols(xs, s);
    var mid: Env := y => if y in src then Eval(I, prev[IndexOf(src, y)], env) else env(y);
    SubstituteValue(I, GetExpr(e, s), src, prev, env, mid);
    forall x ensures mid(Symbol(x, s)) == env'(Symbol(x, s)) {
      SymbolsOf(xs, s, x);
    }
    FrameValue(I, e, s, mid);
    FrameValue(I, e, s, env');
    SameOnNames(I, e, (x: Name) => mid(Symbol(x, s)), (x: Name) => env'(Symbol(x, s)));
  }

  lemma {:induction false} SameOnNames(I: Interp, e: IExpr, f: Name -> Value, g: Name -> Value)
    requires forall x :: f(x) == g(x)
    ensures Eval(I, e, f) == Eval(I, e, g)
  {
    match e
    case Var(x) =>
    case Lit(v) =>
    case App(op, args) =>
      forall i | 0 <= i < |args| ensures Eval(I, args[i], f) == Eval(I, args[i], g) {
        SameOnNames(I, args[i], f, g);
      }
      assert seq(|args|, i requires 0 <= i < |args| => Eval(I, args[i], f))
          == seq(|args|, i requires 0 <= i < |args| => Eval(I, args[i], g));
  }

  lemma {:induction false} FrameListValue(I: Interp, xs: seq<Name>, prev: seq<ZExpr>, env: Env, env': Env, f: nat, es: seq<IExpr>)
    requires Distinct(xs) && |xs| == |prev| && Matches(I, xs, prev, env, env', f)
    ensures forall k :: 0 <= k < |es| ==>
              Eval(I, SubstituteAll(GetAll(es, Curr(f)), Symbols(xs, Curr(f)), prev)[k], env) == Eval(I, GetExpr(es[k], Curr(f)), env')
    ensures Sat(I, env, SubstituteAll(GetAll(es, Curr(f)), Symbols(xs, Curr(f)), prev)) <==> Sat(I, env', GetAll(es, Curr(f)))
  {
    var zs := GetAll(es, Curr(f));
    var subst := SubstituteAll(zs, Symbols(xs, Curr(f)), prev);
    forall k | 0 <= k < |es| ensures Eval(I, subst[k], env) == Eval(I, zs[k], env') {
      FrameSubstitution(I, xs, prev, env, env', f, es[k]);
    }
  }

  ghost predicate MatchesAt(I: Interp, m: System, env: Env, env': Env, i: nat)
    requires WfSystem(m)
  {
    Matches(I, m.vars, Prev(m, 0, i), env, env', i)
  }

  ghost predicate PredsAt(I: Interp, m: System, env: Env, i: nat) {
    Sat(I, env, GetAll(FramePreds(m, i), Curr(i)))
  }

  ghost predicate StepsAt(I: Interp, m: System, env: Env, i: nat)
    requires WfSystem(m)
  {
    Steps(I, m, env, 0, i, Curr(i + 1))
  }

  /** The substituted encoding of frame `i` under `env` is the frame itself under `env'`. */
  lemma {:induction false} SubsFrameMeans(I: Interp, m: System, env: Env, env': Env, i: nat)
    requires WfSystem(m) && MatchesAt(I, m, env, env', i)
    ensures Sat(I, env, SubsFrame(m, 0, i)) <==> PredsAt(I, m, env', i)
    ensures forall j :: 0 <= j < |m.vars| ==>
              Eval(I, Prev(m, 0, i + 1)[j], env) == Eval(I, GetExpr(m.next(i)[j], Curr(i)), env')
  {
    FrameListValue(I, m.vars, Prev(m, 0, i), env, env', i, FramePreds(m, i));
    FrameListValue(I, m.vars, Prev(m, 0, i), env, env', i, m.next(i));
  }

  lemma {:induction false} SubsFramesMean(I: Interp, m: System, env: Env, env': Env, n: nat)
    requires WfSystem(m) && forall i: nat :: i < n ==> MatchesAt(I, m, env, env', i)
    ensures Sat(I, env, SubsFrames(m, 0, n)) <==> forall i: nat :: i < n ==> PredsAt(I, m, env', i)
  {
    if n > 0 {
      SubsFramesMean(I, m, env, env', n - 1);
      OneMoreFrame(I, m, env, env', n);
    }
  }

  lemma {:induction false} OneMoreFrame(I: Interp, m: System, env: Env, env': Env, n: nat)
    requires WfSystem(m) && 0 < n && MatchesAt(I, m, env, env', n - 1)
    ensures Sat(I, env, SubsFrames(m, 0, n)) <==> Sat(I, env, SubsFrames(m, 0, n - 1)) && PredsAt(I, m, env', n - 1)
  {
    SatAppend(I, env, SubsFrames(m, 0, n - 1), SubsFrame(m, 0, n - 1));
    SubsFrameMeans(I, m, env, env', n - 1);
  }

  /** `env'` differs from `env` only in the state variables of the frames strictly between. */
  ghost predicate SameEnds(m: System, env: Env, env': Env, len: nat) {
    forall y: Symbol :: env'(y) == env(y) || (y.x in m.vars && y.at.Curr? && 0 < y.at.t < len)
  }

  lemma {:induction false} MatchesFirst(I: Interp, m: System, env: Env, env': Env, len: nat)
    requires WfSystem(m) && SameEnds(m, env, env', len)
    ensures MatchesAt(I, m, env, env', 0)
  {
    forall x ensures env'(Symbol(x, Curr(0))) ==
      if x in m.vars then Eval(I, Prev(m, 0, 0)[IndexOf(m.vars, x)], env) else env(Symbol(x, Curr(0)))
    {
      var y := Symbol(x, Curr(0));
      assert env'(y) == env(y);
    }
  }

  lemma {:induction false} MatchesNext(I: Interp, m: System, env: Env, env': Env, len: nat, i: nat)
    requires WfSystem(m) && SameEnds(m, env, env', len) && MatchesAt(I, m, env, env', i)
    requires StepsAt(I, m, env', i)
    ensures MatchesAt(I, m, env, env', i + 1)
  {
    SubsFrameMeans(I, m, env, env', i);
    var prev := Prev(m, 0, i + 1);
    forall x ensures env'(Symbol(x, Curr(i + 1))) ==
      if x in m.vars then Eval(I, prev[IndexOf(m.vars, x)], env) else env(Symbol(x, Curr(i + 1)))
    {
      var y := Symbol(x, Curr(i + 1));
      assert env'(y) == env(y) || y.x in m.vars;
      if x in m.vars {
        var j := IndexOf(m.vars, x);
        assert env'(Symbol(m.vars[j], Curr(i + 1))) == Eval(I, GetExpr(m.next(i)[j], Curr(0 + i)), env');
      }
    }
  }

  /** If every frame before `i` steps to the next under `env'`, the frames up to `i` match. */
  lemma {:induction false} StepsMatch(I: Interp, m: System, env: Env, env': Env, len: nat, i: nat)
    requires WfSystem(m) && SameEnds(m, env, env', len)
    requires forall j: nat :: j < i ==> StepsAt(I, m, env', j)
    ensures forall j: nat :: j <= i ==> MatchesAt(I, m, env, env', j)
  {
    if i == 0 {
      MatchesFirst(I, m, env, env', len);
    } else {
      StepsMatch(I, m, env, env', len, i - 1);
      MatchesNext(I, m, env, env', len, i - 1);
    }
  }

  lemma {:induction false} EndFrameMeans(I: Interp, m: System, env: Env, env': Env, len: nat)
    requires SameEnds(m, env, env', len)
    ensures Sat(I, env, EndFrame(m, len)) <==> Sat(I, env', EndFrame(m, len))
  {
    var es := m.glob + m.step(len);
    forall k | 0 <= k < |es| ensures Eval(I, EndFrame(m, len)[k], env) == Eval(I, EndFrame(m, len)[k], env') {
      FrameValue(I, es[k], Curr(len), env);
      FrameValue(I, es[k], Curr(len), env');
      forall x ensures env(Symbol(x, Curr(len))) == env'(Symbol(x, Curr(len))) {
        var y := Symbol(x, Curr(len));
        assert env'(y) == env(y);
      }
      SameOnNames(I, es[k], (x: Name) => env(Symbol(x, Curr(len))), (x: Name) => env'(Symbol(x, Curr(len))));
    }
  }

  /** The substituted encoding splits into frames, the last state and the end frame. */
  lemma {:induction false} SubsSplits(I: Interp, m: System, env: Env, len: nat, pos: nat)
    requires WfSystem(m)
    ensures Sat(I, env, SubsCstr(m, len, pos)) <==>
              Sat(I, env, SubsFrames(m, pos, len)) && Sat(I, env, EndFrame(m, len))
              && forall j :: 0 <= j < |m.vars| ==> Eval(I, Prev(m, pos, len)[j], env) == env(Symbol(m.vars[j], Curr(len)))
  {
    var last := Equalities(Prev(m, pos, len), m.vars, Curr(len));
    SatAppend(I, env, SubsFrames(m, pos, len) + last, EndFrame(m, len));
    SatAppend(I, env, SubsFrames(m, pos, len), last);
    EqualitiesMean(I, env, Prev(m, pos, len), m.vars, Curr(len));
  }

  /** The intermediate states a solution of the substituted encoding passes through. */
  ghost function Intermediate(I: Interp, m: System, env: Env, len: nat): Env
    requires WfSystem(m)
  {
    (y: Symbol) =>
      if y.x in m.vars && y.at.Curr? && 0 < y.at.t < len then
        Eval(I, Prev(m, 0, y.at.t)[IndexOf(m.vars, y.x)], env)
      else env(y)
  }

  lemma {:induction false} AssnGivesSubs(I: Interp, m: System, env: Env, env': Env, len: nat)
    requires WfSystem(m) && SameEnds(m, env, env', len) && Sat(I, env', AssnCstr(m, len, 0))
    ensures Sat(I, env, SubsCstr(m, len, 0))
  {
    AssnSplits(I, m, env', len);
    StepsMatch(I, m, env, env', len, len);
    SubsFramesMean(I, m, env, env', len);
    EndFrameMeans(I, m, env, env', len);
    SubsSplits(I, m, env, len, 0);
    assert MatchesAt(I, m, env, env', len);
    forall j | 0 <= j < |m.vars| ensures Eval(I, Prev(m, 0, len)[j], env) == env(Symbol(m.vars[j], Curr(len))) {
      var y := Symbol(m.vars[j], Curr(len));
      assert env'(y) == env(y) && IndexOf(m.vars, m.vars[j]) == j;
    }
  }

  /** The linked encoding splits into frames that hold and step, and the end frame. */
  lemma {:induction false} AssnSplits(I: Interp, m: System, env: Env, len: nat)
    requires WfSystem(m)
    ensures Sat(I, env, AssnCstr(m, len, 0)) <==>
              Sat(I, env, EndFrame(m, len))
              && (forall i: nat :: i < len ==> PredsAt(I, m, env, i)) && (forall i: nat :: i < len ==> StepsAt(I, m, env, i))
  {
    SatAppend(I, env, AssnFrames(m, 0, len), EndFrame(m, len));
    AssnFramesMean(I, m, env, 0, len);
    forall i: nat | i < len
      ensures AssnStep(I, m, env, 0, i) <==> PredsAt(I, m, env, i) && StepsAt(I, m, env, i)
    {
      LinkFrameMeans(I, m, env, 0, i, Curr(0 + i + 1));
      assert 0 + i == i;
    }
  }

  lemma {:induction false} IntermediateMatches(I: Interp, m: System, env: Env, len: nat, i: nat)
    requires WfSystem(m) && i <= len
    requires forall j :: 0 <= j < |m.vars| ==> Eval(I, Prev(m, 0, len)[j], env) == env(Symbol(m.vars[j], Curr(len)))
    ensures MatchesAt(I, m, env, Intermediate(I, m, env, len), i)
  {
    var env' := Intermediate(I, m, env, len);
    if i == 0 {
      MatchesFirst(I, m, env, env', len);
    } else {
      var prev := Prev(m, 0, i);
      forall x ensures env'(Symbol(x, Curr(i))) ==
        if x in m.vars then Eval(I, prev[IndexOf(m.vars, x)], env) else env(Symbol(x, Curr(i)))
      {
        if x in m.vars && i == len {
          assert m.vars[IndexOf(m.vars, x)] == x;
        }
      }
    }
  }

  lemma {:induction false} SubsGivesAssn(I: Interp, m: System, env: Env, len: nat)
    requires WfSystem(m) && Sat(I, env, SubsCstr(m, len, 0))
    ensures SameEnds(m, env, Intermediate(I, m, env, len), len)
    ensures Sat(I, Intermediate(I, m, env, len), AssnCstr(m, len, 0))
  {
    var env' := Intermediate(I, m, env, len);
    SubsSplits(I, m, env, len, 0);
    forall i: nat | i <= len ensures MatchesAt(I, m, env, env', i) {
      IntermediateMatches(I, m, env, len, i);
    }
    SubsFramesMean(I, m, env, env', len);
    forall i: nat | i < len ensures StepsAt(I, m, env', i) {
      SubsFrameMeans(I, m, env, env', i);
      assert MatchesAt(I, m, env, env', i + 1);
      forall j | 0 <= j < |m.vars|
        ensures env'(Symbol(m.vars[j], Curr(i + 1))) == Eval(I, GetExpr(m.next(i)[j], Curr(0 + i)), env')
      {
        assert IndexOf(m.vars, m.vars[j]) == j;
      }
    }
    EndFrameMeans(I, m, env, env', len);
    AssnSplits(I, m, env', len);
  }

  /** From frame 0, the substituted encoding holds of the first state, the last state and the
      inputs exactly when intermediate states exist that make the linked encoding hold. */
  lemma {:induction false} SubsIsAssn(I: Interp, m: System, env: Env, len: nat)
    requires WfSystem(m)
    ensures Sat(I, env, SubsCstr(m, len, 0)) <==>
              exists env': Env :: SameEnds(m, env, env', len) && Sat(I, env', AssnCstr(m, len, 0))
  {
    if Sat(I, env, SubsCstr(m, len, 0)) {
      SubsGivesAssn(I, m, env, len);
    }
    forall env': Env | SameEnds(m, env, env', len) && Sat(I, env', AssnCstr(m, len, 0))
      ensures Sat(I, env, SubsCstr(m, len, 0))
    {
      AssnGivesSubs(I, m, env, env', len);
    }
  }

  // ----- frames that do not start at 0 -----

  /** One variable, set to 1 by every step. */
  function SetToOne(): System {
    System([State("x")], i => [Lit(BvV(1))], i => [], [], [], i => [])
  }

  /** `env'` differs from `env` only in the state variables strictly between the end frames. */
  ghost predicate SameEndsFrom(m: System, env: Env, env': Env, pos: nat, len: nat) {
    forall y: Symbol :: env'(y) == env(y) || (y.x in m.vars && y.at.Curr? && pos < y.at.t < pos + len)
  }

  /** The substituted and the linked encoding agree on the end states of one path. */
  ghost predicate Agree(I: Interp, m: System, env: Env, len: nat, pos: nat) {
    WfSystem(m) ==>
      (Sat(I, env, SubsCstr(m, len, pos)) <==>
       exists env': Env :: SameEndsFrom(m, env, env', pos, len) && Sat(I, env', AssnCstr(m, len, pos)))
  }

  const StepToOne: Env := y => if y == Symbol(State("x"), Curr(1)) then BvV(1) else BvV(0)

  /** One step of the system to a state other than 1 does not satisfy the linked encoding. */
  lemma {:induction false} StepMissed(I: Interp, env: Env, pos: nat)
    requires env(Symbol(State("x"), Curr(pos + 1))) == BvV(0)
    ensures WfSystem(SetToOne()) && !Sat(I, env, AssnCstr(SetToOne(), 1, pos))
  {
    var m := SetToOne();
    SatAppend(I, env, AssnFrames(m, pos, 1), EndFrame(m, 1));
    AssnFramesMean(I, m, env, pos, 1);
    LinkFrameMeans(I, m, env, pos, 0, Curr(pos + 0 + 1));
    assert m.next(0)[0] == Lit(BvV(1));
    assert !Steps(I, m, env, pos, 0, Curr(pos + 0 + 1)) by {
      assert env(Symbol(m.vars[0], Curr(pos + 0 + 1))) == BvV(0);
    }
    assert !AssnStep(I, m, env, pos, 0);
  }

  /** Starting at a later frame, the substituted encoding still equates the last state with frame
      `len`, where the linked one equates it with frame `pos + len`: one step already tells them
      apart. */
  lemma {:induction false} OffsetBreaksSubs(I: Interp, pos: nat)
    requires pos > 0
    ensures WfSystem(SetToOne()) && !Agree(I, SetToOne(), StepToOne, 1, pos)
  {
    var m, env := SetToOne(), StepToOne;
    SubsSplits(I, m, env, 1, pos);
    assert SubsFrame(m, pos, 0) == [];
    assert SubsFrames(m, pos, 1) == SubsFrames(m, pos, 0) + SubsFrame(m, pos, 0);
    assert Prev(m, pos, 1)[0] == Lit(BvV(1));
    assert Sat(I, env, SubsCstr(m, 1, pos));
    forall env': Env | SameEndsFrom(m, env, env', pos, 1) ensures !Sat(I, env', AssnCstr(m, 1, pos)) {
      var y := Symbol(State("x"), Curr(pos + 1));
      assert env'(y) == env(y);
      StepMissed(I, env', pos);
    }
  }

  /** The two encodings agree on every system, path and end states exactly when the path starts at
      frame 0. */
  lemma {:induction false} AgreeOnlyFromZero(I: Interp, pos: nat)
    ensures pos == 0 <==> forall m: System, env: Env, len: nat :: Agree(I, m, env, len, pos)
  {
    if pos == 0 {
      forall m: System, env: Env, len: nat ensures Agree(I, m, env, len, 0) {
        if WfSystem(m) {
          SubsIsAssn(I, m, env, len);
          assert forall env': Env :: SameEndsFrom(m, env, env', 0, len) <==> SameEnds(m, env, env', len);
        }
      }
    } else {
      OffsetBreaksSubs(I, pos);
    }
  }
}
