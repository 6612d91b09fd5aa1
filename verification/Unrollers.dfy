/** The unroller object: its frame loops fill and copy the vectors of expressions. */
module Unrollers {
  import opened Options
  import opened Formulas
  import opened UnrollEncodings

  datatype Instr = Instr(decode: Option<IExpr>, updates: map<Name, IExpr>)

  /** Which transition relation a frame gets: the path's instruction, or all instructions with a
      one-hot choice. */
  datatype Mode = Path(steps: seq<Instr>) | Mono(instrs: seq<Instr>)

  function UpdateOf(instr: Instr, x: Name): IExpr {
    if x in instr.updates then instr.updates[x] else Var(x)
  }

  function DecodeOf(instr: Instr): IExpr {
    match instr.decode
    case Some(d) => d
    case None => True()
  }

  /** An instruction may fire: its decode holds, or it has none. */
  predicate Decodes(I: Interp, instr: Instr, f: Name -> Value) {
    instr.decode.Some? ==> Truth(Eval(I, instr.decode.value, f))
  }

  /** The next value of a variable: its update's, or the old one if it has none. */
  function NextValue(I: Interp, instr: Instr, x: Name, f: Name -> Value): Value {
    if x in instr.updates then Eval(I, instr.updates[x], f) else f(x)
  }

  lemma {:induction false} CompletionsMean(I: Interp, instr: Instr, x: Name, f: Name -> Value)
    ensures Eval(I, UpdateOf(instr, x), f) == NextValue(I, instr, x, f)
    ensures Truth(Eval(I, DecodeOf(instr), f)) <==> Decodes(I, instr, f)
  {
  }

  function NextState(instr: Instr, vars: seq<Name>): (r: seq<IExpr>)
    ensures |r| == |vars|
  {
    seq(|vars|, i requires 0 <= i < |vars| => UpdateOf(instr, vars[i]))
  }

  function VirtualOf(x: Name): Name {
    match x
    case State(id) => Virtual(id)
    case _ => x
  }

  function Virtuals(vars: seq<Name>): (r: seq<IExpr>)
    ensures |r| == |vars|
  {
    seq(|vars|, i requires 0 <= i < |vars| => Var(VirtualOf(vars[i])))
  }

  // ----- the monolithic step predicate -----

  /** Each selected instruction decodes; the dummy selection needs every decode false. */
  function SelectDecodes(instrs: seq<Instr>, n: nat): IExpr
    requires n <= |instrs|
  {
    if n == 0 then True()
    else Conj(SelectDecodes(instrs, n - 1), Implies(Var(Select(n - 1)), DecodeOf(instrs[n - 1])))
  }

  function NoneDecodes(instrs: seq<Instr>, n: nat): IExpr
    requires n <= |instrs|
  {
    if n == 0 then True() else Conj(NoneDecodes(instrs, n - 1), Neg(DecodeOf(instrs[n - 1])))
  }

  /** Each selected instruction determines the virtual next state of `x`. */
  function SelectUpdates(instrs: seq<Instr>, x: Name, n: nat): IExpr
    requires n <= |instrs|
  {
    if n == 0 then True()
    else Conj(SelectUpdates(instrs, x, n - 1),
              Implies(Var(Select(n - 1)), Equal(Var(VirtualOf(x)), UpdateOf(instrs[n - 1], x))))
  }

  function ChoicePreds(instrs: seq<Instr>, x: Name): seq<IExpr> {
    [Conj(SelectDecodes(instrs, |instrs|), Implies(Var(Dead), NoneDecodes(instrs, |instrs|))),
     Conj(SelectUpdates(instrs, x, |instrs|), Implies(Var(Dead), Equal(Var(VirtualOf(x)), Var(x))))]
  }

  function VarPreds(instrs: seq<Instr>, vars: seq<Name>, n: nat): seq<IExpr>
    requires n <= |vars|
  {
    if n == 0 then [] else VarPreds(instrs, vars, n - 1) + ChoicePreds(instrs, vars[n - 1])
  }

  function AtLeastOne(n: nat): IExpr {
    if n == 0 then Var(Dead) else Disj(AtLeastOne(n - 1), Var(Select(n - 1)))
  }

  /** No earlier selection bit than `j` goes with bit `i`; the dead bit takes no part. */
  function NotBoth(i: nat, j: nat): IExpr {
    Disj(Neg(Var(Select(i))), Neg(Var(Select(j))))
  }

  function PairsFrom(i: nat, n: nat, acc: IExpr): IExpr {
    if n <= i + 1 then acc else Conj(PairsFrom(i, n - 1, acc), NotBoth(i, n - 1))
  }

  function AtMostOne(k: nat, n: nat): IExpr
    requires k <= n
  {
    if k == 0 then True() else PairsFrom(k - 1, n, AtMostOne(k - 1, n))
  }

  function MonoPreds(instrs: seq<Instr>, vars: seq<Name>): seq<IExpr> {
    VarPreds(instrs, vars, |vars|) + [AtLeastOne(|instrs|), AtMostOne(|instrs|, |instrs|)]
  }

  // ----- the object -----

  class Unroller {
    const mode: Mode
    const depVars: seq<Name>
    var gPred: seq<IExpr>
    var iPred: seq<IExpr>
    var sPred: map<nat, seq<IExpr>>
    var vars: seq<Name>
    var kPred: seq<IExpr>
    var kNext: seq<IExpr>
    var kPrev: seq<ZExpr>
    var kCurr: seq<Symbol>
    var kNextZ: seq<ZExpr>
    var cstr: seq<ZExpr>

    constructor (mode: Mode, depVars: seq<Name>)
      ensures this.mode == mode && this.depVars == depVars && gPred == [] && iPred == [] && sPred == map[]
    {
      this.mode, this.depVars := mode, depVars;
      gPred, iPred, sPred := [], [], map[];
      vars, kPred, kNext, kPrev, kCurr, kNextZ, cstr := [], [], [], [], [], [], [];
    }

    function StepPred(i: nat): seq<IExpr>
      reads this`sPred
    {
      if i in sPred then sPred[i] else []
    }

    function NextAt(i: nat): (r: seq<IExpr>)
      ensures |r| == |depVars|
    {
      match mode
      case Path(steps) => if i < |steps| then NextState(steps[i], depVars) else seq(|depVars|, j requires 0 <= j < |depVars| => Var(depVars[j]))
      case Mono(instrs) => Virtuals(depVars)
    }

    function PredAt(i: nat): seq<IExpr> {
      match mode
      case Path(steps) => if i < |steps| then [DecodeOf(steps[i])] else []
      case Mono(instrs) => MonoPreds(instrs, depVars)
    }

    /** The transition system the object unrolls. */
    ghost function Sys(): (m: System)
      reads this
      ensures m.vars == depVars && forall i: nat :: m.next(i) == NextAt(i) && m.pred(i) == PredAt(i)
    {
      var steps := sPred;
      System(depVars, (i: nat) => NextAt(i), (i: nat) => PredAt(i), gPred, iPred, (i: nat) => if i in steps then steps[i] else [])
    }

    /** Paths index instructions that exist and have a decode. */
    ghost predicate Valid(len: nat)
      reads this
    {
      && Distinct(depVars) && |depVars| > 0
      && (mode.Path? ==> len <= |mode.steps| && forall i :: 0 <= i < len ==> mode.steps[i].decode.Some?)
    }

    method BootStrap(pos: nat)
      modifies this`vars, this`kPred, this`kNext, this`kPrev, this`kCurr, this`kNextZ, this`cstr
      ensures vars == depVars && kPred == [] && kNext == [] && cstr == [] && kPrev == VarsAt(depVars, Curr(pos))
    {
      vars := depVars;
      kPred, kNext, kCurr, kNextZ, cstr := [], [], [], [], [];
      kPrev := [];
      for i := 0 to |vars|
        invariant vars == depVars && kPrev == VarsAt(depVars, Curr(pos))[..i]
        invariant kPred == [] && kNext == [] && cstr == []
      {
        kPrev := kPrev + [Var(Symbol(vars[i], Curr(pos)))];
      }
    }

    /** The transition of frame `idx`: rebuilt for a path, built once for the monolithic form. */
    method Transition(idx: nat, ghost len: nat)
      requires Valid(len) && idx < len && vars == depVars
      requires mode.Mono? ==> (kNext == [] && kPred == []) || (kNext == NextAt(idx) && kPred == PredAt(idx))
      modifies this`kNext, this`kPred
      ensures kNext == NextAt(idx) && kPred == PredAt(idx)
    {
      match mode
      case Path(steps) =>
        var instr := steps[idx];
        kNext := [];
        for i := 0 to |vars|
          invariant kNext == NextState(instr, depVars)[..i]
        {
          kNext := kNext + [UpdateOf(instr, vars[i])];
        }
        kPred := [instr.decode.value];
      case Mono(instrs) =>
        if kNext != [] {
          return;
        }
        MonoTransition(instrs);
    }

    method MonoTransition(instrs: seq<Instr>)
      requires vars == depVars && kNext == [] && kPred == []
      modifies this`kNext, this`kPred
      ensures kNext == Virtuals(depVars) && kPred == MonoPreds(instrs, depVars)
    {
      for v := 0 to |vars|
        invariant kNext == Virtuals(depVars)[..v] && kPred == VarPreds(instrs, depVars, v)
      {
        var x := vars[v];
        kNext := kNext + [Var(VirtualOf(x))];
        var notDec: IExpr, accDec: IExpr, accUpd: IExpr := True(), True(), True();
        for i := 0 to |instrs|
          invariant accDec == SelectDecodes(instrs, i) && notDec == NoneDecodes(instrs, i)
          invariant accUpd == SelectUpdates(instrs, x, i)
        {
          var decode := DecodeOf(instrs[i]);
          accDec := Conj(accDec, Implies(Var(Select(i)), decode));
          notDec := Conj(notDec, Neg(decode));
          accUpd := Conj(accUpd, Implies(Var(Select(i)), Equal(Var(VirtualOf(x)), UpdateOf(instrs[i], x))));
        }
        accDec := Conj(accDec, Implies(Var(Dead), notDec));
        accUpd := Conj(accUpd, Implies(Var(Dead), Equal(Var(VirtualOf(x)), Var(x))));
        kPred := kPred + [accDec];
        kPred := kPred + [accUpd];
      }
      var atLeast: IExpr := Var(Dead);
      for i := 0 to |instrs|
        invariant atLeast == AtLeastOne(i)
      {
        atLeast := Disj(atLeast, Var(Select(i)));
      }
      kPred := kPred + [atLeast];
      var atMost: IExpr := True();
      for i := 0 to |instrs|
        invariant atMost == AtMostOne(i, |instrs|)
      {
        for j := i + 1 to |instrs|
          invariant atMost == PairsFrom(i, j, AtMostOne(i, |instrs|))
        {
          atMost := Conj(atMost, NotBoth(i, j));
        }
      }
      kPred := kPred + [atMost];
    }

    // ----- helpers over vectors -----

    method AssertEqual(a: seq<ZExpr>, s: Suffix)
      requires vars == depVars && |a| == |vars|
      modifies this`cstr
      ensures cstr == old(cstr) + Equalities(a, depVars, s)
    {
      for i := 0 to |a|
        invariant cstr == old(cstr) + Equalities(a, depVars, s)[..i]
      {
        cstr := cstr + [Equal(a[i], Var(Symbol(vars[i], s)))];
      }
    }

    method AddExprs(es: seq<IExpr>, s: Suffix)
      modifies this`cstr
      ensures cstr == old(cstr) + GetAll(es, s)
    {
      for i := 0 to |es|
        invariant cstr == old(cstr) + GetAll(es, s)[..i]
      {
        cstr := cstr + [GetExpr(es[i], s)];
      }
    }

    /** Translate and rewrite: `kCurr` is replaced by `kPrev`. */
    method AddSubstituted(es: seq<IExpr>, s: Suffix)
      requires |kCurr| == |kPrev|
      modifies this`cstr
      ensures cstr == old(cstr) + SubstituteAll(GetAll(es, s), kCurr, kPrev)
    {
      for i := 0 to |es|
        invariant cstr == old(cstr) + SubstituteAll(GetAll(es, s), kCurr, kPrev)[..i]
      {
        cstr := cstr + [Substitute(GetExpr(es[i], s), kCurr, kPrev)];
      }
    }

    /** The next state in terms of the first one; then it becomes the previous state. */
    method AdvancePrev(s: Suffix)
      requires |kCurr| == |kPrev|
      modifies this`kNextZ, this`kPrev
      ensures kPrev == kNextZ == SubstituteAll(GetAll(kNext, s), kCurr, old(kPrev))
    {
      kNextZ := [];
      for i := 0 to |kNext|
        invariant kPrev == old(kPrev)
        invariant kNextZ == SubstituteAll(GetAll(kNext, s), kCurr, kPrev)[..i]
      {
        kNextZ := kNextZ + [Substitute(GetExpr(kNext[i], s), kCurr, kPrev)];
      }
      kPrev := [];
      for i := 0 to |kNextZ|
        invariant kNextZ == SubstituteAll(GetAll(kNext, s), kCurr, old(kPrev)) && kPrev == kNextZ[..i]
      {
        kPrev := kPrev + [kNextZ[i]];
      }
    }

    method SetCurr(s: Suffix)
      requires vars == depVars
      modifies this`kCurr
      ensures kCurr == Symbols(depVars, s)
    {
      kCurr := [];
      for j := 0 to |vars|
        invariant kCurr == Symbols(depVars, s)[..j]
      {
        kCurr := kCurr + [Symbol(vars[j], s)];
      }
    }

    method TranslateNext(s: Suffix)
      modifies this`kNextZ
      ensures kNextZ == GetAll(kNext, s)
    {
      kNextZ := [];
      for i := 0 to |kNext|
        invariant kNextZ == GetAll(kNext, s)[..i]
      {
        kNextZ := kNextZ + [GetExpr(kNext[i], s)];
      }
    }

    method ConjPred() returns (z: ZExpr)
      ensures forall I, env :: Truth(Eval(I, z, env)) <==> Sat(I, env, cstr)
    {
      z := True();
      for i := 0 to |cstr|
        invariant forall I, env :: Truth(Eval(I, z, env)) <==> Sat(I, env, cstr[..i])
      {
        forall I, env: Env ensures Truth(Eval(I, Conj(z, cstr[i]), env)) <==> Sat(I, env, cstr[..i + 1]) {
          Connectives(I, env, z, cstr[i]);
          assert cstr[..i + 1] == cstr[..i] + [cstr[i]];
          SatAppend(I, env, cstr[..i], [cstr[i]]);
          assert Sat(I, env, [cstr[i]]) <==> Truth(Eval(I, [cstr[i]][0], env));
        }
        z := Conj(z, cstr[i]);
      }
      assert cstr[..|cstr|] == cstr;
    }

    // ----- the frame loops -----

    /** Everything a frame loop leaves alone, and the table the transition relation needs. */
    ghost predicate Ready(i: nat, len: nat)
      reads this
    {
      && Valid(len) && vars == depVars
      && (mode.Mono? ==> (kNext == [] && kPred == []) || (kNext == NextAt(i) && kPred == PredAt(i)))
    }

    /** Initial, global, step and external predicates of frame `i`, rewritten in that order. */
    method SubsPreds(first: seq<IExpr>, last: seq<IExpr>, s: Suffix)
      requires |kCurr| == |kPrev|
      modifies this`cstr
      ensures cstr == old(cstr) + SubstituteAll(GetAll(first + gPred + kPred + last, s), kCurr, kPrev)
    {
      SubstitutedParts(first, gPred, kPred, last, s, kCurr, kPrev);
      ghost var a, b := SubstituteAll(GetAll(first, s), kCurr, kPrev), SubstituteAll(GetAll(gPred, s), kCurr, kPrev);
      ghost var c, d := SubstituteAll(GetAll(kPred, s), kCurr, kPrev), SubstituteAll(GetAll(last, s), kCurr, kPrev);
      AddSubstituted(first, s);
      AddSubstituted(gPred, s);
      AddSubstituted(kPred, s);
      AddSubstituted(last, s);
      assert cstr == old(cstr) + a + b + c + d == old(cstr) + (a + b + c + d);
    }

    method SubsStep(i: nat, pos: nat, ghost len: nat)
      requires Ready(i, len) && i < len && kPrev == Prev(Sys(), pos, i)
      modifies this`kNext, this`kPred, this`kCurr, this`kNextZ, this`kPrev, this`cstr
      ensures Sys() == old(Sys()) && Ready(i + 1, len) && kPrev == Prev(Sys(), pos, i + 1)
      ensures cstr == old(cstr) + SubsFrame(Sys(), pos, i)
    {
      var s := Curr(pos + i);
      Transition(i, len);
      SetCurr(s);
      SubsPreds(if i == 0 then iPred else [], StepPred(i), s);
      AdvancePrev(s);
    }

    /** Global and external predicates of the end frame. */
    method AddEnd(len: nat)
      modifies this`cstr
      ensures Sys() == old(Sys()) && cstr == old(cstr) + EndFrame(Sys(), len)
    {
      AddExprs(gPred, Curr(len));
      AddExprs(StepPred(len), Curr(len));
    }

    method UnrollSubs(len: nat, pos: nat) returns (z: ZExpr)
      requires Valid(len)
      modifies this`vars, this`kNext, this`kPred, this`kCurr, this`kNextZ, this`kPrev, this`cstr
      ensures Sys() == old(Sys()) && WfSystem(Sys())
      ensures forall I, env :: Truth(Eval(I, z, env)) <==> Sat(I, env, SubsCstr(Sys(), len, pos))
    {
      ghost var m := Sys();
      BootStrap(pos);
      for i := 0 to len
        invariant Ready(i, len) && Sys() == m && kPrev == Prev(m, pos, i) && cstr == SubsFrames(m, pos, i)
      {
        SubsStep(i, pos, len);
      }
      AssertEqual(kPrev, Curr(len));
      AddEnd(len);
      assert cstr == SubsCstr(m, len, pos);
      z := ConjPred();
    }

    /** A linked frame: its predicates, then next state equal to the variables at `next`. */
    method LinkStep(i: nat, pos: nat, next: Suffix, ghost len: nat, stepFirst: bool)
      requires Ready(i, len) && i < len
      modifies this`kNext, this`kPred, this`kNextZ, this`cstr
      ensures Sys() == old(Sys()) && WfSystem(Sys()) && Ready(i + 1, len)
      ensures forall I, env: Env ::
                Sat(I, env, cstr) <==> Sat(I, env, old(cstr)) && Sat(I, env, LinkFrame(Sys(), pos, i, next))
    {
      ghost var m, before := Sys(), cstr;
      var s := Curr(pos + i);
      Transition(i, len);
      var first := if i == 0 then iPred else [];
      var middle := if stepFirst then StepPred(i) + kPred else kPred + StepPred(i);
      AddExprs(first, s);
      AddExprs(gPred, s);
      AddExprs(middle, s);
      TranslateNext(s);
      AssertEqual(kNextZ, next);
      forall I, env: Env
        ensures Sat(I, env, cstr) <==> Sat(I, env, before) && Sat(I, env, LinkFrame(m, pos, i, next))
      {
        var eqs := Equalities(kNextZ, depVars, next);
        SatAppend(I, env, before + GetAll(first, s) + GetAll(gPred, s) + GetAll(middle, s), eqs);
        SatAppend(I, env, before + GetAll(first, s) + GetAll(gPred, s), GetAll(middle, s));
        SatAppend(I, env, before + GetAll(first, s), GetAll(gPred, s));
        SatAppend(I, env, before, GetAll(first, s));
        SatAppend(I, env, GetAll(FramePreds(m, i), s), eqs);
        FramePredsSat(I, env, m, i, s);
        SatGetAllAppend(I, env, if stepFirst then StepPred(i) else kPred, if stepFirst then kPred else StepPred(i), s);
      }
    }

    method UnrollAssn(len: nat, pos: nat) returns (z: ZExpr)
      requires Valid(len)
      modifies this`vars, this`kNext, this`kPred, this`kCurr, this`kNextZ, this`kPrev, this`cstr
      ensures Sys() == old(Sys()) && WfSystem(Sys())
      ensures forall I, env :: Truth(Eval(I, z, env)) <==> Sat(I, env, AssnCstr(Sys(), len, pos))
    {
      ghost var m := Sys();
      BootStrap(pos);
      for i := 0 to len
        invariant Ready(i, len) && Sys() == m
        invariant forall I, env: Env :: Sat(I, env, cstr) <==> Sat(I, env, AssnFrames(m, pos, i))
      {
        LinkStep(i, pos, Curr(pos + i + 1), len, true);
        forall I, env: Env
          ensures Sat(I, env, AssnFrames(m, pos, i + 1)) <==>
                    Sat(I, env, AssnFrames(m, pos, i)) && Sat(I, env, LinkFrame(m, pos, i, Curr(pos + i + 1)))
        {
          SatAppend(I, env, AssnFrames(m, pos, i), LinkFrame(m, pos, i, Curr(pos + i + 1)));
        }
      }
      ghost var frames := cstr;
      AddEnd(len);
      forall I, env: Env ensures Sat(I, env, cstr) <==> Sat(I, env, AssnCstr(m, len, pos)) {
        SatAppend(I, env, frames, EndFrame(m, len));
        SatAppend(I, env, AssnFrames(m, pos, len), EndFrame(m, len));
      }
      z := ConjPred();
    }

    method UnrollNone(len: nat, pos: nat) returns (z: ZExpr)
      requires Valid(len)
      modifies this`vars, this`kNext, this`kPred, this`kCurr, this`kNextZ, this`kPrev, this`cstr
      ensures Sys() == old(Sys()) && WfSystem(Sys())
      ensures forall I, env :: Truth(Eval(I, z, env)) <==> Sat(I, env, NoneCstr(Sys(), len, pos))
    {
      ghost var m := Sys();
      BootStrap(pos);
      for i := 0 to len
        invariant Ready(i, len) && Sys() == m
        invariant forall I, env: Env :: Sat(I, env, cstr) <==> Sat(I, env, NoneCstr(m, i, pos))
      {
        LinkStep(i, pos, Next(pos + i), len, false);
        forall I, env: Env
          ensures Sat(I, env, NoneCstr(m, i + 1, pos)) <==>
                    Sat(I, env, NoneCstr(m, i, pos)) && Sat(I, env, LinkFrame(m, pos, i, Next(pos + i)))
        {
          SatAppend(I, env, NoneCstr(m, i, pos), LinkFrame(m, pos, i, Next(pos + i)));
        }
      }
      z := ConjPred();
    }
  }

  lemma {:induction false} SubstitutedAppend(a: seq<IExpr>, b: seq<IExpr>, s: Suffix, src: seq<Symbol>, dst: seq<ZExpr>)
    requires |src| == |dst|
    ensures SubstituteAll(GetAll(a + b, s), src, dst)
         == SubstituteAll(GetAll(a, s), src, dst) + SubstituteAll(GetAll(b, s), src, dst)
  {
    assert GetAll(a + b, s) == GetAll(a, s) + GetAll(b, s);
  }

  lemma {:induction false} SubstitutedParts(a: seq<IExpr>, b: seq<IExpr>, c: seq<IExpr>, d: seq<IExpr>, s: Suffix, src: seq<Symbol>, dst: seq<ZExpr>)
    requires |src| == |dst|
    ensures SubstituteAll(GetAll(a + b + c + d, s), src, dst)
         == SubstituteAll(GetAll(a, s), src, dst) + SubstituteAll(GetAll(b, s), src, dst)
            + SubstituteAll(GetAll(c, s), src, dst) + SubstituteAll(GetAll(d, s), src, dst)
  {
    SubstitutedAppend(a + b + c, d, s, src, dst);
    SubstitutedAppend(a + b, c, s, src, dst);
    SubstitutedAppend(a, b, s, src, dst);
  }

  lemma {:induction false} SatGetAllAppend(I: Interp, env: Env, a: seq<IExpr>, b: seq<IExpr>, s: Suffix)
    ensures Sat(I, env, GetAll(a + b, s)) <==> Sat(I, env, GetAll(a, s)) && Sat(I, env, GetAll(b, s))
  {
    assert GetAll(a + b, s) == GetAll(a, s) + GetAll(b, s);
    SatAppend(I, env, GetAll(a, s), GetAll(b, s));
  }

  lemma {:induction false} FramePredsSat(I: Interp, env: Env, m: System, i: nat, s: Suffix)
    ensures Sat(I, env, GetAll(FramePreds(m, i), s)) <==>
              Sat(I, env, GetAll(if i == 0 then m.init else [], s)) && Sat(I, env, GetAll(m.glob, s))
              && Sat(I, env, GetAll(m.pred(i), s)) && Sat(I, env, GetAll(m.step(i), s))
  {
    var first := if i == 0 then m.init else [];
    SatGetAllAppend(I, env, first + m.glob + m.pred(i), m.step(i), s);
    SatGetAllAppend(I, env, first + m.glob, m.pred(i), s);
    SatGetAllAppend(I, env, first, m.glob, s);
  }
}
