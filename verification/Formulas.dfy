/** Expressions over named variables, with abstract operators: their value, their translation to a
    time frame, and simultaneous substitution. */
module Formulas {

  datatype Value = BoolV(b: bool) | BvV(n: int)

  datatype Op = Eq | And | Or | Not | Imply | Other(name: string)

  datatype Expr<X> = Var(x: X) | Lit(v: Value) | App(op: Op, args: seq<Expr<X>>)

  /** How the uninterpreted operators behave. */
  type Interp = (string, seq<Value>) -> Value

  predicate Truth(v: Value) {
    v == BoolV(true)
  }

  function Apply(I: Interp, op: Op, vs: seq<Value>): Value {
    match op
    case Eq => BoolV(|vs| == 2 && vs[0] == vs[1])
    case And => BoolV(|vs| == 2 && Truth(vs[0]) && Truth(vs[1]))
    case Or => BoolV(|vs| == 2 && (Truth(vs[0]) || Truth(vs[1])))
    case Not => BoolV(|vs| == 1 && !Truth(vs[0]))
    case Imply => BoolV(|vs| == 2 && (Truth(vs[0]) ==> Truth(vs[1])))
    case Other(name) => I(name, vs)
  }

  function Eval<X>(I: Interp, e: Expr<X>, env: X -> Value): Value {
    match e
    case Var(x) => env(x)
    case Lit(v) => v
    case App(op, args) => Apply(I, op, seq(|args|, i requires 0 <= i < |args| => Eval(I, args[i], env)))
  }

  /** Every element is true. */
  ghost predicate Sat<X>(I: Interp, env: X -> Value, es: seq<Expr<X>>) {
    forall i :: 0 <= i < |es| ==> Truth(Eval(I, es[i], env))
  }

  lemma {:induction false} SatAppend<X>(I: Interp, env: X -> Value, a: seq<Expr<X>>, b: seq<Expr<X>>)
    ensures Sat(I, env, a + b) <==> Sat(I, env, a) && Sat(I, env, b)
  {
    if Sat(I, env, a + b) {
      forall i | 0 <= i < |a| ensures Truth(Eval(I, a[i], env)) { assert (a + b)[i] == a[i]; }
      forall i | 0 <= i < |b| ensures Truth(Eval(I, b[i], env)) { assert (a + b)[|a| + i] == b[i]; }
    }
  }

  function True<X>(): Expr<X> { Lit(BoolV(true)) }
  function Conj<X>(a: Expr<X>, b: Expr<X>): Expr<X> { App(And, [a, b]) }
  function Disj<X>(a: Expr<X>, b: Expr<X>): Expr<X> { App(Or, [a, b]) }
  function Neg<X>(a: Expr<X>): Expr<X> { App(Not, [a]) }
  function Implies<X>(a: Expr<X>, b: Expr<X>): Expr<X> { App(Imply, [a, b]) }
  function Equal<X>(a: Expr<X>, b: Expr<X>): Expr<X> { App(Eq, [a, b]) }

  lemma {:induction false} Connectives<X>(I: Interp, env: X -> Value, a: Expr<X>, b: Expr<X>)
    ensures Truth(Eval(I, Conj(a, b), env)) <==> Truth(Eval(I, a, env)) && Truth(Eval(I, b, env))
    ensures Truth(Eval(I, Disj(a, b), env)) <==> Truth(Eval(I, a, env)) || Truth(Eval(I, b, env))
    ensures Truth(Eval(I, Neg(a), env)) <==> !Truth(Eval(I, a, env))
    ensures Truth(Eval(I, Implies(a, b), env)) <==> (Truth(Eval(I, a, env)) ==> Truth(Eval(I, b, env)))
    ensures Truth(Eval(I, Equal(a, b), env)) <==> Eval(I, a, env) == Eval(I, b, env)
  {
    assert [a, b][0] == a && [a, b][1] == b && [a][0] == a;
  }

  // ----- time frames -----

  /** State variables and inputs, and the variables the monolithic unrolling adds. */
  datatype Name = State(id: string) | Input(id: string) | Select(i: nat) | Dead | Virtual(id: string)

  datatype Suffix = Curr(t: nat) | Next(t: nat)

  datatype Symbol = Symbol(x: Name, at: Suffix)

  type IExpr = Expr<Name>
  type ZExpr = Expr<Symbol>
  type Env = Symbol -> Value

  function GetExpr(e: IExpr, s: Suffix): ZExpr {
    match e
    case Var(x) => Var(Symbol(x, s))
    case Lit(v) => Lit(v)
    case App(op, args) => App(op, seq(|args|, i requires 0 <= i < |args| => GetExpr(args[i], s)))
  }

  function GetAll(es: seq<IExpr>, s: Suffix): (r: seq<ZExpr>)
    ensures |r| == |es|
  {
    seq(|es|, i requires 0 <= i < |es| => GetExpr(es[i], s))
  }

  /** Variables as expressions. */
  function VarsAt(xs: seq<Name>, s: Suffix): (r: seq<ZExpr>)
    ensures |r| == |xs|
  {
    seq(|xs|, i requires 0 <= i < |xs| => Var(Symbol(xs[i], s)))
  }

  /** The value of an expression translated to a frame only depends on that frame. */
  lemma {:induction false} FrameValue(I: Interp, e: IExpr, s: Suffix, env: Env)
    ensures Eval(I, GetExpr(e, s), env) == Eval(I, e, x => env(Symbol(x, s)))
  {
    match e
    case Var(x) =>
    case Lit(v) =>
    case App(op, args) =>
      forall i | 0 <= i < |args|
        ensures Eval(I, GetExpr(args[i], s), env) == Eval(I, args[i], x => env(Symbol(x, s)))
      {
        FrameValue(I, args[i], s, env);
      }
      var z := GetExpr(e, s);
      assert seq(|z.args|, i requires 0 <= i < |z.args| => Eval(I, z.args[i], env))
          == seq(|args|, i requires 0 <= i < |args| => Eval(I, args[i], x => env(Symbol(x, s))));
  }

  // ----- simultaneous substitution -----

  function IndexOf<T(==)>(xs: seq<T>, x: T): (k: nat)
    ensures x in xs ==> k < |xs| && xs[k] == x
    ensures x !in xs ==> k == |xs|
  {
    if xs == [] then 0
    else if xs[0] == x then 0
    else 1 + IndexOf(xs[1..], x)
  }

  /** Replace each variable of `src` by the expression of `dst` at the same place. */
  function Substitute(z: ZExpr, src: seq<Symbol>, dst: seq<ZExpr>): ZExpr
    requires |src| == |dst|
  {
    match z
    case Var(x) => if x in src then dst[IndexOf(src, x)] else z
    case Lit(v) => z
    case App(op, args) => App(op, seq(|args|, i requires 0 <= i < |args| => Substitute(args[i], src, dst)))
  }

  /** Substitution commutes with evaluation: the replaced variables take the values of the
      expressions put in their place. */
  lemma {:induction false} SubstituteValue(I: Interp, z: ZExpr, src: seq<Symbol>, dst: seq<ZExpr>, env: Env, env': Env)
    requires |src| == |dst|
    requires forall x :: env'(x) == if x in src then Eval(I, dst[IndexOf(src, x)], env) else env(x)
    ensures Eval(I, Substitute(z, src, dst), env) == Eval(I, z, env')
  {
    match z
    case Var(x) =>
    case Lit(v) =>
    case App(op, args) =>
      forall i | 0 <= i < |args|
        ensures Eval(I, Substitute(args[i], src, dst), env) == Eval(I, args[i], env')
      {
        SubstituteValue(I, args[i], src, dst, env, env');
      }
      var y := Substitute(z, src, dst);
      assert seq(|y.args|, i requires 0 <= i < |y.args| => Eval(I, y.args[i], env))
          == seq(|args|, i requires 0 <= i < |args| => Eval(I, args[i], env'));
  }
}
