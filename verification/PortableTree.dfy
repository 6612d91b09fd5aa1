/** A hierarchy written to the portable form and read back is the hierarchy again. */
module PortableTree {
  import opened Expressions
  import opened Prefixes
  import opened Portable
  import opened PortableBack

  ghost function AllVars(m: Ila): set<Expr>
    decreases m, |m.childs| + 1
  {
    Vars(m) + ChildVars(m, |m.childs|)
  }

  ghost function ChildVars(m: Ila, n: nat): set<Expr>
    requires n <= |m.childs|
    decreases m, n
  {
    set i, e | 0 <= i < n && e in AllVars(m.childs[i]) :: e
  }

  ghost function Names(m: Ila): set<string>
    decreases m, |m.childs| + 1
  {
    {m.name} + ChildNames(m, |m.childs|)
  }

  ghost function ChildNames(m: Ila, n: nat): set<string>
    requires n <= |m.childs|
    decreases m, n
  {
    set i, x | 0 <= i < n && x in Names(m.childs[i]) :: x
  }

  lemma {:induction false} ChildNamesMore(m: Ila, n: nat)
    requires n < |m.childs|
    ensures ChildNames(m, n + 1) == ChildNames(m, n) + Names(m.childs[n])
  {
  }

  ghost predicate OwnVars(m: Ila, inputs: set<Expr>, states: set<Expr>) {
    && inputs <= Elems(m.inputs) && states <= Elems(m.states) && Elems(m.inputs) !! Elems(m.states)
    && forall e :: e in m.inputs || e in m.states ==> IsVar(e)
  }

  /** A level inherits its parent's variables, declares its own, and shares with another only what
      both inherit. */
  ghost predicate WfTree(m: Ila, inputs: set<Expr>, states: set<Expr>)
    decreases m
  {
    && OwnVars(m, inputs, states)
    && (forall i :: 0 <= i < |m.childs| ==> WfTree(m.childs[i], Elems(m.inputs), Elems(m.states)))
    && (forall i :: 0 <= i < |m.childs| ==> Apart(m, i))
  }

  /** A child has no variable but inherited ones in common with earlier ones. */
  ghost predicate Apart(m: Ila, i: nat)
    requires i < |m.childs|
  {
    AllVars(m.childs[i]) * ChildVars(m, i) <= Vars(m)
  }

  /** No two levels have one name. */
  ghost predicate UniqueNames(m: Ila)
    decreases m
  {
    && m.name !in ChildNames(m, |m.childs|)
    && (forall i :: 0 <= i < |m.childs| ==> UniqueNames(m.childs[i]))
    && (forall i :: 0 <= i < |m.childs| ==> OtherName(m, i))
  }

  ghost predicate OtherName(m: Ila, i: nat)
    requires i < |m.childs|
  {
    Names(m.childs[i]) !! ChildNames(m, i)
  }

  ghost predicate LevelsOk(m: Ila, levels: map<string, Level>)
    decreases m
  {
    && m.name in levels && LevelOk(levels[m.name], Elems(m.inputs), Elems(m.states))
    && forall i :: 0 <= i < |m.childs| ==> LevelsOk(m.childs[i], levels)
  }

  ghost predicate ChildLevelsOk(m: Ila, n: nat, levels: map<string, Level>)
    requires n <= |m.childs|
  {
    forall i :: 0 <= i < n ==> LevelsOk(m.childs[i], levels)
  }

  ghost predicate Keeps(after: map<string, Level>, before: map<string, Level>) {
    forall x :: x in before ==> x in after && after[x] == before[x]
  }

  lemma {:induction false} LevelsKept(m: Ila, before: map<string, Level>, after: map<string, Level>)
    requires LevelsOk(m, before) && Keeps(after, before)
    ensures LevelsOk(m, after)
    decreases m
  {
    forall i | 0 <= i < |m.childs| ensures LevelsOk(m.childs[i], after) {
      LevelsKept(m.childs[i], before, after);
    }
  }

  lemma {:induction false} OneMoreLevel(m: Ila, n: nat, before: map<string, Level>, after: map<string, Level>)
    requires n < |m.childs| && ChildLevelsOk(m, n, before) && Keeps(after, before) && LevelsOk(m.childs[n], after)
    ensures ChildLevelsOk(m, n + 1, after)
  {
    forall i | 0 <= i < n ensures LevelsOk(m.childs[i], after) {
      LevelsKept(m.childs[i], before, after);
    }
  }

  lemma {:induction false} ChildVarsWithin(m: Ila, i: nat, n: nat)
    requires i < n <= |m.childs|
    ensures AllVars(m.childs[i]) <= ChildVars(m, n)
  {
  }

  /** A level's turn: of its variables and its children's, those it inherits are known. */
  ghost predicate Turn(m: Ila, inputs: set<Expr>, states: set<Expr>, nodes: set<Expr>, s: set<Expr>) {
    WfTree(m, inputs, states) && AllVars(m) <= nodes && AllVars(m) * s == inputs + states
  }

  ghost function KnownAt(m: Ila, i: nat, s: set<Expr>): set<Expr>
    requires i <= |m.childs|
  {
    s + Vars(m) + ChildVars(m, i)
  }

  lemma {:induction false} KnownNext(m: Ila, i: nat, s: set<Expr>)
    requires i < |m.childs|
    ensures KnownAt(m, i + 1, s) == KnownAt(m, i, s) + AllVars(m.childs[i])
  {
  }

  lemma {:induction false} ChildTurn(m: Ila, inputs: set<Expr>, states: set<Expr>, nodes: set<Expr>, i: nat, s: set<Expr>)
    requires Turn(m, inputs, states, nodes, s) && i < |m.childs|
    ensures Turn(m.childs[i], Elems(m.inputs), Elems(m.states), nodes, KnownAt(m, i, s))
  {
    ChildVarsWithin(m, i, |m.childs|);
    assert Apart(m, i);
    assert WfTree(m.childs[i], Elems(m.inputs), Elems(m.states));
    assert Vars(m) <= AllVars(m.childs[i]);
    assert AllVars(m.childs[i]) * s <= inputs + states <= Vars(m);
  }

  /** Declare the variables of a level, then those of its children. */
  method DesVarHier(des: J2IDes, j: JIla, parent: Level, arr: seq<JExpr>, ghost m: Ila, ghost inputs: set<Expr>, ghost states: set<Expr>, ghost nodes: seq<Expr>, ghost s: set<Expr>)
    requires Listed(arr, nodes) && Unique(Elems(nodes)) && Mapped(des.idExpr, Elems(nodes), s)
    requires j == JIlaOf(m) && UniqueNames(m) && Turn(m, inputs, states, Elems(nodes), s)
    requires LevelOk(parent, inputs, states) && Names(m) !! des.levels.Keys
    modifies des
    ensures Mapped(des.idExpr, Elems(nodes), s + AllVars(m))
    ensures des.levels.Keys == old(des.levels).Keys + Names(m) && Keeps(des.levels, old(des.levels))
    ensures LevelsOk(m, des.levels)
    decreases m, 1
  {
    assert m.name in Names(m) && ChildNames(m, |m.childs|) <= Names(m);
    assert Vars(m) * s == inputs + states;
    ghost var before := des.levels;
    var lv := des.DesVarUnit(j, parent, arr, m, nodes, s);
    ghost var mid := des.levels;
    DesVarChilds(des, j, lv, arr, m, inputs, states, nodes, s);
    assert KnownAt(m, |m.childs|, s) == s + AllVars(m);
    assert Keeps(des.levels, before);
  }

  /** The first `n` children have been declared, starting from the levels `before`. */
  ghost predicate Progress(m: Ila, n: nat, before: map<string, Level>, levels: map<string, Level>)
    requires n <= |m.childs|
  {
    levels.Keys == before.Keys + ChildNames(m, n) && Keeps(levels, before) && ChildLevelsOk(m, n, levels)
  }

  lemma {:induction false} NextProgress(m: Ila, n: nat, before: map<string, Level>, mid: map<string, Level>, after: map<string, Level>)
    requires n < |m.childs| && Progress(m, n, before, mid)
    requires after.Keys == mid.Keys + Names(m.childs[n]) && Keeps(after, mid) && LevelsOk(m.childs[n], after)
    ensures Progress(m, n + 1, before, after)
  {
    OneMoreLevel(m, n, mid, after);
    ChildNamesMore(m, n);
  }

  lemma {:induction false} NamesFree(m: Ila, n: nat, before: map<string, Level>, mid: map<string, Level>)
    requires n < |m.childs| && UniqueNames(m) && Progress(m, n, before, mid)
    requires ChildNames(m, |m.childs|) !! before.Keys
    ensures Names(m.childs[n]) !! mid.Keys
  {
    assert OtherName(m, n);
  }

  method DesVarChilds(des: J2IDes, j: JIla, lv: Level, arr: seq<JExpr>, ghost m: Ila, ghost inputs: set<Expr>, ghost states: set<Expr>, ghost nodes: seq<Expr>, ghost s: set<Expr>)
    requires Listed(arr, nodes) && Unique(Elems(nodes)) && Mapped(des.idExpr, Elems(nodes), s + Vars(m))
    requires j == JIlaOf(m) && UniqueNames(m) && Turn(m, inputs, states, Elems(nodes), s)
    requires LevelOk(lv, Elems(m.inputs), Elems(m.states))
    requires ChildNames(m, |m.childs|) !! des.levels.Keys
    modifies des
    ensures Mapped(des.idExpr, Elems(nodes), KnownAt(m, |m.childs|, s))
    ensures Progress(m, |m.childs|, old(des.levels), des.levels)
    decreases m, 0, 1
  {
    assert KnownAt(m, 0, s) == s + Vars(m);
    for i := 0 to |j.childs|
      invariant Mapped(des.idExpr, Elems(nodes), KnownAt(m, i, s))
      invariant Progress(m, i, old(des.levels), des.levels)
    {
      DesVarChild(des, j, i, lv, arr, m, inputs, states, nodes, s, old(des.levels));
    }
  }

  method DesVarChild(des: J2IDes, j: JIla, i: nat, lv: Level, arr: seq<JExpr>, ghost m: Ila, ghost inputs: set<Expr>, ghost states: set<Expr>, ghost nodes: seq<Expr>, ghost s: set<Expr>, ghost before: map<string, Level>)
    requires i < |m.childs| && Listed(arr, nodes) && Unique(Elems(nodes)) && Mapped(des.idExpr, Elems(nodes), KnownAt(m, i, s))
    requires j == JIlaOf(m) && UniqueNames(m) && Turn(m, inputs, states, Elems(nodes), s)
    requires LevelOk(lv, Elems(m.inputs), Elems(m.states))
    requires ChildNames(m, |m.childs|) !! before.Keys && Progress(m, i, before, des.levels)
    modifies des
    ensures Mapped(des.idExpr, Elems(nodes), KnownAt(m, i + 1, s))
    ensures Progress(m, i + 1, before, des.levels)
    decreases m, 0, 0
  {
    ChildTurn(m, inputs, states, Elems(nodes), i, s);
    NamesFree(m, i, before, des.levels);
    ghost var mid := des.levels;
    assert UniqueNames(m.childs[i]);
    DesVarHier(des, j.childs[i], lv, arr, m.childs[i], Elems(m.inputs), Elems(m.states), nodes, KnownAt(m, i, s));
    NextProgress(m, i, before, mid, des.levels);
    KnownNext(m, i, s);
  }
}
