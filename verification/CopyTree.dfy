/** Copying a hierarchy: new variables of the same names, and every expression with the new
    variables put in place of the old. */
module CopyTree {
  import opened Options
  import opened Expressions
  import opened Rewriters
  import opened Portable
  import opened PortableBack
  import opened PortableTree
  import RT = PortableRoundTrip

  /** The variables an expression reads. */
  ghost function VarsOf(e: Expr): set<Expr> {
    if e.op.Var? then {e} else set i, v | 0 <= i < |e.args| && v in VarsOf(e.args[i]) :: v
  }

  /** A table from variables to variables of the same name and sort. */
  ghost predicate Renames(table: map<Expr, Expr>) {
    forall e :: e in table ==> IsVar(e) && IsVar(table[e]) && table[e].op == e.op
  }

  lemma {:induction false} RenamedIsSame(e: Expr, r: Expr)
    requires IsVar(e) && IsVar(r) && r.op == e.op
    ensures WellSorted(e) && Replaces(r, e)
  {
    forall s: State, f: Ops ensures Eval(r, s, f) == Eval(e, s, f) {
      assert Eval(r, s, f) == Lookup(s, r.op.name, r.op.varSort);
    }
  }

  /** Substituting variables leaves an expression over the new variables only. */
  lemma {:induction false} SubstitutedVars(r: Expr, e: Expr, table: map<Expr, Expr>, vars: set<Expr>)
    requires Substituted(r, e, table) && WellSorted(e) && VarsOf(e) <= table.Keys && Renames(table)
    requires forall v :: v in VarsOf(e) ==> table[v] in vars
    ensures VarsOf(r) <= vars
    decreases e
  {
    if e in table {
      assert VarsOf(e) == {e};
    } else if e.op.IsOp() {
      forall v | v in VarsOf(r) ensures v in vars {
        var i :| 0 <= i < |r.args| && v in VarsOf(r.args[i]);
        SubstitutedVars(r.args[i], e.args[i], table, vars);
      }
    } else {
      assert e.op.Var? || e.args == [];
    }
  }

  /** No two variables are mapped to one. */
  ghost predicate Injective(table: map<Expr, Expr>) {
    forall x, y :: x in table && y in table && table[x] == table[y] ==> x == y
  }

  ghost function Images(vars: set<Expr>, table: map<Expr, Expr>): set<Expr> {
    set v | v in vars && v in table :: table[v]
  }

  /** The expression with the table put in place, over the variables of the copy. */
  ghost predicate Copied(r: Expr, e: Expr, table: map<Expr, Expr>, vars: set<Expr>) {
    Same(r, e) && Substituted(r, e, table) && VarsOf(e) <= table.Keys && VarsOf(r) <= vars
  }

  ghost predicate CopiedOption(r: Option<Expr>, e: Option<Expr>, table: map<Expr, Expr>, vars: set<Expr>) {
    if e.Some? then r.Some? && Copied(r.value, e.value, table, vars) else r.None?
  }

  ghost predicate CopiedAll(r: seq<Expr>, e: seq<Expr>, table: map<Expr, Expr>, vars: set<Expr>) {
    |r| == |e| && forall i :: 0 <= i < |e| ==> Copied(r[i], e[i], table, vars)
  }

  ghost predicate CopiedInstr(r: Instr, a: Instr, table: map<Expr, Expr>, vars: set<Expr>) {
    && r.name == a.name && Copied(r.decode, a.decode, table, vars) && r.updates.Keys == a.updates.Keys
    && forall x :: x in a.updates ==> Copied(r.updates[x], a.updates[x], table, vars)
  }

  ghost predicate CopiedInstrs(r: seq<Instr>, a: seq<Instr>, table: map<Expr, Expr>, vars: set<Expr>) {
    |r| == |a| && forall i :: 0 <= i < |a| ==> CopiedInstr(r[i], a[i], table, vars)
  }

  /** The variables of a level are mapped exactly to those of its copy. */
  ghost predicate OwnsCopies(table: map<Expr, Expr>, m: Ila, own: Ila) {
    && Vars(m) <= table.Keys
    && Elems(own.inputs) == Images(Elems(m.inputs), table) && Elems(own.states) == Images(Elems(m.states), table)
  }

  /** The level's variables are the copies, and every expression is copied. */
  ghost predicate CopiedLevel(r: Ila, m: Ila, table: map<Expr, Expr>) {
    && OwnsCopies(table, m, r)
    && CopiedOption(r.fetch, m.fetch, table, Vars(r)) && Copied(r.valid, m.valid, table, Vars(r))
    && CopiedAll(r.inits, m.inits, table, Vars(r)) && CopiedInstrs(r.instrs, m.instrs, table, Vars(r))
  }

  ghost predicate CopiedTree(r: Ila, m: Ila, table: map<Expr, Expr>)
    decreases m
  {
    && CopiedLevel(r, m, table) && |r.childs| == |m.childs|
    && forall i :: 0 <= i < |m.childs| ==>
         r.childs[i].name == m.childs[i].name && Vars(r) <= Vars(r.childs[i]) && CopiedTree(r.childs[i], m.childs[i], table)
  }

  ghost predicate Extends(after: map<Expr, Expr>, before: map<Expr, Expr>) {
    forall e :: e in before ==> e in after && after[e] == before[e]
  }

  // ----- a longer table leaves a copy what it is -----

  lemma {:induction false} SubstitutedStays(r: Expr, e: Expr, before: map<Expr, Expr>, after: map<Expr, Expr>)
    requires Substituted(r, e, before) && VarsOf(e) <= before.Keys && Extends(after, before) && Renames(after)
    ensures Substituted(r, e, after)
    decreases e
  {
    if e !in before {
      assert !e.op.Var?;
      if e.op.IsOp() {
        forall i | 0 <= i < |e.args| ensures Substituted(r.args[i], e.args[i], after) {
          assert VarsOf(e.args[i]) <= VarsOf(e);
          SubstitutedStays(r.args[i], e.args[i], before, after);
        }
      }
    }
  }

  lemma {:induction false} CopiedStays(r: Expr, e: Expr, before: map<Expr, Expr>, after: map<Expr, Expr>, vars: set<Expr>)
    requires Copied(r, e, before, vars) && Extends(after, before) && Renames(after)
    ensures Copied(r, e, after, vars)
  {
    SubstitutedStays(r, e, before, after);
  }

  lemma {:induction false} CopiedInstrStays(r: Instr, a: Instr, before: map<Expr, Expr>, after: map<Expr, Expr>, vars: set<Expr>)
    requires CopiedInstr(r, a, before, vars) && Extends(after, before) && Renames(after)
    ensures CopiedInstr(r, a, after, vars)
  {
    CopiedStays(r.decode, a.decode, before, after, vars);
    forall x | x in a.updates ensures Copied(r.updates[x], a.updates[x], after, vars) {
      CopiedStays(r.updates[x], a.updates[x], before, after, vars);
    }
  }

  lemma {:induction false} OwnsStays(m: Ila, own: Ila, before: map<Expr, Expr>, after: map<Expr, Expr>)
    requires OwnsCopies(before, m, own) && Extends(after, before)
    ensures OwnsCopies(after, m, own)
  {
  }

  lemma {:induction false} LevelStays(r: Ila, m: Ila, before: map<Expr, Expr>, after: map<Expr, Expr>)
    requires CopiedLevel(r, m, before) && Extends(after, before) && Renames(after)
    ensures CopiedLevel(r, m, after)
  {
    OwnsStays(m, r, before, after);
    if m.fetch.Some? {
      CopiedStays(r.fetch.value, m.fetch.value, before, after, Vars(r));
    }
    CopiedStays(r.valid, m.valid, before, after, Vars(r));
    forall i | 0 <= i < |m.inits| ensures Copied(r.inits[i], m.inits[i], after, Vars(r)) {
      CopiedStays(r.inits[i], m.inits[i], before, after, Vars(r));
    }
    forall i | 0 <= i < |m.instrs| ensures CopiedInstr(r.instrs[i], m.instrs[i], after, Vars(r)) {
      CopiedInstrStays(r.instrs[i], m.instrs[i], before, after, Vars(r));
    }
  }

  lemma {:induction false} TreeStays(r: Ila, m: Ila, before: map<Expr, Expr>, after: map<Expr, Expr>)
    requires CopiedTree(r, m, before) && Extends(after, before) && Renames(after)
    ensures CopiedTree(r, m, after)
    decreases m
  {
    LevelStays(r, m, before, after);
    forall i | 0 <= i < |m.childs| ensures CopiedTree(r.childs[i], m.childs[i], after) {
      TreeStays(r.childs[i], m.childs[i], before, after);
    }
  }

  /** An expression the rewriter supports, over the variables of its level. */
  ghost predicate Copyable(e: Expr, vars: set<Expr>) {
    WellSorted(e) && Handled(e) && VarsOf(e) <= vars
  }

  ghost predicate CopyableInstr(a: Instr, vars: set<Expr>) {
    Copyable(a.decode, vars) && forall x :: x in a.updates ==> Copyable(a.updates[x], vars)
  }

  ghost predicate CopyableLevel(m: Ila) {
    && (m.fetch.Some? ==> Copyable(m.fetch.value, Vars(m))) && Copyable(m.valid, Vars(m))
    && (forall e :: e in m.inits ==> Copyable(e, Vars(m)))
    && (forall a :: a in m.instrs ==> CopyableInstr(a, Vars(m)))
    && RT.StatesOk(m.inputs) && RT.StatesOk(m.states)
  }

  ghost predicate CopyableTree(m: Ila)
    decreases m
  {
    CopyableLevel(m) && forall i :: 0 <= i < |m.childs| ==> CopyableTree(m.childs[i])
  }

  class TreeCopier {
    var exprMap: map<Expr, Expr>
    var next: nat

    constructor (next: nat)
      ensures exprMap == map[] && Valid()
    {
      exprMap, this.next := map[], next;
    }

    /** Each variable has a copy of its own. */
    ghost predicate Valid()
      reads this
    {
      Renames(exprMap) && Injective(exprMap) && forall e :: e in exprMap ==> exprMap[e].id < next
    }

    /** Find each variable of a level in the copy by name, or create it. */
    method DuplVars(src: seq<Expr>, have: seq<Expr>) returns (vars: seq<Expr>)
      requires Valid() && RT.StatesOk(src) && (forall e :: e in src ==> IsVar(e)) && Elems(have) == Images(Elems(src), exprMap)
      modifies this
      ensures Valid() && Extends(exprMap, old(exprMap)) && exprMap.Keys == old(exprMap).Keys + Elems(src)
      ensures Elems(vars) == Images(Elems(src), exprMap) && Elems(have) <= Elems(vars)
    {
      vars := have;
      for i := 0 to |src|
        invariant Valid() && Extends(exprMap, old(exprMap))
        invariant exprMap.Keys == old(exprMap).Keys + Elems(src[..i])
        invariant Elems(vars) == Images(Elems(src), exprMap) && Elems(have) <= Elems(vars)
      {
        assert src[..i + 1] == src[..i] + [src[i]];
        vars := DuplVar(src[i], src, vars);
      }
      assert src[..|src|] == src;
    }

    method DuplVar(e: Expr, ghost src: seq<Expr>, have: seq<Expr>) returns (vars: seq<Expr>)
      requires Valid() && RT.StatesOk(src) && e in src && (forall x :: x in src ==> IsVar(x)) && Elems(have) == Images(Elems(src), exprMap)
      modifies this
      ensures Valid() && Extends(exprMap, old(exprMap)) && exprMap.Keys == old(exprMap).Keys + {e}
      ensures Elems(vars) == Images(Elems(src), exprMap) && Elems(have) <= Elems(vars)
    {
      vars := have;
      var found := FindVar(have, e.op.name);
      FoundIffKnown(e, src, have, exprMap);
      if !found {
        var v := Expr(next, e.op, []);
        ImagesMore(Elems(src), exprMap, e, v);
        vars := have + [v];
        next, exprMap := next + 1, exprMap[e := v];
      }
    }

    /** Rewrite an expression through a fresh table that starts with the variables. */
    method Rewrite(e: Expr, ghost from: set<Expr>, ghost vars: set<Expr>) returns (r: Expr)
      requires Valid() && Copyable(e, from) && MappedOnto(exprMap, from, vars)
      modifies this`next
      ensures Valid() && Copied(r, e, exprMap, vars)
    {
      forall k | k in exprMap ensures WellSorted(k) && Replaces(exprMap[k], k) {
        RenamedIsSame(k, exprMap[k]);
      }
      var func := new Rewriter(RebuildOnly, next, exprMap);
      r := func.Rewr(e);
      next := func.next;
      SubstitutedVars(r, e, exprMap, vars);
    }

    method RewriteOption(e: Option<Expr>, ghost from: set<Expr>, ghost vars: set<Expr>) returns (r: Option<Expr>)
      requires Valid() && (e.Some? ==> Copyable(e.value, from)) && MappedOnto(exprMap, from, vars)
      modifies this`next
      ensures Valid() && CopiedOption(r, e, exprMap, vars)
    {
      if e.Some? {
        var x := Rewrite(e.value, from, vars);
        r := Some(x);
      } else {
        r := None;
      }
    }

    method DuplInit(es: seq<Expr>, ghost from: set<Expr>, ghost vars: set<Expr>) returns (rs: seq<Expr>)
      requires Valid() && (forall e :: e in es ==> Copyable(e, from)) && MappedOnto(exprMap, from, vars)
      modifies this`next
      ensures Valid() && CopiedAll(rs, es, exprMap, vars)
    {
      rs := [];
      for i := 0 to |es|
        invariant Valid() && |rs| == i && forall k :: 0 <= k < i ==> Copied(rs[k], es[k], exprMap, vars)
      {
        var r := Rewrite(es[i], from, vars);
        rs := rs + [r];
      }
    }

    method DuplInstr(a: Instr, ghost from: set<Expr>, ghost vars: set<Expr>) returns (r: Instr)
      requires Valid() && CopyableInstr(a, from) && MappedOnto(exprMap, from, vars)
      modifies this`next
      ensures Valid() && CopiedInstr(r, a, exprMap, vars)
    {
      var decode := Rewrite(a.decode, from, vars);
      var updates: map<string, Expr> := map[];
      var todo := a.updates.Keys;
      while todo != {}
        invariant Valid() && todo <= a.updates.Keys && updates.Keys == a.updates.Keys - todo
        invariant forall x :: x in updates ==> Copied(updates[x], a.updates[x], exprMap, vars)
      {
        var x :| x in todo;
        var u := Rewrite(a.updates[x], from, vars);
        updates := updates[x := u];
        todo := todo - {x};
      }
      r := Instr(a.name, decode, updates);
    }

    method DuplInstrs(instrs: seq<Instr>, ghost from: set<Expr>, ghost vars: set<Expr>) returns (rs: seq<Instr>)
      requires Valid() && (forall a :: a in instrs ==> CopyableInstr(a, from)) && MappedOnto(exprMap, from, vars)
      modifies this`next
      ensures Valid() && CopiedInstrs(rs, instrs, exprMap, vars)
    {
      rs := [];
      for i := 0 to |instrs|
        invariant Valid() && |rs| == i && forall k :: 0 <= k < i ==> CopiedInstr(rs[k], instrs[k], exprMap, vars)
      {
        var r := DuplInstr(instrs[i], from, vars);
        rs := rs + [r];
      }
    }

    /** What a level holds, over variables that have been duplicated. */
    method DuplLevel(m: Ila, name: string, inputs: seq<Expr>, states: seq<Expr>) returns (r: Ila)
      requires Valid() && CopyableLevel(m) && Vars(m) <= exprMap.Keys
      requires Elems(inputs) == Images(Elems(m.inputs), exprMap) && Elems(states) == Images(Elems(m.states), exprMap)
      modifies this`next
      ensures Valid() && CopiedLevel(r, m, exprMap) && r.name == name && r.inputs == inputs && r.states == states && r.childs == []
    {
      ghost var from, vars := Vars(m), Elems(inputs) + Elems(states);
      var fetch := RewriteOption(m.fetch, from, vars);
      var valid := Rewrite(m.valid, from, vars);
      var inits := DuplInit(m.inits, from, vars);
      var instrs := DuplInstrs(m.instrs, from, vars);
      r := Ila(name, inputs, states, fetch, valid, instrs, inits, []);
    }
  }

  ghost predicate MappedOnto(table: map<Expr, Expr>, from: set<Expr>, vars: set<Expr>) {
    forall e :: e in from ==> e in table && table[e] in vars
  }

  ghost predicate Named(have: seq<Expr>, name: string) {
    exists y :: y in have && y.op.Var? && y.op.name == name
  }

  method FindVar(have: seq<Expr>, name: string) returns (found: bool)
    ensures found <==> Named(have, name)
  {
    found := false;
    for i := 0 to |have|
      invariant found <==> exists k :: 0 <= k < i && have[k].op.Var? && have[k].op.name == name
    {
      if have[i].op.Var? && have[i].op.name == name {
        found := true;
      }
    }
  }

  /** A variable of that name is there exactly if the variable itself is known. */
  lemma {:induction false} FoundIffKnown(e: Expr, src: seq<Expr>, have: seq<Expr>, table: map<Expr, Expr>)
    requires Renames(table) && RT.StatesOk(src) && e in src && forall x :: x in src ==> IsVar(x)
    requires Elems(have) == Images(Elems(src), table)
    ensures Named(have, e.op.name) <==> e in table
  {
    if e in table {
      assert table[e] in Elems(have) && table[e].op == e.op;
    }
    if y :| y in have && y.op.Var? && y.op.name == e.op.name {
      assert y in Elems(have);
      var z :| z in src && z in table && table[z] == y;
    }
  }

  lemma {:induction false} ImagesMore(vars: set<Expr>, table: map<Expr, Expr>, e: Expr, v: Expr)
    requires e in vars && e !in table
    ensures Images(vars, table[e := v]) == Images(vars, table) + {v}
  {
    assert e in table[e := v] && table[e := v][e] == v;
    forall x | x in Images(vars, table) ensures x in Images(vars, table[e := v]) {
      var y :| y in vars && y in table && table[y] == x;
      assert y in table[e := v] && table[e := v][y] == x;
    }
  }

  /** Of a level's variables those it inherits are known, and its states are no inputs. */
  lemma {:induction false} KnownOfLevel(m: Ila, inputs: set<Expr>, states: set<Expr>, nodes: set<Expr>, s: set<Expr>)
    requires Turn(m, inputs, states, nodes, s)
    ensures inputs <= s && states <= s && Elems(m.inputs) * s == inputs && Elems(m.states) * (s + Elems(m.inputs)) == states
    ensures s + Elems(m.inputs) + Elems(m.states) == KnownAt(m, 0, s)
  {
    assert Vars(m) * s == inputs + states;
  }

  ghost predicate CopiedChild(r: Ila, m: Ila, parent: Ila, table: map<Expr, Expr>) {
    r.name == m.name && Vars(parent) <= Vars(r) && CopiedTree(r, m, table)
  }

  ghost predicate CopiedChilds(rs: seq<Ila>, m: Ila, n: nat, parent: Ila, table: map<Expr, Expr>)
    requires n <= |m.childs|
  {
    |rs| == n && forall k :: 0 <= k < n ==> CopiedChild(rs[k], m.childs[k], parent, table)
  }

  lemma {:induction false} OneMoreChild(rs: seq<Ila>, m: Ila, n: nat, r: Ila, parent: Ila, before: map<Expr, Expr>, after: map<Expr, Expr>)
    requires n < |m.childs| && CopiedChilds(rs, m, n, parent, before) && CopiedChild(r, m.childs[n], parent, after)
    requires Extends(after, before) && Renames(after)
    ensures CopiedChilds(rs + [r], m, n + 1, parent, after)
  {
    forall k | 0 <= k < n ensures CopiedChild(rs[k], m.childs[k], parent, after) {
      TreeStays(rs[k], m.childs[k], before, after);
    }
  }

  /** Duplicate a level, then its children. */
  method CopyHier(c: TreeCopier, m: Ila, name: string, inherited: Level, ghost inputs: set<Expr>, ghost states: set<Expr>, ghost nodes: set<Expr>, ghost s: set<Expr>) returns (r: Ila)
    requires c.Valid() && c.exprMap.Keys == s && Turn(m, inputs, states, nodes, s) && CopyableTree(m)
    requires Elems(inherited.inputs) == Images(inputs, c.exprMap) && Elems(inherited.states) == Images(states, c.exprMap)
    modifies c
    ensures c.Valid() && Extends(c.exprMap, old(c.exprMap)) && c.exprMap.Keys == s + AllVars(m)
    ensures r.name == name && CopiedTree(r, m, c.exprMap) && Elems(inherited.inputs) + Elems(inherited.states) <= Vars(r)
    decreases m, 1
  {
    var own := CopyLevel(c, m, name, inherited, inputs, states, nodes, s);
    ghost var before := c.exprMap;
    var childs := CopyChilds(c, m, own, inputs, states, nodes, s);
    assert KnownAt(m, |m.childs|, s) == s + AllVars(m);
    r := own.(childs := childs);
    LevelStays(own, m, before, c.exprMap);
  }

  method CopyLevel(c: TreeCopier, m: Ila, name: string, inherited: Level, ghost inputs: set<Expr>, ghost states: set<Expr>, ghost nodes: set<Expr>, ghost s: set<Expr>) returns (r: Ila)
    requires c.Valid() && c.exprMap.Keys == s && Turn(m, inputs, states, nodes, s) && CopyableTree(m)
    requires Elems(inherited.inputs) == Images(inputs, c.exprMap) && Elems(inherited.states) == Images(states, c.exprMap)
    modifies c
    ensures c.Valid() && Extends(c.exprMap, old(c.exprMap)) && c.exprMap.Keys == KnownAt(m, 0, s)
    ensures r.name == name && CopiedLevel(r, m, c.exprMap) && Elems(inherited.inputs) + Elems(inherited.states) <= Vars(r)
  {
    KnownOfLevel(m, inputs, states, nodes, s);
    ghost var before := c.exprMap;
    var ins := c.DuplVars(m.inputs, inherited.inputs);
    ghost var middle := c.exprMap;
    var stts := c.DuplVars(m.states, inherited.states);
    r := c.DuplLevel(m, name, ins, stts);
  }

  method CopyChilds(c: TreeCopier, m: Ila, own: Ila, ghost inputs: set<Expr>, ghost states: set<Expr>, ghost nodes: set<Expr>, ghost s: set<Expr>) returns (childs: seq<Ila>)
    requires c.Valid() && c.exprMap.Keys == KnownAt(m, 0, s) && Turn(m, inputs, states, nodes, s) && CopyableTree(m)
    requires OwnsCopies(c.exprMap, m, own)
    modifies c
    ensures c.Valid() && Extends(c.exprMap, old(c.exprMap)) && c.exprMap.Keys == KnownAt(m, |m.childs|, s)
    ensures CopiedChilds(childs, m, |m.childs|, own, c.exprMap)
    decreases m, 0, 1
  {
    childs := [];
    for i := 0 to |m.childs|
      invariant OwnsCopies(c.exprMap, m, own) && c.Valid()
      invariant Extends(c.exprMap, old(c.exprMap)) && c.exprMap.Keys == KnownAt(m, i, s)
      invariant CopiedChilds(childs, m, i, own, c.exprMap)
    {
      ghost var before := c.exprMap;
      var r := CopyChild(c, m, i, own, inputs, states, nodes, s);
      OneMoreChild(childs, m, i, r, own, before, c.exprMap);
      childs := childs + [r];
    }
  }

  method CopyChild(c: TreeCopier, m: Ila, i: nat, own: Ila, ghost inputs: set<Expr>, ghost states: set<Expr>, ghost nodes: set<Expr>, ghost s: set<Expr>) returns (r: Ila)
    requires i < |m.childs| && c.Valid() && c.exprMap.Keys == KnownAt(m, i, s) && Turn(m, inputs, states, nodes, s) && CopyableTree(m)
    requires OwnsCopies(c.exprMap, m, own)
    modifies c
    ensures c.Valid() && Extends(c.exprMap, old(c.exprMap)) && c.exprMap.Keys == KnownAt(m, i + 1, s)
    ensures OwnsCopies(c.exprMap, m, own) && CopiedChild(r, m.childs[i], own, c.exprMap)
    decreases m, 0, 0
  {
    ChildTurn(m, inputs, states, nodes, i, s);
    KnownNext(m, i, s);
    assert CopyableTree(m.childs[i]);
    ghost var before := c.exprMap;
    r := CopyHier(c, m.childs[i], m.childs[i].name, Level(own.inputs, own.states), Elems(m.inputs), Elems(m.states), nodes, KnownAt(m, i, s));
    OwnsStays(m, own, before, c.exprMap);
  }

  /** The copy has the same levels; `table` maps the variables of each exactly to those of its copy,
      no two to one, and every expression is the old one with the table put in place. */
  method CopyIlaTree(m: Ila, name: string, next: nat) returns (r: Ila, ghost table: map<Expr, Expr>)
    requires WfTree(m, {}, {}) && CopyableTree(m)
    ensures r.name == name && CopiedTree(r, m, table)
    ensures Renames(table) && Injective(table) && table.Keys == AllVars(m)
  {
    var c := new TreeCopier(next);
    r := CopyHier(c, m, name, Level([], []), {}, {}, AllVars(m), {});
    table := c.exprMap;
  }
}
