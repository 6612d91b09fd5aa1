/** Hash-consing of an expression graph in place.  Nodes are objects whose arguments are replaced
    by their representatives; `tree` records the expression a node stands for. */
module HashAst {
  import opened Prefixes

  /** What distinguishes a node apart from its arguments.  Variables and memory constants carry
      their own identity; a function application carries the function's. */
  datatype Label =
    | VarLabel(sort: nat, id: nat)
    | ConstLabel(sort: nat, value: int)
    | MemConstLabel(sort: nat, id: nat)
    | OpLabel(sort: nat, op: string, params: seq<int>)
    | FuncLabel(sort: nat, func: nat)

  datatype Tree = Tree(tag: Label, args: seq<Tree>)

  function Max(a: nat, b: nat): nat {
    if a < b then b else a
  }

  function Height(t: Tree): nat
    decreases t, 0
  {
    1 + Heights(t.args)
  }

  function Heights(ts: seq<Tree>): (h: nat)
    ensures forall i :: 0 <= i < |ts| ==> Height(ts[i]) <= h
    decreases ts, 1
  {
    if ts == [] then 0
    else
      assert forall i :: 0 < i < |ts| ==> ts[i] == ts[1..][i - 1];
      Max(Height(ts[0]), Heights(ts[1..]))
  }

  class Node {
    const id: nat
    const tag: Label
    ghost const tree: Tree
    var args: seq<Node>

    constructor (id: nat, tag: Label, args: seq<Node>)
      ensures this.id == id && this.tag == tag && this.args == args
      ensures tree == Tree(tag, seq(|args|, i requires 0 <= i < |args| => args[i].tree))
    {
      this.id, this.tag, this.args := id, tag, args;
      tree := Tree(tag, seq(|args|, i requires 0 <= i < |args| => args[i].tree));
    }
  }

  /** A set of nodes closed under arguments, each standing for its tree, with distinct ids. */
  ghost predicate Graph(g: set<Node>)
    reads g
  {
    && (forall n :: n in g ==> NodeOk(n, g))
    && (forall m, n :: m in g && n in g && m.id == n.id ==> m == n)
  }

  ghost predicate NodeOk(n: Node, g: set<Node>)
    reads n
  {
    && n.tag == n.tree.tag && |n.args| == |n.tree.args|
    && forall i :: 0 <= i < |n.args| ==> n.args[i] in g && n.args[i].tree == n.tree.args[i]
  }

  /** The expression read off the graph, following the arguments. */
  ghost function Unfold(n: Node, g: set<Node>): (t: Tree)
    requires Graph(g) && n in g
    reads g
    ensures t == n.tree
    decreases n.tree
  {
    assert NodeOk(n, g);
    var children := n.args;
    var trees := seq(|children|, i requires 0 <= i < |children| reads g =>
      if Graph(g) && children[i] in g && children[i].tree == n.tree.args[i] then Unfold(children[i], g) else n.tree);
    assert trees == n.tree.args;
    Tree(n.tag, trees)
  }

  datatype Key = Key(tag: Label, ids: seq<nat>)

  function Ids(ns: seq<Node>): (ids: seq<nat>)
    ensures |ids| == |ns| && forall i :: 0 <= i < |ns| ==> ids[i] == ns[i].id
  {
    seq(|ns|, i requires 0 <= i < |ns| => ns[i].id)
  }

  function Hash(n: Node): Key
    reads n
  {
    Key(n.tag, Ids(n.args))
  }

  /** Nodes with the same key have the same arguments, so stand for the same expression. */
  lemma {:induction false} SameKeySameTree(m: Node, n: Node, g: set<Node>)
    requires Graph(g) && m in g && n in g && Hash(m) == Hash(n)
    ensures m.args == n.args && m.tree == n.tree
  {
    assert NodeOk(m, g) && NodeOk(n, g);
    assert |m.args| == |Hash(m).ids| == |Hash(n).ids| == |n.args|;
    forall i | 0 <= i < |m.args| ensures m.args[i] == n.args[i] {
      assert m.args[i].id == Hash(m).ids[i] == Hash(n).ids[i] == n.args[i].id;
    }
    assert m.tree.args == n.tree.args;
  }

  class ExprMngr {
    var table: map<Key, Node>
    ghost var done: set<Node>  // the nodes visited so far

    constructor ()
      ensures table == map[] && done == {}
    {
      table, done := map[], {};
    }

    ghost predicate IsRep(n: Node)
      reads this, n
    {
      Hash(n) in table && table[Hash(n)] == n
    }

    ghost predicate ArgsAreReps(n: Node)
      reads this, n, n.args
    {
      forall i :: 0 <= i < |n.args| ==> IsRep(n.args[i])
    }

    /** The key of a visited node has an entry, and its arguments are representatives. */
    ghost predicate Visited(n: Node)
      reads this, n, n.args
    {
      Hash(n) in table && ArgsAreReps(n)
    }

    /** Each entry of the table is a visited node filed under its own key; so the table is closed
        under arguments. */
    ghost predicate Valid(g: set<Node>)
      reads this, g
    {
      && Graph(g) && done <= g
      && (forall k :: k in table ==> table[k] in done && Hash(table[k]) == k)
      && (forall n :: n in done ==> NodeOk(n, g) && Visited(n))
    }

    lemma {:induction false} RepIsVisited(n: Node, g: set<Node>)
      requires Valid(g) && IsRep(n)
      ensures n in done && Visited(n)
    {
      assert table[Hash(n)] == n;
    }

    /** There is one representative of each expression. */
    lemma {:induction false} RepsAreUnique(m: Node, n: Node, g: set<Node>)
      requires Valid(g) && IsRep(m) && IsRep(n) && m.tree == n.tree
      ensures m == n
      decreases m.tree
    {
      RepIsVisited(m, g);
      RepIsVisited(n, g);
      assert NodeOk(m, g) && NodeOk(n, g);
      forall i | 0 <= i < |m.args| ensures m.args[i] == n.args[i] {
        assert m.args[i].tree == m.tree.args[i] == n.args[i].tree;
        RepsAreUnique(m.args[i], n.args[i], g);
      }
      assert Hash(m) == Hash(n);
    }

    /** Look up the representative of each argument, all of which have been visited. */
    method ArgReps(node: Node, ghost g: set<Node>) returns (reps: seq<Node>)
      requires Valid(g) && node in g
      requires forall i :: 0 <= i < |node.args| ==> Hash(node.args[i]) in table
      ensures |reps| == |node.args|
      ensures forall j :: 0 <= j < |reps| ==> IsRep(reps[j]) && reps[j] in g && reps[j].tree == node.tree.args[j]
      ensures ArgsAreReps(node) ==> reps == node.args
    {
      reps := [];
      assert NodeOk(node, g);
      for i := 0 to |node.args|
        invariant |reps| == i
        invariant forall j :: 0 <= j < i ==>
          && IsRep(reps[j]) && reps[j] in g && reps[j].tree == node.tree.args[j]
          && reps[j] == table[Hash(node.args[j])]
      {
        var rep := table[Hash(node.args[i])];
        SameKeySameTree(rep, node.args[i], g);
        reps := reps + [rep];
      }
      if ArgsAreReps(node) {
        forall j | 0 <= j < |reps| ensures reps[j] == node.args[j] {
          assert IsRep(node.args[j]);
        }
      }
    }

    /** The table once the node has an entry for its key. */
    ghost function Filed(t: map<Key, Node>, node: Node): map<Key, Node>
      reads node
    {
      if Hash(node) in t then t else t[Hash(node) := node]
    }

    /** Enter a node whose arguments are representatives, unless its expression has an entry. */
    method File(node: Node, ghost g: set<Node>)
      requires Valid(g) && node in g && ArgsAreReps(node)
      modifies this
      ensures Valid(g)
      ensures done == old(done) + {node} && table == Filed(old(table), node)
    {
      if Hash(node) in table {
        done := done + {node};
      } else {
        FileNew(node, g);
      }
    }

    method FileNew(node: Node, ghost g: set<Node>)
      requires Valid(g) && node in g && ArgsAreReps(node) && Hash(node) !in table
      modifies this
      ensures Valid(g)
      ensures done == old(done) + {node} && table == old(table)[Hash(node) := node]
    {
      table := table[Hash(node) := node];
      forall n | n in done ensures Visited(n) {
        assert old(Visited(n));
        forall i | 0 <= i < |n.args| ensures IsRep(n.args[i]) {
          assert old(IsRep(n.args[i]));
        }
      }
      assert Visited(node);
      done := done + {node};
    }

    /** A node that is not a representative yet exchanges its arguments for equal ones. */
    method SetArgs(node: Node, reps: seq<Node>, ghost g: set<Node>)
      requires Valid(g) && node in g && |reps| == |node.args|
      requires forall j :: 0 <= j < |reps| ==> IsRep(reps[j]) && reps[j] in g && reps[j].tree == node.tree.args[j]
      requires ArgsAreReps(node) ==> reps == node.args
      modifies node
      ensures Valid(g) && ArgsAreReps(node) && node.args == reps
    {
      assert NodeOk(node, g);
      assert forall n :: n in g ==> NodeOk(n, g);
      assert node in done ==> reps == node.args;
      assert forall j :: 0 <= j < |reps| ==> reps[j] in done by {
        forall j | 0 <= j < |reps| ensures reps[j] in done {
          RepIsVisited(reps[j], g);
        }
      }
      node.args := reps;
      assert Graph(g) by {
        assert forall n :: n in g ==> NodeOk(n, g);
      }
      assert forall n :: n in done ==> n.args == old(n.args) && Hash(n) == old(Hash(n));
      forall n | n in g && old(IsRep(n)) ensures IsRep(n) {
        assert old(table[Hash(n)]) == n;
      }
      forall n | n in done ensures Visited(n) {
        assert old(Visited(n));
        forall i | 0 <= i < |n.args| ensures IsRep(n.args[i]) {
          assert old(IsRep(n.args[i]));
        }
      }
    }

    /** Replace the arguments by their representatives and file the node if it is new. */
    method Visit(node: Node, ghost g: set<Node>)
      requires Valid(g) && node in g
      requires forall i :: 0 <= i < |node.args| ==> Hash(node.args[i]) in table
      modifies this, node
      ensures Valid(g)
      ensures done == old(done) + {node} && table == Filed(old(table), node)
      ensures old(ArgsAreReps(node)) ==> node.args == old(node.args)
    {
      var reps := ArgReps(node, g);
      assert NodeOk(node, g);
      SetArgs(node, reps, g);
      File(node, g);
    }

    /** Visit every node below `node`, arguments first.  Only nodes that have not been visited
        change, and none of them is taller than `node`. */
    method DepthFirstVisit(node: Node, ghost g: set<Node>)
      requires Valid(g) && node in g
      modifies this, g
      ensures Valid(g)
      ensures old(done) + {node} <= done
      ensures forall k :: k in old(table) ==> k in table && table[k] == old(table[k])
      ensures forall n :: n in g && (n in old(done) || (n != node && Height(n.tree) >= Height(node.tree))) ==> n.args == old(n.args)
      decreases node.tree, 1
    {
      assert NodeOk(node, g);
      assert node in done ==> Visited(node);
      VisitArgs(node, g);
      assert node in old(done) ==> Visited(node);
      Visit(node, g);
    }

    method VisitArgs(node: Node, ghost g: set<Node>)
      requires Valid(g) && node in g
      modifies this, g
      ensures Valid(g)
      ensures old(done) <= done && FirstIn(node.args, |node.args|, done)
      ensures forall k :: k in old(table) ==> k in table && table[k] == old(table[k])
      ensures forall n :: n in g && (n in old(done) || Height(n.tree) >= Height(node.tree)) ==> n.args == old(n.args)
      decreases node.tree, 0
    {
      ghost var children, height := node.args, Height(node.tree);
      assert NodeOk(node, g);
      assert forall i :: 0 <= i < |children| ==> children[i] in g && children[i].tree < node.tree && Height(children[i].tree) < height;
      for i := 0 to |node.args|
        invariant Valid(g) && node.args == children && old(done) <= done
        invariant FirstIn(children, i, done)
        invariant forall k :: k in old(table) ==> k in table && table[k] == old(table[k])
        invariant forall n :: n in g && (n in old(done) || Height(n.tree) >= height) ==> n.args == old(n.args)
      {
        ghost var before := done;
        DepthFirstVisit(node.args[i], g);
        OneMoreIn(children, i, before, done);
      }
    }

    /** The representative stands for the same expression, and no node stands for another one. */
    method GetRep(node: Node, ghost g: set<Node>) returns (rep: Node)
      requires Valid(g) && node in g
      modifies this, g
      ensures Valid(g)
      ensures rep in g && IsRep(rep) && rep.tree == node.tree
      ensures forall n :: n in g ==> Unfold(n, g) == old(Unfold(n, g))
      ensures forall n :: n in g && old(IsRep(n)) ==> IsRep(n)
      ensures old(IsRep(node)) ==> rep == node
    {
      DepthFirstVisit(node, g);
      rep := table[Hash(node)];
      SameKeySameTree(rep, node, g);
      forall n | n in g && old(IsRep(n)) ensures IsRep(n) {
        assert old(table[Hash(n)]) == n && n in old(done);
      }
    }
  }

  /** Two graph nodes share a representative exactly when they stand for the same expression. */
  method TopEq(a: Node, b: Node, ghost g: set<Node>) returns (same: bool)
    requires Graph(g) && a in g && b in g
    modifies g
    ensures Graph(g)
    ensures same <==> old(Unfold(a, g)) == old(Unfold(b, g))
    ensures forall n :: n in g ==> Unfold(n, g) == old(Unfold(n, g))
  {
    var m := new ExprMngr();
    var x := m.GetRep(a, g);
    var y := m.GetRep(b, g);
    if x.tree == y.tree {
      m.RepsAreUnique(x, y, g);
    }
    same := x == y;
  }
}
