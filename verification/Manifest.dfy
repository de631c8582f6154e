/** The bounded walk of a manifest's syntax tree (`version_from_manifest_text`). */
module Manifest {
  import opened Numbers

  datatype Tree = Node(children: seq<Tree>)

  const MAX_MANIFEST_NODES := 10_000
  const MAX_MANIFEST_DEPTH := 50

  function Size(t: Tree): (n: nat)
    ensures n >= 1
    decreases t
  {
    1 + Sizes(t.children)
  }

  function Sizes(children: seq<Tree>): nat
    decreases children
  {
    if children == [] then 0 else Size(children[0]) + Sizes(children[1..])
  }

  function Height(t: Tree): (n: nat)
    ensures n >= 1
    decreases t
  {
    1 + Heights(t.children)
  }

  function Heights(children: seq<Tree>): nat
    decreases children
  {
    if children == [] then 0 else Max(Height(children[0]), Heights(children[1..]))
  }

  /** A node on the stack, with its depth. */
  type Stack = seq<(Tree, nat)>

  /** The nodes still to visit under a stack. */
  function Waiting(stack: Stack): nat {
    if stack == [] then 0 else Waiting(stack[..|stack| - 1]) + Size(stack[|stack| - 1].0)
  }

  /** The deepest level a stack still leads to. */
  function Reach(stack: Stack): nat {
    if stack == [] then 0
    else Max(Reach(stack[..|stack| - 1]), stack[|stack| - 1].1 + Height(stack[|stack| - 1].0) - 1)
  }

  function Pushed(children: seq<Tree>, depth: nat): Stack {
    seq(|children|, i requires 0 <= i < |children| => (children[i], depth))
  }

  lemma {:induction false} WaitingConcat(a: Stack, b: Stack)
    ensures Waiting(a + b) == Waiting(a) + Waiting(b)
    ensures Reach(a + b) == Max(Reach(a), Reach(b))
  {
    if b == [] {
      assert a + b == a;
    } else {
      assert (a + b)[..|a + b| - 1] == a + b[..|b| - 1];
      WaitingConcat(a, b[..|b| - 1]);
    }
  }

  lemma {:induction false} PushedCounts(children: seq<Tree>, depth: nat)
    ensures Waiting(Pushed(children, depth)) == Sizes(children)
    ensures Reach(Pushed(children, depth)) == if children == [] then 0 else depth + Heights(children) - 1
    decreases |children|
  {
    if children != [] {
      var stack := Pushed(children, depth);
      assert stack == [(children[0], depth)] + Pushed(children[1..], depth);
      PushedCounts(children[1..], depth);
      WaitingConcat([(children[0], depth)], Pushed(children[1..], depth));
      assert [(children[0], depth)][..0] == [];
      if children[1..] != [] {
        HeightsPositive(children[1..]);
      }
    }
  }

  lemma HeightsPositive(children: seq<Tree>)
    requires children != []
    ensures Heights(children) >= 1
  {
  }

  /** One node visited, its children pushed. */
  lemma VisitCounts(stack: Stack)
    requires stack != []
    ensures var (node, depth) := stack[|stack| - 1];
            var next := stack[..|stack| - 1] + Pushed(node.children, depth + 1);
            && Waiting(stack) == Waiting(next) + 1 && Reach(stack) == Max(depth, Reach(next))
  {
    hide Sizes, Heights;
    var (node, depth) := stack[|stack| - 1];
    var rest, more := stack[..|stack| - 1], Pushed(node.children, depth + 1);
    WaitingConcat(rest, more);
    PushedCounts(node.children, depth + 1);
    if node.children == [] {
      NoChildren();
    } else {
      HeightsPositive(node.children);
    }
  }

  lemma NoChildren()
    ensures Sizes([]) == 0 && Heights([]) == 0
  {
  }

  lemma StartCounts(tree: Tree)
    ensures Waiting([(tree, 1)]) == Size(tree) && Reach([(tree, 1)]) == Height(tree)
    ensures Waiting([]) == 0 && Reach([]) == 0
  {
    assert [(tree, 1)][..0] == [];
  }

  /** The walk refuses a tree exactly when it has more nodes than the limit, or
      is taller than it; and it visits at most one node more than the limit. */
  method TooComplex(tree: Tree) returns (refused: bool, nodes: nat)
    ensures refused <==> Size(tree) > 10_000 || Height(tree) > 50
    ensures nodes <= 10_001
    ensures !refused ==> nodes == Size(tree)
  {
    hide Waiting, Reach, Size, Height, Pushed;
    nodes := 0;
    var stack: Stack := [(tree, 1)];
    ghost var deepest: nat := 0;
    StartCounts(tree);
    while stack != []
      invariant nodes + Waiting(stack) == Size(tree)
      invariant Max(deepest, Reach(stack)) == Height(tree)
      invariant nodes <= MAX_MANIFEST_NODES && deepest <= MAX_MANIFEST_DEPTH
      decreases Waiting(stack)
    {
      VisitCounts(stack);
      var (node, depth) := stack[|stack| - 1];
      stack := stack[..|stack| - 1];
      nodes := nodes + 1;
      deepest := Max(deepest, depth);
      if nodes > MAX_MANIFEST_NODES || depth > MAX_MANIFEST_DEPTH {
        return true, nodes;
      }
      stack := stack + Pushed(node.children, depth + 1);
    }
    refused := false;
  }

  /* ---- The order of children plays no part ---- */

  lemma {:induction false} MoveToFront(a: seq<Tree>, x: Tree, b: seq<Tree>)
    ensures Sizes(a + [x] + b) == Size(x) + Sizes(a + b)
    ensures Heights(a + [x] + b) == Max(Height(x), Heights(a + b))
  {
    if a == [] {
      assert a + [x] + b == [x] + b && a + b == b && ([x] + b)[1..] == b;
    } else {
      MoveToFront(a[1..], x, b);
      assert (a + [x] + b)[1..] == a[1..] + [x] + b && (a + b)[1..] == a[1..] + b;
    }
  }

  lemma Cancels<T>(x: T, m: multiset<T>, n: multiset<T>)
    requires multiset{x} + m == multiset{x} + n
    ensures m == n
  {
    forall y ensures m[y] == n[y] {
      assert (multiset{x} + m)[y] == (multiset{x} + n)[y];
    }
  }

  lemma CountOut<T>(p: seq<T>, x: T, q: seq<T>)
    ensures multiset(p + [x] + q) == multiset{x} + multiset(p + q)
  {
    assert multiset(p + [x] + q) == multiset(p) + multiset([x]) + multiset(q);
    assert multiset(p + q) == multiset(p) + multiset(q);
  }

  /** The same items are left when the first is taken out, wherever the other order has it. */
  lemma TakenOut<T>(a: seq<T>, b: seq<T>, k: nat)
    requires a != [] && multiset(a) == multiset(b) && k < |b| && b[k] == a[0]
    ensures b == b[..k] + [a[0]] + b[k + 1..]
    ensures multiset(a[1..]) == multiset(b[..k] + b[k + 1..])
  {
    assert a == [] + [a[0]] + a[1..];
    assert [] + a[1..] == a[1..];
    CountOut([], a[0], a[1..]);
    assert b == b[..k] + [a[0]] + b[k + 1..];
    CountOut(b[..k], a[0], b[k + 1..]);
    Cancels(a[0], multiset(a[1..]), multiset(b[..k] + b[k + 1..]));
  }

  lemma CountFirst(a: seq<Tree>)
    requires a != []
    ensures Sizes(a) == Size(a[0]) + Sizes(a[1..]) && Heights(a) == Max(Height(a[0]), Heights(a[1..]))
  {
  }

  lemma {:induction false} AnyOrder(a: seq<Tree>, b: seq<Tree>)
    requires multiset(a) == multiset(b)
    ensures Sizes(a) == Sizes(b) && Heights(a) == Heights(b)
    decreases |a|
  {
    hide Sizes, Heights;
    if a == [] {
      assert |multiset(b)| == |b| && |multiset(a)| == 0;
      assert b == [];
    } else {
      assert a[0] in multiset(b);
      var k :| 0 <= k < |b| && b[k] == a[0];
      TakenOut(a, b, k);
      AnyOrder(a[1..], b[..k] + b[k + 1..]);
      CountFirst(a);
      MoveToFront(b[..k], a[0], b[k + 1..]);
    }
  }

  /** The same tree, but for the order of the children of any of its nodes. */
  ghost predicate Reordered(t: Tree, u: Tree)
    decreases t
  {
    exists w: seq<Tree> ::
      && multiset(w) == multiset(u.children) && |w| == |t.children|
      && forall i :: 0 <= i < |w| ==> Reordered(t.children[i], w[i])
  }

  lemma {:induction false} SameSums(a: seq<Tree>, b: seq<Tree>)
    requires |a| == |b| && forall i :: 0 <= i < |a| ==> Size(a[i]) == Size(b[i]) && Height(a[i]) == Height(b[i])
    ensures Sizes(a) == Sizes(b) && Heights(a) == Heights(b)
  {
    if a != [] {
      SameSums(a[1..], b[1..]);
    }
  }

  lemma Witness(t: Tree, u: Tree) returns (w: seq<Tree>)
    requires Reordered(t, u)
    ensures multiset(w) == multiset(u.children) && |w| == |t.children|
    ensures forall i :: 0 <= i < |w| ==> Reordered(t.children[i], w[i])
  {
    w :| && multiset(w) == multiset(u.children) && |w| == |t.children|
         && forall i :: 0 <= i < |w| ==> Reordered(t.children[i], w[i]);
  }

  /** Whatever the order of children, anywhere in a tree, its size and height are
      the same: the walk's answer does not depend on it. */
  lemma {:induction false} OrderPlaysNoPart(t: Tree, u: Tree)
    requires Reordered(t, u)
    ensures Size(t) == Size(u) && Height(t) == Height(u)
    decreases t
  {
    hide Reordered, Sizes, Heights;
    var w := Witness(t, u);
    forall i | 0 <= i < |w| ensures Size(t.children[i]) == Size(w[i]) && Height(t.children[i]) == Height(w[i]) {
      OrderPlaysNoPart(t.children[i], w[i]);
    }
    SameSums(t.children, w);
    AnyOrder(w, u.children);
  }
}
