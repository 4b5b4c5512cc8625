/** The disjoint-set forest of src/utils/union-tree.ts (duplicated in
    src/utils/generateMaze.ts). One `UnionTree` object per node becomes one slot
    of a parent array; a null parent is `NoParent`. */
module UnionTree {

  const NoParent: int := -1

  /** Every parent link points to a node of strictly smaller ghost depth, so the
      parent chains are acyclic and `getRoot` terminates. */
  ghost predicate WellFormed(p: seq<int>, d: seq<nat>)
  {
    |p| == |d| &&
    forall i | 0 <= i < |p| :: p[i] == NoParent || (0 <= p[i] < |p| && d[p[i]] < d[i])
  }

  /** The node reached by following parent links from `i`. */
  ghost function RootOf(p: seq<int>, d: seq<nat>, i: nat): (r: nat)
    requires WellFormed(p, d) && i < |p|
    ensures r < |p| && p[r] == NoParent
    decreases d[i]
  {
    if p[i] == NoParent then i else RootOf(p, d, p[i])
  }

  /** The root of every node, as one value. */
  ghost function RootsOf(p: seq<int>, d: seq<nat>): (c: seq<nat>)
    requires WellFormed(p, d)
    ensures |c| == |p|
    ensures forall i | 0 <= i < |p| :: c[i] == RootOf(p, d, i)
  {
    seq(|p|, i requires 0 <= i < |p| => RootOf(p, d, i))
  }

  /** The classes after the class whose root is `from` is merged into the one
      whose root is `to`. */
  function Merge(c: seq<nat>, from: nat, to: nat): (m: seq<nat>)
    ensures |m| == |c|
    ensures forall i | 0 <= i < |c| :: m[i] == if c[i] == from then to else c[i]
  {
    seq(|c|, i requires 0 <= i < |c| => if c[i] == from then to else c[i])
  }

  /** `b.getRoot().parent = a` on value state: the ghost depths of `b`'s class
      are lifted above `a`. */
  ghost function ConnectDepths(p: seq<int>, d: seq<nat>, a: nat, rb: nat): (d': seq<nat>)
    requires WellFormed(p, d) && a < |p|
    ensures |d'| == |d|
  {
    seq(|d|, i requires 0 <= i < |d| =>
      if RootOf(p, d, i) == rb then d[i] + d[a] + 1 else d[i])
  }

  lemma ConnectWellFormed(p: seq<int>, d: seq<nat>, a: nat, b: nat)
    requires WellFormed(p, d) && a < |p| && b < |p|
    requires RootOf(p, d, a) != RootOf(p, d, b)
    ensures WellFormed(p[RootOf(p, d, b) := a], ConnectDepths(p, d, a, RootOf(p, d, b)))
  {
    var rb := RootOf(p, d, b);
    var p', d' := p[rb := a], ConnectDepths(p, d, a, rb);
    forall i | 0 <= i < |p'| && p'[i] != NoParent
      ensures 0 <= p'[i] < |p'| && d'[p'[i]] < d'[i]
    {
      if i != rb {
        assert RootOf(p, d, i) == RootOf(p, d, p[i]);
      }
    }
  }

  /** Connecting two unconnected nodes merges exactly their two classes: every
      node of `b`'s class now has `a`'s root, every other node keeps its root. */
  lemma {:induction false} ConnectMergesClasses(p: seq<int>, d: seq<nat>, a: nat, b: nat, i: nat)
    requires WellFormed(p, d) && a < |p| && b < |p| && i < |p|
    requires RootOf(p, d, a) != RootOf(p, d, b)
    ensures WellFormed(p[RootOf(p, d, b) := a], ConnectDepths(p, d, a, RootOf(p, d, b)))
    ensures RootOf(p[RootOf(p, d, b) := a], ConnectDepths(p, d, a, RootOf(p, d, b)), i)
         == if RootOf(p, d, i) == RootOf(p, d, b) then RootOf(p, d, a) else RootOf(p, d, i)
    decreases ConnectDepths(p, d, a, RootOf(p, d, b))[i]
  {
    ConnectWellFormed(p, d, a, b);
    var rb := RootOf(p, d, b);
    var p', d' := p[rb := a], ConnectDepths(p, d, a, rb);
    if p'[i] != NoParent {
      ConnectMergesClasses(p, d, a, b, p'[i]);
      if i != rb {
        assert RootOf(p, d, i) == RootOf(p, d, p[i]);
      }
    }
  }

  /** The roots after a connect: `b`'s old root is no longer one. */
  lemma ConnectRoots(p: seq<int>, d: seq<nat>, a: nat, b: nat)
    requires WellFormed(p, d) && a < |p| && b < |p|
    requires RootOf(p, d, a) != RootOf(p, d, b)
    ensures WellFormed(p[RootOf(p, d, b) := a], ConnectDepths(p, d, a, RootOf(p, d, b)))
    ensures RootsOf(p[RootOf(p, d, b) := a], ConnectDepths(p, d, a, RootOf(p, d, b)))
         == Merge(RootsOf(p, d), RootOf(p, d, b), RootOf(p, d, a))
  {
    ConnectWellFormed(p, d, a, b);
    var rb := RootOf(p, d, b);
    var p', d' := p[rb := a], ConnectDepths(p, d, a, rb);
    forall i | 0 <= i < |p|
      ensures RootsOf(p', d')[i] == Merge(RootsOf(p, d), rb, RootOf(p, d, a))[i]
    {
      ConnectMergesClasses(p, d, a, b, i);
    }
  }

  /** What a merge does to connectivity: `a` and `b` end up connected, and a
      pair becomes connected exactly when it already was or it joins the two
      merged classes. Being connected stays reflexive and symmetric. */
  lemma MergeConnectsExactly(c: seq<nat>, a: nat, b: nat, x: nat, y: nat)
    requires a < |c| && b < |c| && x < |c| && y < |c| && c[a] != c[b]
    ensures Merge(c, c[b], c[a])[a] == Merge(c, c[b], c[a])[b]
    ensures Merge(c, c[b], c[a])[x] == Merge(c, c[b], c[a])[y] <==>
      c[x] == c[y] || (c[x] == c[a] && c[y] == c[b]) || (c[x] == c[b] && c[y] == c[a])
  {
  }

  /** The forest of `sets` in generateMaze: node `i` is one `UnionTree`. */
  class UnionForest {
    var parent: array<int>
    ghost var depth: seq<nat>

    ghost predicate Valid()
      reads this, parent
    {
      WellFormed(parent[..], depth)
    }

    /** The root of every node: the partition into classes. */
    ghost function Classes(): (c: seq<nat>)
      reads this, parent
      requires Valid()
      ensures |c| == parent.Length
      ensures forall i | 0 <= i < |c| :: c[i] < |c| && c[c[i]] == c[i]
      ensures forall i | 0 <= i < |c| :: (parent[i] == NoParent <==> c[i] == i)
    {
      var c := RootsOf(parent[..], depth);
      assert forall i | 0 <= i < |c| :: RootOf(parent[..], depth, c[i]) == c[i];
      c
    }

    /** `n` fresh trees, each its own root. */
    constructor (n: nat)
      ensures Valid() && fresh(parent) && parent.Length == n
      ensures forall i | 0 <= i < n :: parent[i] == NoParent
      ensures forall i | 0 <= i < n :: Classes()[i] == i
    {
      parent := new int[n](_ => NoParent);
      depth := seq(n, _ => 0);
    }

    /** `getRoot`: follows parent links to the node whose parent is null. */
    method GetRoot(i: nat) returns (r: nat)
      requires Valid() && i < parent.Length
      ensures r < parent.Length && parent[r] == NoParent
      ensures r == Classes()[i]
      decreases depth[i]
    {
      if parent[i] == NoParent {
        r := i;
      } else {
        assert RootOf(parent[..], depth, i) == RootOf(parent[..], depth, parent[i]);
        r := GetRoot(parent[i]);
      }
    }

    /** `a.isConnected(b)`: equality of roots, so reflexive and symmetric. */
    method IsConnected(a: nat, b: nat) returns (connected: bool)
      requires Valid() && a < parent.Length && b < parent.Length
      ensures connected <==> Classes()[a] == Classes()[b]
    {
      var rb := GetRoot(b);
      var ra := GetRoot(a);
      connected := rb == ra;
    }

    /** `a.connect(b)`: the root of `b` gets `a` itself (not `a`'s root) as
        parent. Acyclicity needs `a` and `b` to be unconnected, as they are at
        the one call site. */
    method Connect(a: nat, b: nat)
      requires Valid() && a < parent.Length && b < parent.Length
      requires Classes()[a] != Classes()[b]
      modifies this, parent
      ensures Valid() && parent == old(parent)
      ensures parent[..] == old(parent[..])[old(Classes()[b]) := a]
      ensures Classes() == Merge(old(Classes()), old(Classes()[b]), old(Classes()[a]))
    {
      ghost var p, d := parent[..], depth;
      var rb := GetRoot(b);
      ConnectRoots(p, d, a, b);
      parent[rb] := a;
      depth := ConnectDepths(p, d, a, rb);
      assert parent[..] == p[rb := a];
    }
  }
}
