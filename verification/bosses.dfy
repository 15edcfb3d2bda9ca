/** `findLowestCommonBoss`: the first node on the second employee's chain of
    bosses that also lies on the first employee's chain. */
module Bosses {
  import opened Wrappers
  import opened Nodes
  import opened Charts
  import opened Lookup

  /** `h`, its parent, its parent's parent, ... up to and including the root. */
  function AncestorPath(c: Chart, h: Handle): (r: seq<Handle>)
    requires Valid(c) && h in c.nodes
    ensures |r| == Depth(c, h) + 1 && r[0] == h && r[|r| - 1] == c.root
    ensures forall i :: 0 <= i < |r| ==> r[i] in c.nodes && Depth(c, r[i]) == Depth(c, h) - i
    ensures forall i :: 0 <= i < |r| - 1 ==> c.nodes[r[i]].parent == Some(r[i + 1])
    decreases Depth(c, h)
  {
    assert NodeOk(c, h) && RootOk(c);
    match c.nodes[h].parent
    case None => [h]
    case Some(p) =>
      DepthOfParent(c, h);
      [h] + AncestorPath(c, p)
  }

  /** `z` is `x` or one of its bosses. */
  ghost predicate IsAncestor(c: Chart, z: Handle, x: Handle)
    requires Valid(c) && x in c.nodes
  {
    z in AncestorPath(c, x)
  }

  /** The position in `path` of the first element that also occurs in `other`. */
  function FirstShared(path: seq<Handle>, other: seq<Handle>): (r: Option<nat>)
    ensures r.Some? ==> r.value < |path| && path[r.value] in other
    ensures r.Some? ==> forall j :: 0 <= j < r.value ==> path[j] !in other
    ensures r.None? ==> forall j :: 0 <= j < |path| ==> path[j] !in other
  {
    if path == [] then None
    else if path[0] in other then Some(0)
    else match FirstShared(path[1..], other)
      case None => None
      case Some(k) => Some(k + 1)
  }

  /** The lowest common boss of two nodes: walk up from `b` and stop at the
      first node that is on `a`'s chain. */
  function LowestCommonBoss(c: Chart, a: Handle, b: Handle): (r: Handle)
    requires Valid(c) && a in c.nodes && b in c.nodes
    ensures r in c.nodes && IsAncestor(c, r, a) && IsAncestor(c, r, b)
  {
    var pa := AncestorPath(c, a);
    var pb := AncestorPath(c, b);
    assert pb[|pb| - 1] in pa;
    var k := FirstShared(pb, pa).value;
    pb[k]
  }

  /** `findLowestCommonBoss(id1, id2)`: not found when either id names no
      employee; otherwise the lowest common boss of the two employees found. */
  function FindLowestCommonBoss(c: Chart, id1: int, id2: int): (r: Option<Handle>)
    requires Valid(c)
    ensures r.None? <==> FindNode(c, id1).None? || FindNode(c, id2).None?
    ensures r.Some? ==> r.value in c.nodes
    ensures r.Some? ==>
      IsAncestor(c, r.value, FindNode(c, id1).value) && IsAncestor(c, r.value, FindNode(c, id2).value)
  {
    match (FindNode(c, id1), FindNode(c, id2))
    case (Some(a), Some(b)) => Some(LowestCommonBoss(c, a, b))
    case _ => None
  }

  /** The name `findLowestCommonBoss` reports. */
  function LowestCommonBossName(c: Chart, id1: int, id2: int): Option<string>
    requires Valid(c)
  {
    match FindLowestCommonBoss(c, id1, id2)
    case None => None
    case Some(z) => Some(DisplayName(c.nodes[z].kind))
  }

  /** The element of an ancestor path at a given depth is determined by that depth. */
  lemma PathIndex(c: Chart, x: Handle, z: Handle)
    requires Valid(c) && x in c.nodes && z in AncestorPath(c, x)
    ensures Depth(c, z) <= Depth(c, x)
    ensures AncestorPath(c, x)[Depth(c, x) - Depth(c, z)] == z
  {
  }

  /** The chain of an ancestor is the tail of the chain. */
  lemma {:induction false} PathSuffix(c: Chart, x: Handle, i: nat)
    requires Valid(c) && x in c.nodes && i < |AncestorPath(c, x)|
    ensures AncestorPath(c, x)[i..] == AncestorPath(c, AncestorPath(c, x)[i])
    decreases i
  {
    if i > 0 {
      assert NodeOk(c, x) && RootOk(c);
      var p := c.nodes[x].parent.value;
      assert AncestorPath(c, x) == [x] + AncestorPath(c, p);
      PathSuffix(c, p, i - 1);
      assert AncestorPath(c, x)[i..] == AncestorPath(c, p)[i - 1..];
    }
  }

  /** The lowest common boss is the deepest common ancestor: every node that
      is an ancestor of both is an ancestor of it. */
  lemma {:induction false} LowestCommonBossDeepest(c: Chart, a: Handle, b: Handle, w: Handle)
    requires Valid(c) && a in c.nodes && b in c.nodes
    requires IsAncestor(c, w, a) && IsAncestor(c, w, b)
    ensures Depth(c, w) <= Depth(c, LowestCommonBoss(c, a, b))
    ensures IsAncestor(c, w, LowestCommonBoss(c, a, b))
  {
    var z := LowestCommonBoss(c, a, b);
    var pa := AncestorPath(c, a);
    var pb := AncestorPath(c, b);
    var k := FirstShared(pb, pa).value;
    assert pb[k] == z;
    PathIndex(c, b, w);
    PathIndex(c, b, z);
    var iw := Depth(c, b) - Depth(c, w);
    assert pb[iw] == w && w in pa;
    assert k <= iw;
    PathSuffix(c, b, k);
    assert pb[k..] == AncestorPath(c, z);
    assert AncestorPath(c, z)[iw - k] == w;
  }

  /** Two ancestors of the same node with the same depth are the same node. */
  lemma AncestorByDepth(c: Chart, x: Handle, y: Handle, z: Handle)
    requires Valid(c) && x in c.nodes
    requires IsAncestor(c, y, x) && IsAncestor(c, z, x) && Depth(c, y) == Depth(c, z)
    ensures y == z
  {
    PathIndex(c, x, y);
    PathIndex(c, x, z);
  }

  /** The order of the two ids does not matter. */
  lemma LowestCommonBossSymmetric(c: Chart, a: Handle, b: Handle)
    requires Valid(c) && a in c.nodes && b in c.nodes
    ensures LowestCommonBoss(c, a, b) == LowestCommonBoss(c, b, a)
  {
    var z := LowestCommonBoss(c, a, b);
    var z' := LowestCommonBoss(c, b, a);
    LowestCommonBossDeepest(c, a, b, z');
    LowestCommonBossDeepest(c, b, a, z);
    AncestorByDepth(c, a, z, z');
  }

  /** A node is its own lowest common boss with itself. */
  lemma LowestCommonBossSelf(c: Chart, a: Handle)
    requires Valid(c) && a in c.nodes
    ensures LowestCommonBoss(c, a, a) == a
  {
    var pa := AncestorPath(c, a);
    assert pa[0] == a;
    var k := FirstShared(pa, pa).value;
    assert k == 0;
  }

  /** Two distinct nodes with the same parent have that parent as their lowest common boss. */
  lemma LowestCommonBossSiblings(c: Chart, a: Handle, b: Handle, p: Handle)
    requires Valid(c) && a in c.nodes && b in c.nodes && a != b
    requires c.nodes[a].parent == Some(p) && c.nodes[b].parent == Some(p)
    ensures LowestCommonBoss(c, a, b) == p
  {
    assert RootOk(c);
    DepthOfParent(c, a);
    DepthOfParent(c, b);
    var pa := AncestorPath(c, a);
    var pb := AncestorPath(c, b);
    assert pb[1] == p && pa[1] == p;
    forall i | 0 <= i < |pa| ensures pa[i] != b {
      if i > 0 {
        assert Depth(c, pa[i]) < Depth(c, b);
      }
    }
    var k := FirstShared(pb, pa).value;
    assert k == 1;
  }

  /** With the ids in either order, `findLowestCommonBoss` reports the same node. */
  lemma FindLowestCommonBossSymmetric(c: Chart, id1: int, id2: int)
    requires Valid(c)
    ensures FindLowestCommonBoss(c, id1, id2) == FindLowestCommonBoss(c, id2, id1)
  {
    if FindNode(c, id1).Some? && FindNode(c, id2).Some? {
      LowestCommonBossSymmetric(c, FindNode(c, id1).value, FindNode(c, id2).value);
    }
  }

  /** An employee's lowest common boss with itself is that employee. */
  lemma FindLowestCommonBossSelf(c: Chart, id: int)
    requires Valid(c) && FindNode(c, id).Some?
    ensures FindLowestCommonBoss(c, id, id) == FindNode(c, id)
  {
    LowestCommonBossSelf(c, FindNode(c, id).value);
  }
}
