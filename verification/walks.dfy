/** The depth-first pre-order walk shared by `displayRecursive` and
    `saveRecursive`: a node, then the walk of each child in insertion order. */
module Walks {
  import opened Nodes
  import opened Charts

  /** The handles of the subtree rooted at `h`, in pre-order. */
  function PreOrder(c: Chart, h: Handle): (r: seq<Handle>)
    requires Valid(c) && h in c.nodes
    ensures r != [] && r[0] == h
    ensures forall i :: 0 <= i < |r| ==> r[i] in c.nodes
    decreases c.next - Depth(c, h), 1, 0
  {
    [h] + PreOrderKids(c, h, |c.nodes[h].children|)
  }

  /** The pre-order walks of the first `n` children of `p`, one after another. */
  function PreOrderKids(c: Chart, p: Handle, n: nat): (r: seq<Handle>)
    requires Valid(c) && p in c.nodes && n <= |c.nodes[p].children|
    ensures forall i :: 0 <= i < |r| ==> r[i] in c.nodes
    decreases c.next - Depth(c, p), 0, n
  {
    if n == 0 then []
    else
      DepthOfChild(c, p, n - 1);
      PreOrderKids(c, p, n - 1) + PreOrder(c, c.nodes[p].children[n - 1])
  }
}
