/** The organisation tree as an arena: nodes indexed by handle, a root handle,
    and the next unused handle. `Valid` is the tree invariant every operation
    keeps: a single department root, parent and children lists that agree,
    and parent chains that all end at the root (so no cycles and no
    unreachable nodes). */
module Charts {
  import opened Wrappers
  import opened Seqs
  import opened Nodes

  datatype Chart = Chart(root: Handle, nodes: map<Handle, Node>, next: Handle)

  /** The number of parent steps from `h` up to the root, if the chain gets
      there within `fuel` steps. */
  function Rank(c: Chart, h: Handle, fuel: nat): Option<nat>
    decreases fuel
  {
    if h !in c.nodes then None
    else if h == c.root then Some(0)
    else match c.nodes[h].parent
      case None => None
      case Some(p) =>
        if fuel == 0 then None
        else match Rank(c, p, fuel - 1)
          case None => None
          case Some(d) => Some(d + 1)
  }

  /** The root is a department without a parent. */
  ghost predicate RootOk(c: Chart) {
    && c.root in c.nodes
    && c.nodes[c.root].kind.Department?
    && c.nodes[c.root].parent == None
  }

  /** Every handle in use is below the allocator. */
  ghost predicate Fresh(c: Chart) {
    forall h :: h in c.nodes ==> h < c.next
  }

  /** A node other than the root has a parent in the arena whose children list holds it. */
  ghost predicate LinkedUp(c: Chart, h: Handle)
    requires h in c.nodes
  {
    h != c.root ==>
      && c.nodes[h].parent.Some?
      && c.nodes[h].parent.value in c.nodes
      && h in c.nodes[c.nodes[h].parent.value].children
  }

  /** The children of `p` are distinct nodes of the arena whose parent is `p`. */
  ghost predicate LinkedDown(c: Chart, p: Handle)
    requires p in c.nodes
  {
    && NoDup(c.nodes[p].children)
    && forall i :: 0 <= i < |c.nodes[p].children| ==>
         && c.nodes[p].children[i] in c.nodes
         && c.nodes[c.nodes[p].children[i]].parent == Some(p)
  }

  /** The parent chain of `h` reaches the root. */
  ghost predicate Grounded(c: Chart, h: Handle) {
    Rank(c, h, c.next).Some?
  }

  ghost predicate NodeOk(c: Chart, h: Handle)
    requires h in c.nodes
  {
    LinkedUp(c, h) && LinkedDown(c, h) && Grounded(c, h)
  }

  /** The tree invariant. */
  ghost predicate Valid(c: Chart) {
    && RootOk(c)
    && Fresh(c)
    && forall h {:trigger NodeOk(c, h)} :: h in c.nodes ==> NodeOk(c, h)
  }

  /** The tree a new organisation starts with: one department, the company. */
  function Init(companyName: string): (c: Chart)
    ensures Valid(c)
    ensures c.nodes.Keys == {c.root}
    ensures c.nodes[c.root].kind == Department(companyName)
    ensures c.nodes[c.root].children == []
  {
    var c := Chart(0, map[0 := Node(Department(companyName), None, [])], 1);
    assert Rank(c, 0, 1) == Some(0);
    c
  }

  lemma RankBound(c: Chart, h: Handle, fuel: nat)
    requires Rank(c, h, fuel).Some?
    ensures Rank(c, h, fuel).value <= fuel
    decreases fuel
  {
    if h != c.root {
      RankBound(c, c.nodes[h].parent.value, fuel - 1);
    }
  }

  /** A rank, once found, does not depend on how much more fuel is given. */
  lemma RankMono(c: Chart, h: Handle, fuel: nat, more: nat)
    requires Rank(c, h, fuel).Some? && fuel <= more
    ensures Rank(c, h, more) == Rank(c, h, fuel)
    decreases fuel
  {
    if h != c.root {
      RankMono(c, c.nodes[h].parent.value, fuel - 1, more - 1);
    }
  }

  /** The depth of a node: its distance from the root. */
  function Depth(c: Chart, h: Handle): (d: nat)
    requires Valid(c) && h in c.nodes
    ensures d <= c.next
    ensures d == 0 <==> h == c.root
  {
    assert NodeOk(c, h);
    RankBound(c, h, c.next);
    Rank(c, h, c.next).value
  }

  /** A node other than the root has a parent one level up. */
  lemma DepthOfParent(c: Chart, h: Handle)
    requires Valid(c) && h in c.nodes && h != c.root
    ensures c.nodes[h].parent.Some?
    ensures c.nodes[h].parent.value in c.nodes
    ensures h in c.nodes[c.nodes[h].parent.value].children
    ensures Depth(c, c.nodes[h].parent.value) + 1 == Depth(c, h)
  {
    assert NodeOk(c, h);
    var p := c.nodes[h].parent.value;
    RankMono(c, p, c.next - 1, c.next);
  }

  /** A child sits one level below its parent and is not the root. */
  lemma DepthOfChild(c: Chart, p: Handle, i: nat)
    requires Valid(c) && p in c.nodes && i < |c.nodes[p].children|
    ensures c.nodes[p].children[i] in c.nodes
    ensures c.nodes[c.nodes[p].children[i]].parent == Some(p)
    ensures c.nodes[p].children[i] != c.root
    ensures Depth(c, c.nodes[p].children[i]) == Depth(c, p) + 1
  {
    assert NodeOk(c, p);
    DepthOfParent(c, c.nodes[p].children[i]);
  }

  /** Parent and children lists describe the same edges. */
  lemma ParentIffChild(c: Chart, h: Handle, p: Handle)
    requires Valid(c) && h in c.nodes && p in c.nodes
    ensures c.nodes[h].parent == Some(p) <==> h in c.nodes[p].children
  {
    assert NodeOk(c, h) && NodeOk(c, p);
    if h in c.nodes[p].children {
      var i :| 0 <= i < |c.nodes[p].children| && c.nodes[p].children[i] == h;
    }
  }
}
