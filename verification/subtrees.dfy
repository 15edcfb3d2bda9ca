/** The pre-order walk from a node lists exactly the nodes of its subtree,
    each once; from the root it lists the whole tree. */
module Subtrees {
  import opened Seqs
  import opened Nodes
  import opened Charts
  import opened Walks
  import opened Bosses

  /** The boss of `y` at depth `d` (`y` itself when `d` is its depth). */
  ghost function BossAt(c: Chart, y: Handle, d: nat): (z: Handle)
    requires Valid(c) && y in c.nodes && d <= Depth(c, y)
    ensures z in c.nodes && Depth(c, z) == d
  {
    AncestorPath(c, y)[Depth(c, y) - d]
  }

  /** A boss's boss at a shallower depth is the node's boss at that depth. */
  lemma BossAtBossAt(c: Chart, y: Handle, d: nat, e: nat)
    requires Valid(c) && y in c.nodes && e <= d <= Depth(c, y)
    ensures BossAt(c, BossAt(c, y, d), e) == BossAt(c, y, e)
  {
    var i := Depth(c, y) - d;
    PathSuffix(c, y, i);
    assert AncestorPath(c, y)[i..][d - e] == AncestorPath(c, y)[Depth(c, y) - e];
  }

  /** One level up from a node other than the root is its parent. */
  lemma BossAtParent(c: Chart, k: Handle)
    requires Valid(c) && k in c.nodes && k != c.root
    ensures c.nodes[k].parent.Some? && BossAt(c, k, Depth(c, k) - 1) == c.nodes[k].parent.value
  {
    DepthOfParent(c, k);
    assert NodeOk(c, k);
  }

  /** Every node's boss at depth 0 is the root. */
  lemma BossAtRoot(c: Chart, y: Handle)
    requires Valid(c) && y in c.nodes
    ensures BossAt(c, y, 0) == c.root
  {
  }

  /** Every node on the walk from `h` lies at or below `h`. */
  lemma {:induction false} WalkBelow(c: Chart, h: Handle)
    requires Valid(c) && h in c.nodes
    ensures forall i :: 0 <= i < |PreOrder(c, h)| ==>
      Depth(c, h) <= Depth(c, PreOrder(c, h)[i]) && BossAt(c, PreOrder(c, h)[i], Depth(c, h)) == h
    decreases c.next - Depth(c, h), 1, 0
  {
    var n := |c.nodes[h].children|;
    var w := PreOrder(c, h);
    var kw := PreOrderKids(c, h, n);
    KidsBelow(c, h, n);
    assert w == [h] + kw;
    forall i | 0 <= i < |w| ensures Depth(c, h) <= Depth(c, w[i]) && BossAt(c, w[i], Depth(c, h)) == h {
      if i > 0 {
        var y := w[i];
        assert y == kw[i - 1];
        var k := BossAt(c, y, Depth(c, h) + 1);
        var j :| 0 <= j < n && c.nodes[h].children[j] == k;
        DepthOfChild(c, h, j);
        BossAtParent(c, k);
        BossAtBossAt(c, y, Depth(c, h) + 1, Depth(c, h));
      }
    }
  }

  /** Every node on the walks of the first `n` children of `p` lies strictly
      below `p`, under one of those children. */
  lemma {:induction false} KidsBelow(c: Chart, p: Handle, n: nat)
    requires Valid(c) && p in c.nodes && n <= |c.nodes[p].children|
    ensures forall i :: 0 <= i < |PreOrderKids(c, p, n)| ==>
      Depth(c, p) < Depth(c, PreOrderKids(c, p, n)[i]) &&
      BossAt(c, PreOrderKids(c, p, n)[i], Depth(c, p) + 1) in c.nodes[p].children[..n]
    decreases c.next - Depth(c, p), 0, n
  {
    if n > 0 {
      var k := c.nodes[p].children[n - 1];
      DepthOfChild(c, p, n - 1);
      KidsBelow(c, p, n - 1);
      WalkBelow(c, k);
      var a := PreOrderKids(c, p, n - 1);
      var b := PreOrder(c, k);
      assert PreOrderKids(c, p, n) == a + b;
      assert c.nodes[p].children[..n] == c.nodes[p].children[..n - 1] + [k];
      forall i | 0 <= i < |a + b|
        ensures Depth(c, p) < Depth(c, (a + b)[i])
        ensures BossAt(c, (a + b)[i], Depth(c, p) + 1) in c.nodes[p].children[..n]
      {
        if i < |a| {
          assert (a + b)[i] == a[i];
        } else {
          assert (a + b)[i] == b[i - |a|];
        }
      }
    }
  }

  /** The walks of the first `n` children hold every node on the walk of any one of them. */
  lemma {:induction false} KidsContain(c: Chart, p: Handle, n: nat, j: nat)
    requires Valid(c) && p in c.nodes && j < n <= |c.nodes[p].children|
    ensures c.nodes[p].children[j] in c.nodes
    ensures forall i :: 0 <= i < |PreOrder(c, c.nodes[p].children[j])| ==>
      PreOrder(c, c.nodes[p].children[j])[i] in PreOrderKids(c, p, n)
    decreases n
  {
    DepthOfChild(c, p, j);
    DepthOfChild(c, p, n - 1);
    var w := PreOrder(c, c.nodes[p].children[j]);
    var a := PreOrderKids(c, p, n - 1);
    var b := PreOrder(c, c.nodes[p].children[n - 1]);
    assert PreOrderKids(c, p, n) == a + b;
    if j < n - 1 {
      KidsContain(c, p, n - 1, j);
    }
    forall i | 0 <= i < |w| ensures w[i] in a + b {
      if j < n - 1 {
        assert w[i] in a;
      } else {
        assert w[i] == b[i];
      }
    }
  }

  /** Every node at or below `h` is on the walk from `h`. */
  lemma {:induction false} WalkReaches(c: Chart, h: Handle, x: Handle)
    requires Valid(c) && h in c.nodes && x in c.nodes
    requires Depth(c, h) <= Depth(c, x) && BossAt(c, x, Depth(c, h)) == h
    ensures x in PreOrder(c, h)
    decreases c.next - Depth(c, h)
  {
    var w := PreOrder(c, h);
    if Depth(c, x) == Depth(c, h) {
      assert x == AncestorPath(c, x)[0];
      assert w[0] == x;
    } else {
      var k := BossAt(c, x, Depth(c, h) + 1);
      BossAtBossAt(c, x, Depth(c, h) + 1, Depth(c, h));
      assert Depth(c, k) == Depth(c, h) + 1;
      assert k != c.root;
      BossAtParent(c, k);
      ParentIffChild(c, k, h);
      var n := |c.nodes[h].children|;
      var j :| 0 <= j < n && c.nodes[h].children[j] == k;
      WalkReaches(c, k, x);
      KidsContain(c, h, n, j);
      var kw := PreOrderKids(c, h, n);
      assert x in kw;
      assert w == [h] + kw;
    }
  }

  /** No node is listed twice on the walk from `h`. */
  lemma {:induction false} WalkNoDup(c: Chart, h: Handle)
    requires Valid(c) && h in c.nodes
    ensures NoDup(PreOrder(c, h))
    decreases c.next - Depth(c, h), 1, 0
  {
    var n := |c.nodes[h].children|;
    var kw := PreOrderKids(c, h, n);
    KidsNoDup(c, h, n);
    KidsBelow(c, h, n);
    forall i | 0 <= i < |kw| ensures kw[i] != h {
      assert Depth(c, h) < Depth(c, kw[i]);
    }
    NoDupConcat([h], kw);
  }

  lemma {:induction false} KidsNoDup(c: Chart, p: Handle, n: nat)
    requires Valid(c) && p in c.nodes && n <= |c.nodes[p].children|
    ensures NoDup(PreOrderKids(c, p, n))
    decreases c.next - Depth(c, p), 0, n
  {
    if n > 0 {
      var kids := c.nodes[p].children;
      var k := kids[n - 1];
      DepthOfChild(c, p, n - 1);
      assert NodeOk(c, p);
      KidsNoDup(c, p, n - 1);
      KidsBelow(c, p, n - 1);
      WalkNoDup(c, k);
      WalkBelow(c, k);
      var a := PreOrderKids(c, p, n - 1);
      var b := PreOrder(c, k);
      var earlier := kids[..n - 1];
      assert k !in earlier by {
        forall j | 0 <= j < |earlier| ensures earlier[j] != k {
          assert earlier[j] == kids[j];
        }
      }
      forall i | 0 <= i < |a| ensures a[i] !in b {
        var y := a[i];
        var d := Depth(c, p) + 1;
        assert BossAt(c, y, d) in earlier;
        forall j | 0 <= j < |b| ensures b[j] != y {
          assert BossAt(c, b[j], d) == k;
        }
      }
      NoDupConcat(a, b);
      assert PreOrderKids(c, p, n) == a + b;
    }
  }

  /** The walk from `h` lists exactly the nodes at or below `h`, each once. */
  lemma WalkIsSubtree(c: Chart, h: Handle)
    requires Valid(c) && h in c.nodes
    ensures NoDup(PreOrder(c, h))
    ensures forall x :: x in PreOrder(c, h) <==>
      x in c.nodes && Depth(c, h) <= Depth(c, x) && BossAt(c, x, Depth(c, h)) == h
  {
    WalkNoDup(c, h);
    WalkBelow(c, h);
    forall x | x in c.nodes && Depth(c, h) <= Depth(c, x) && BossAt(c, x, Depth(c, h)) == h
      ensures x in PreOrder(c, h)
    {
      WalkReaches(c, h, x);
    }
  }

  /** The walk from the root lists every node of the tree exactly once. */
  lemma WalkCoversTree(c: Chart)
    requires Valid(c)
    ensures NoDup(PreOrder(c, c.root))
    ensures forall x :: x in PreOrder(c, c.root) <==> x in c.nodes
  {
    assert RootOk(c);
    WalkIsSubtree(c, c.root);
    forall x | x in c.nodes ensures x in PreOrder(c, c.root) {
      BossAtRoot(c, x);
    }
  }
}
