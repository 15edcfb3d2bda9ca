/** `hire` and `fire`: the two operations that change the tree. Each returns
    the new tree together with an outcome; a failed operation returns the
    tree it was given. */
module Staffing {
  import opened Wrappers
  import opened Seqs
  import opened Nodes
  import opened Charts
  import opened Lookup

  datatype HireOutcome = Hired(manager: Handle, newcomer: Handle) | ManagerNotFound

  datatype FireOutcome = Fired(boss: Handle, target: Handle) | NotFound | CannotFireRoot

  /** A tree after an operation, with what the operation reports. */
  datatype Step<O> = Step(chart: Chart, outcome: O)

  /** No employee in the tree has id `id`. */
  ghost predicate NoEmployee(c: Chart, id: int) {
    forall h :: h in c.nodes ==> !IsEmployee(c, h, id)
  }

  /** Manager resolution: the employee `findNode` yields for `managerId`;
      failing that, the root when `managerId` is 0. */
  function ResolveManager(c: Chart, managerId: int): (r: Option<Handle>)
    requires Valid(c)
    ensures r.None? <==> managerId != 0 && NoEmployee(c, managerId)
    ensures r.Some? ==> r.value in c.nodes
    ensures r.Some? && r.value != c.root ==> IsEmployee(c, r.value, managerId)
    ensures r.Some? && r.value == c.root ==> managerId == 0 && NoEmployee(c, managerId)
    ensures FindNode(c, managerId).Some? ==> r == FindNode(c, managerId)
  {
    match FindNode(c, managerId)
    case Some(m) => Some(m)
    case None => if managerId == 0 then Some(c.root) else None
  }

  /** The tree with a new employee node, under handle `c.next`, appended to
      the children of `m`. */
  function AddChild(c: Chart, m: Handle, e: Employee): (r: Chart)
    requires m in c.nodes && c.next !in c.nodes
    ensures r.root == c.root && r.next == c.next + 1
    ensures r.nodes.Keys == c.nodes.Keys + {c.next}
    ensures r.nodes[c.next] == Node(Staff(e), Some(m), [])
    ensures r.nodes[m] == c.nodes[m].(children := c.nodes[m].children + [c.next])
    ensures forall h :: h in c.nodes && h != m ==> r.nodes[h] == c.nodes[h]
  {
    var n := c.next;
    Chart(c.root,
          c.nodes[m := c.nodes[m].(children := c.nodes[m].children + [n])][n := Node(Staff(e), Some(m), [])],
          n + 1)
  }

  /** `hire`: attach a new employee under the resolved manager. */
  function Hire(c: Chart, managerId: int, e: Employee): (r: Step<HireOutcome>)
    requires Valid(c)
    ensures r.outcome.ManagerNotFound? <==> ResolveManager(c, managerId).None?
    ensures r.outcome.ManagerNotFound? ==> r.chart == c
    ensures r.outcome.Hired? ==>
      var m := r.outcome.manager;
      var n := r.outcome.newcomer;
      && Some(m) == ResolveManager(c, managerId)
      && n !in c.nodes
      && r.chart.root == c.root
      && r.chart.nodes.Keys == c.nodes.Keys + {n}
      && |r.chart.nodes| == |c.nodes| + 1
      && r.chart.nodes[n] == Node(Staff(e), Some(m), [])
      && r.chart.nodes[m].children == c.nodes[m].children + [n]
      && r.chart.nodes[m].kind == c.nodes[m].kind
      && r.chart.nodes[m].parent == c.nodes[m].parent
      && (forall h :: h in c.nodes && h != m ==> r.chart.nodes[h] == c.nodes[h])
  {
    match ResolveManager(c, managerId)
    case None => Step(c, ManagerNotFound)
    case Some(m) =>
      assert c.next !in c.nodes by {
        assert Fresh(c);
      }
      Step(AddChild(c, m, e), Hired(m, c.next))
  }

  /** The tree after `fire` of `x`, whose parent is `b`: each child of `x` is
      re-parented to `b` and appended to `b`'s children, then `x` is removed
      from `b`'s children and from the arena. */
  function Promote(c: Chart, x: Handle, b: Handle): (r: Chart)
    requires x in c.nodes
    ensures r.root == c.root && r.next == c.next
    ensures r.nodes.Keys == c.nodes.Keys - {x}
    ensures forall h :: h in r.nodes ==> r.nodes[h].kind == c.nodes[h].kind
    ensures forall h :: h in r.nodes ==>
      r.nodes[h].parent == (if h in c.nodes[x].children then Some(b) else c.nodes[h].parent)
    ensures forall h :: h in r.nodes ==>
      r.nodes[h].children ==
        (if h == b then Without(c.nodes[b].children + c.nodes[x].children, x) else c.nodes[h].children)
  {
    var kids := c.nodes[x].children;
    var nodes := map h | h in c.nodes && h != x ::
      var n := if h in kids then c.nodes[h].(parent := Some(b)) else c.nodes[h];
      if h == b then n.(children := Without(c.nodes[b].children + kids, x)) else n;
    Chart(c.root, nodes, c.next)
  }

  /** `fire`: remove the first employee with id `id`, promoting its children to its boss. */
  function Fire(c: Chart, id: int): (r: Step<FireOutcome>)
    requires Valid(c)
    ensures r.outcome.NotFound? <==> NoEmployee(c, id)
    ensures !r.outcome.Fired? ==> r.chart == c
    ensures !r.outcome.CannotFireRoot?
    ensures r.outcome.Fired? ==>
      var x := r.outcome.target;
      && Some(x) == FindNode(c, id)
      && c.nodes[x].parent == Some(r.outcome.boss)
      && r.chart.root == c.root
      && r.chart.nodes.Keys == c.nodes.Keys - {x}
      && |r.chart.nodes| == |c.nodes| - 1
  {
    match FindNode(c, id)
    case None => Step(c, NotFound)
    case Some(x) =>
      assert x != c.root by {
        assert RootOk(c);
      }
      DepthOfParent(c, x);
      match c.nodes[x].parent
      case None => Step(c, CannotFireRoot)
      case Some(b) => Step(Promote(c, x, b), Fired(b, x))
  }

  /** Adding a node changes no existing parent, so no existing rank. */
  lemma RankAfterAdd(c: Chart, m: Handle, e: Employee, h: Handle, fuel: nat)
    requires m in c.nodes && c.next !in c.nodes && Rank(c, h, fuel).Some?
    ensures Rank(AddChild(c, m, e), h, fuel) == Rank(c, h, fuel)
    decreases fuel
  {
    if h != c.root {
      RankAfterAdd(c, m, e, c.nodes[h].parent.value, fuel - 1);
    }
  }

  lemma AddChildValid(c: Chart, m: Handle, e: Employee)
    requires Valid(c) && m in c.nodes
    ensures Valid(AddChild(c, m, e))
  {
    var n := c.next;
    var c' := AddChild(c, m, e);
    assert n !in c.nodes by {
      assert Fresh(c);
    }
    assert NodeOk(c, m);
    forall h | h in c'.nodes ensures NodeOk(c', h) {
      if h == n {
        RankAfterAdd(c, m, e, m, c.next);
        assert Rank(c', m, c.next).Some?;
      } else {
        assert NodeOk(c, h);
        RankAfterAdd(c, m, e, h, c.next);
        RankMono(c', h, c.next, c'.next);
        if h != c.root {
          var p := c.nodes[h].parent.value;
          assert h in c'.nodes[p].children;
        }
        forall i | 0 <= i < |c'.nodes[h].children|
          ensures c'.nodes[h].children[i] in c'.nodes
          ensures c'.nodes[c'.nodes[h].children[i]].parent == Some(h)
        {
          if h == m && i == |c.nodes[m].children| {
          } else {
            var k := c.nodes[h].children[i];
            assert k in c.nodes && k != n;
          }
        }
        if h == m {
          NoDupConcat(c.nodes[m].children, [n]);
        }
      }
    }
  }

  /** `hire` keeps the tree invariant. */
  lemma HirePreservesValid(c: Chart, managerId: int, e: Employee)
    requires Valid(c)
    ensures Valid(Hire(c, managerId, e).chart)
  {
    var r := ResolveManager(c, managerId);
    if r.Some? {
      AddChildValid(c, r.value, e);
    }
  }

  /** After a successful `hire` the new employee can be found by its id; it is
      the one found unless an employee with that id was already there. */
  lemma HireThenFind(c: Chart, managerId: int, e: Employee)
    requires Valid(c) && Hire(c, managerId, e).outcome.Hired?
    ensures Valid(Hire(c, managerId, e).chart)
    ensures FindNode(Hire(c, managerId, e).chart, e.id).Some?
    ensures NoEmployee(c, e.id) ==>
      FindNode(Hire(c, managerId, e).chart, e.id) == Some(Hire(c, managerId, e).outcome.newcomer)
  {
    var r := Hire(c, managerId, e);
    var c' := r.chart;
    var n := r.outcome.newcomer;
    HirePreservesValid(c, managerId, e);
    assert IsEmployee(c', n, e.id);
    if NoEmployee(c, e.id) {
      forall h | h in c'.nodes && h != n ensures !IsEmployee(c', h, e.id) {
        assert !IsEmployee(c, h, e.id);
      }
    }
  }

  /** Facts about the node being fired and its neighbours. */
  lemma FireTargetFacts(c: Chart, x: Handle, b: Handle)
    requires Valid(c) && x in c.nodes && x != c.root && c.nodes[x].parent == Some(b)
    ensures b in c.nodes && b != x && x in c.nodes[b].children
    ensures forall i :: 0 <= i < |c.nodes[x].children| ==>
      && c.nodes[x].children[i] in c.nodes
      && c.nodes[x].children[i] != x
      && c.nodes[x].children[i] != b
      && c.nodes[x].children[i] != c.root
      && c.nodes[x].children[i] !in c.nodes[b].children
    ensures NoDup(c.nodes[x].children) && NoDup(c.nodes[b].children)
    ensures forall h :: h in c.nodes ==> (h in c.nodes[x].children <==> c.nodes[h].parent == Some(x))
  {
    DepthOfParent(c, x);
    assert NodeOk(c, x) && NodeOk(c, b);
    var kids := c.nodes[x].children;
    forall i | 0 <= i < |kids|
      ensures kids[i] in c.nodes && kids[i] != x && kids[i] != b && kids[i] != c.root
      ensures kids[i] !in c.nodes[b].children
    {
      DepthOfChild(c, x, i);
      forall j | 0 <= j < |c.nodes[b].children| ensures c.nodes[b].children[j] != kids[i] {
        DepthOfChild(c, b, j);
      }
    }
    forall h | h in c.nodes ensures h in kids <==> c.nodes[h].parent == Some(x) {
      ParentIffChild(c, h, x);
    }
  }

  /** Firing shortens the parent chain of the fired node's descendants by one
      and leaves every other chain alone. */
  lemma RankAfterPromote(c: Chart, x: Handle, b: Handle, h: Handle, fuel: nat)
    requires Valid(c) && x in c.nodes && x != c.root && c.nodes[x].parent == Some(b)
    requires h in c.nodes && h != x && Rank(c, h, fuel).Some?
    ensures Rank(Promote(c, x, b), h, fuel).Some?
    ensures Rank(Promote(c, x, b), h, fuel).value <= Rank(c, h, fuel).value
    decreases fuel
  {
    var c' := Promote(c, x, b);
    if h != c.root {
      var p := c.nodes[h].parent.value;
      ParentIffChild(c, h, x);
      if p == x {
        FireTargetFacts(c, x, b);
        RankAfterPromote(c, x, b, b, fuel - 2);
        RankMono(c', b, fuel - 2, fuel - 1);
      } else {
        RankAfterPromote(c, x, b, p, fuel - 1);
      }
    }
  }

  lemma PromoteValid(c: Chart, x: Handle, b: Handle)
    requires Valid(c) && x in c.nodes && x != c.root && c.nodes[x].parent == Some(b)
    ensures Valid(Promote(c, x, b))
  {
    var c' := Promote(c, x, b);
    var kids := c.nodes[x].children;
    FireTargetFacts(c, x, b);
    var merged := c.nodes[b].children + kids;
    assert RootOk(c');
    forall h | h in c'.nodes ensures NodeOk(c', h) {
      assert NodeOk(c, h);
      RankAfterPromote(c, x, b, h, c.next);
      PromoteLinkedUp(c, x, b, h);
      if h == b {
        PromoteLinkedDownBoss(c, x, b);
      } else {
        PromoteLinkedDownOther(c, x, b, h);
      }
    }
  }

  lemma PromoteLinkedUp(c: Chart, x: Handle, b: Handle, h: Handle)
    requires Valid(c) && x in c.nodes && x != c.root && c.nodes[x].parent == Some(b)
    requires h in c.nodes && h != x
    ensures LinkedUp(Promote(c, x, b), h)
  {
    var c' := Promote(c, x, b);
    var kids := c.nodes[x].children;
    FireTargetFacts(c, x, b);
    var merged := c.nodes[b].children + kids;
    if h != c.root {
      if h in kids {
        var i :| 0 <= i < |kids| && kids[i] == h;
        assert merged[|c.nodes[b].children| + i] == h;
      } else {
        assert NodeOk(c, h);
        var p := c.nodes[h].parent.value;
        if p == b {
          var i :| 0 <= i < |c.nodes[b].children| && c.nodes[b].children[i] == h;
          assert merged[i] == h;
        }
      }
    }
  }

  lemma PromoteLinkedDownBoss(c: Chart, x: Handle, b: Handle)
    requires Valid(c) && x in c.nodes && x != c.root && c.nodes[x].parent == Some(b)
    ensures b in Promote(c, x, b).nodes && LinkedDown(Promote(c, x, b), b)
  {
    var c' := Promote(c, x, b);
    var kids := c.nodes[x].children;
    FireTargetFacts(c, x, b);
    var merged := c.nodes[b].children + kids;
    assert NodeOk(c, b);
    forall i | 0 <= i < |c.nodes[b].children| ensures c.nodes[b].children[i] !in kids {
      var k := c.nodes[b].children[i];
      assert c.nodes[k].parent == Some(b);
    }
    NoDupConcat(c.nodes[b].children, kids);
    WithoutNoDup(merged, x);
    var l := c'.nodes[b].children;
    forall i | 0 <= i < |l| ensures l[i] in c'.nodes && c'.nodes[l[i]].parent == Some(b) {
      assert l[i] in merged && l[i] != x;
      var j :| 0 <= j < |merged| && merged[j] == l[i];
      if j < |c.nodes[b].children| {
        assert c.nodes[b].children[j] == l[i];
      } else {
        assert kids[j - |c.nodes[b].children|] == l[i];
      }
    }
  }

  lemma PromoteLinkedDownOther(c: Chart, x: Handle, b: Handle, p: Handle)
    requires Valid(c) && x in c.nodes && x != c.root && c.nodes[x].parent == Some(b)
    requires p in c.nodes && p != x && p != b
    ensures p in Promote(c, x, b).nodes && LinkedDown(Promote(c, x, b), p)
  {
    var c' := Promote(c, x, b);
    FireTargetFacts(c, x, b);
    assert NodeOk(c, p);
    forall i | 0 <= i < |c.nodes[p].children|
      ensures c.nodes[p].children[i] in c'.nodes
      ensures c'.nodes[c.nodes[p].children[i]].parent == Some(p)
    {
      var k := c.nodes[p].children[i];
      assert c.nodes[k].parent == Some(p);
    }
  }

  /** `fire` keeps the tree invariant. */
  lemma FirePreservesValid(c: Chart, id: int)
    requires Valid(c)
    ensures Valid(Fire(c, id).chart)
  {
    var r := Fire(c, id);
    if r.outcome.Fired? {
      assert RootOk(c);
      PromoteValid(c, r.outcome.target, r.outcome.boss);
    }
  }

  /** What a successful `fire` does to the boss and to the fired node's
      children: the children keep their order and move to the end of the
      boss's list, the fired node leaves it, and nothing else changes. */
  lemma FirePromotesChildren(c: Chart, id: int)
    requires Valid(c) && Fire(c, id).outcome.Fired?
    ensures
      var r := Fire(c, id);
      var x := r.outcome.target;
      var b := r.outcome.boss;
      var kids := c.nodes[x].children;
      && b in r.chart.nodes
      && r.chart.nodes[b].children == Without(c.nodes[b].children, x) + kids
      && |r.chart.nodes[b].children| == |c.nodes[b].children| - 1 + |kids|
      && (forall i :: 0 <= i < |kids| ==>
            kids[i] in r.chart.nodes && r.chart.nodes[kids[i]].parent == Some(b))
      && (forall h :: h in r.chart.nodes && h !in kids ==> r.chart.nodes[h].parent == c.nodes[h].parent)
      && (forall h :: h in r.chart.nodes && h != b ==> r.chart.nodes[h].children == c.nodes[h].children)
      && (forall h :: h in r.chart.nodes ==> r.chart.nodes[h].kind == c.nodes[h].kind)
  {
    var r := Fire(c, id);
    var x := r.outcome.target;
    var b := r.outcome.boss;
    var kids := c.nodes[x].children;
    assert RootOk(c);
    FireTargetFacts(c, x, b);
    WithoutConcat(c.nodes[b].children, kids, x);
    assert Without(kids, x) == kids;
    WithoutOnce(c.nodes[b].children, x);
  }
}
