/** `findNode`: a breadth-first search from the root, children in insertion
    order, that stops at the first employee with the requested id. */
module Lookup {
  import opened Wrappers
  import opened Seqs
  import opened Nodes
  import opened Charts

  /** The node `h` exists and is an employee with id `id`. */
  ghost predicate IsEmployee(c: Chart, h: Handle, id: int) {
    h in c.nodes && HasId(c.nodes[h].kind, id)
  }

  ghost predicate ParentIn(c: Chart, x: Handle, seen: set<Handle>)
    requires x in c.nodes
  {
    c.nodes[x].parent.Some? && c.nodes[x].parent.value in seen
  }

  /** The state of the breadth-first queue: `seen` holds the nodes already
      popped, `q` the nodes waiting. Every waiting or popped node other than
      the root was pushed by its parent, so its parent has been popped; every
      child of a popped node has been pushed. */
  ghost predicate QueueOk(c: Chart, seen: set<Handle>, q: seq<Handle>) {
    && seen <= c.nodes.Keys
    && (forall i :: 0 <= i < |q| ==>
          q[i] in c.nodes && q[i] !in seen && (q[i] == c.root || ParentIn(c, q[i], seen)))
    && NoDup(q)
    && (forall x :: x in seen ==> x == c.root || ParentIn(c, x, seen))
    && (c.root in seen || c.root in q)
    && (forall x, i :: x in seen && 0 <= i < |c.nodes[x].children| ==>
          c.nodes[x].children[i] in seen || c.nodes[x].children[i] in q)
  }

  /** The children of the node at the front of the queue have been neither
      popped nor pushed yet. */
  lemma FrontChildren(c: Chart, seen: set<Handle>, q: seq<Handle>)
    requires Valid(c) && QueueOk(c, seen, q) && q != []
    ensures forall i :: 0 <= i < |c.nodes[q[0]].children| ==>
      && c.nodes[q[0]].children[i] in c.nodes
      && c.nodes[c.nodes[q[0]].children[i]].parent == Some(q[0])
      && c.nodes[q[0]].children[i] != c.root
      && c.nodes[q[0]].children[i] !in seen
      && c.nodes[q[0]].children[i] !in q
  {
    var h := q[0];
    var kids := c.nodes[h].children;
    forall i | 0 <= i < |kids|
      ensures kids[i] in c.nodes && c.nodes[kids[i]].parent == Some(h) && kids[i] != c.root
      ensures kids[i] !in seen && kids[i] !in q
    {
      DepthOfChild(c, h, i);
      forall j | 0 <= j < |q| ensures q[j] != kids[i] {
        assert q[j] == c.root || ParentIn(c, q[j], seen);
      }
    }
  }

  /** Popping the front of the queue and pushing its children keeps the queue well formed. */
  lemma BfsStep(c: Chart, seen: set<Handle>, q: seq<Handle>)
    requires Valid(c) && QueueOk(c, seen, q) && q != []
    ensures QueueOk(c, seen + {q[0]}, q[1..] + c.nodes[q[0]].children)
  {
    var h := q[0];
    var kids := c.nodes[h].children;
    var seen' := seen + {h};
    var q' := q[1..] + kids;
    FrontChildren(c, seen, q);
    forall i | 0 <= i < |q'|
      ensures q'[i] in c.nodes && q'[i] !in seen'
      ensures q'[i] == c.root || ParentIn(c, q'[i], seen')
    {
      if i < |q| - 1 {
        assert q'[i] == q[i + 1];
      } else {
        assert q'[i] == kids[i - (|q| - 1)];
      }
    }
    NoDupTail(q);
    assert NoDup(kids) by {
      assert NodeOk(c, h);
    }
    forall i | 0 <= i < |q[1..]| ensures q[1..][i] !in kids {
      assert q[1..][i] == q[i + 1];
    }
    NoDupConcat(q[1..], kids);
    forall x | x in seen' ensures x == c.root || ParentIn(c, x, seen') {
    }
    assert c.root in seen' || c.root in q' by {
      if c.root in q && c.root != h {
        var j :| 0 <= j < |q| && q[j] == c.root;
        assert q'[j - 1] == c.root;
      }
    }
    forall x, i | x in seen' && 0 <= i < |c.nodes[x].children|
      ensures c.nodes[x].children[i] in seen' || c.nodes[x].children[i] in q'
    {
      if x == h {
        assert q'[|q| - 1 + i] == kids[i];
      } else {
        var y := c.nodes[x].children[i];
        if y in q && y != h {
          var j :| 0 <= j < |q| && q[j] == y;
          assert q'[j - 1] == y;
        }
      }
    }
  }

  /** Breadth-first order of everything still reachable from the queue. */
  function BfsFrom(c: Chart, seen: set<Handle>, q: seq<Handle>): (r: seq<Handle>)
    requires Valid(c) && QueueOk(c, seen, q)
    ensures forall i :: 0 <= i < |r| ==> r[i] in c.nodes && r[i] !in seen
    decreases c.nodes.Keys - seen
  {
    if q == [] then []
    else
      BfsStep(c, seen, q);
      [q[0]] + BfsFrom(c, seen + {q[0]}, q[1..] + c.nodes[q[0]].children)
  }

  lemma QueueStart(c: Chart)
    requires Valid(c)
    ensures QueueOk(c, {}, [c.root])
  {
  }

  /** The whole tree in breadth-first order, as `findNode` visits it. */
  function BfsOrder(c: Chart): seq<Handle>
    requires Valid(c)
  {
    QueueStart(c);
    BfsFrom(c, {}, [c.root])
  }

  /** When the queue is empty, every node has been popped. */
  lemma QueueDrained(c: Chart, seen: set<Handle>, x: Handle)
    requires Valid(c) && QueueOk(c, seen, []) && x in c.nodes
    ensures x in seen
    decreases Depth(c, x)
  {
    if x != c.root {
      DepthOfParent(c, x);
      var p := c.nodes[x].parent.value;
      QueueDrained(c, seen, p);
      var i :| 0 <= i < |c.nodes[p].children| && c.nodes[p].children[i] == x;
    }
  }

  /** The traversal from a queue state visits each unseen node exactly once. */
  lemma {:induction false} BfsFromVisits(c: Chart, seen: set<Handle>, q: seq<Handle>)
    requires Valid(c) && QueueOk(c, seen, q)
    ensures NoDup(BfsFrom(c, seen, q))
    ensures forall x :: x in c.nodes && x !in seen ==> x in BfsFrom(c, seen, q)
    decreases c.nodes.Keys - seen
  {
    if q == [] {
      forall x | x in c.nodes ensures x in seen {
        QueueDrained(c, seen, x);
      }
    } else {
      var h := q[0];
      var seen' := seen + {h};
      var q' := q[1..] + c.nodes[h].children;
      BfsStep(c, seen, q);
      BfsFromVisits(c, seen', q');
      var rest := BfsFrom(c, seen', q');
      assert BfsFrom(c, seen, q) == [h] + rest;
      NoDupConcat([h], rest);
    }
  }

  /** The traversal from a queue state starts with the front of the queue. */
  lemma BfsFromFront(c: Chart, seen: set<Handle>, q: seq<Handle>)
    requires Valid(c) && QueueOk(c, seen, q) && q != []
    ensures BfsFrom(c, seen, q) != [] && BfsFrom(c, seen, q)[0] == q[0]
  {
    BfsStep(c, seen, q);
  }

  /** Depths along the queue never decrease and span at most one level. */
  ghost predicate Levelled(c: Chart, q: seq<Handle>)
    requires Valid(c) && forall i :: 0 <= i < |q| ==> q[i] in c.nodes
  {
    && (forall i, j :: 0 <= i < j < |q| ==> Depth(c, q[i]) <= Depth(c, q[j]))
    && (q != [] ==> Depth(c, q[|q| - 1]) <= Depth(c, q[0]) + 1)
  }

  lemma LevelledStep(c: Chart, seen: set<Handle>, q: seq<Handle>)
    requires Valid(c) && QueueOk(c, seen, q) && q != [] && Levelled(c, q)
    ensures QueueOk(c, seen + {q[0]}, q[1..] + c.nodes[q[0]].children)
    ensures Levelled(c, q[1..] + c.nodes[q[0]].children)
    ensures q[1..] + c.nodes[q[0]].children != [] ==>
      Depth(c, q[0]) <= Depth(c, (q[1..] + c.nodes[q[0]].children)[0])
  {
    var h := q[0];
    var kids := c.nodes[h].children;
    var q' := q[1..] + kids;
    BfsStep(c, seen, q);
    forall i | 0 <= i < |kids| ensures Depth(c, kids[i]) == Depth(c, h) + 1 {
      DepthOfChild(c, h, i);
    }
    forall i, j | 0 <= i < j < |q'| ensures Depth(c, q'[i]) <= Depth(c, q'[j]) {
      if j < |q| - 1 {
        assert q'[i] == q[i + 1] && q'[j] == q[j + 1];
      } else if i < |q| - 1 {
        assert q'[i] == q[i + 1] && q'[j] == kids[j - (|q| - 1)];
      } else {
        assert q'[i] == kids[i - (|q| - 1)] && q'[j] == kids[j - (|q| - 1)];
      }
    }
    if q' != [] {
      if |q| > 1 {
        assert q'[0] == q[1];
      } else {
        assert q'[0] == kids[0];
      }
      if |kids| > 0 {
        assert q'[|q'| - 1] == kids[|kids| - 1];
      } else {
        assert q'[|q'| - 1] == q[|q| - 1];
      }
    }
  }

  /** The traversal from a levelled queue visits nodes in order of depth. */
  lemma {:induction false} BfsFromByDepth(c: Chart, seen: set<Handle>, q: seq<Handle>)
    requires Valid(c) && QueueOk(c, seen, q) && Levelled(c, q)
    ensures forall i, j :: 0 <= i < j < |BfsFrom(c, seen, q)| ==>
      Depth(c, BfsFrom(c, seen, q)[i]) <= Depth(c, BfsFrom(c, seen, q)[j])
    decreases c.nodes.Keys - seen
  {
    if q != [] {
      var h := q[0];
      var seen' := seen + {h};
      var q' := q[1..] + c.nodes[h].children;
      LevelledStep(c, seen, q);
      BfsFromByDepth(c, seen', q');
      var r := BfsFrom(c, seen, q);
      var rest := BfsFrom(c, seen', q');
      assert r == [h] + rest;
      if rest != [] {
        BfsFromFront(c, seen', q');
      }
      forall i, j | 0 <= i < j < |r| ensures Depth(c, r[i]) <= Depth(c, r[j]) {
        assert r[j] == rest[j - 1];
        if i > 0 {
          assert r[i] == rest[i - 1];
        } else if j > 1 {
          assert Depth(c, rest[0]) <= Depth(c, rest[j - 1]);
        }
      }
    }
  }

  /** Breadth-first order lists every node of the tree exactly once, starting
      at the root, and never visits a deeper node before a shallower one. */
  lemma BfsOrderComplete(c: Chart)
    requires Valid(c)
    ensures NoDup(BfsOrder(c))
    ensures forall x :: x in BfsOrder(c) <==> x in c.nodes
    ensures BfsOrder(c)[0] == c.root
    ensures forall i, j :: 0 <= i < j < |BfsOrder(c)| ==>
      Depth(c, BfsOrder(c)[i]) <= Depth(c, BfsOrder(c)[j])
  {
    QueueStart(c);
    BfsFromVisits(c, {}, [c.root]);
    BfsFromFront(c, {}, [c.root]);
    BfsFromByDepth(c, {}, [c.root]);
  }

  /** The position of the first employee with id `id` in `hs`. */
  function FirstWithId(c: Chart, hs: seq<Handle>, id: int): (r: Option<nat>)
    requires forall i :: 0 <= i < |hs| ==> hs[i] in c.nodes
    ensures r.Some? ==> r.value < |hs| && IsEmployee(c, hs[r.value], id)
    ensures r.Some? ==> forall j :: 0 <= j < r.value ==> !IsEmployee(c, hs[j], id)
    ensures r.None? ==> forall j :: 0 <= j < |hs| ==> !IsEmployee(c, hs[j], id)
  {
    if hs == [] then None
    else if HasId(c.nodes[hs[0]].kind, id) then Some(0)
    else match FirstWithId(c, hs[1..], id)
      case None => None
      case Some(k) => Some(k + 1)
  }

  /** `findNode`: the first employee with id `id` in breadth-first order. */
  function FindNode(c: Chart, id: int): (r: Option<Handle>)
    requires Valid(c)
    ensures r.Some? ==> IsEmployee(c, r.value, id)
    ensures r.None? <==> forall h :: h in c.nodes ==> !IsEmployee(c, h, id)
  {
    var order := BfsOrder(c);
    BfsOrderComplete(c);
    match FirstWithId(c, order, id)
    case None =>
      assert forall h :: h in c.nodes ==> !IsEmployee(c, h, id) by {
        forall h | h in c.nodes ensures !IsEmployee(c, h, id) {
          var k :| 0 <= k < |order| && order[k] == h;
        }
      }
      None
    case Some(k) => Some(order[k])
  }

  /** The employee found comes before every other employee with the same id
      in breadth-first order. */
  lemma FindNodeFirst(c: Chart, id: int)
    requires Valid(c) && FindNode(c, id).Some?
    ensures exists k :: 0 <= k < |BfsOrder(c)| && BfsOrder(c)[k] == FindNode(c, id).value &&
                        forall j :: 0 <= j < k ==> !IsEmployee(c, BfsOrder(c)[j], id)
  {
    var k := FirstWithId(c, BfsOrder(c), id).value;
    assert BfsOrder(c)[k] == FindNode(c, id).value;
  }

  /** No employee with the id is nearer the root than the one found. */
  lemma FindNodeShallowest(c: Chart, id: int, h: Handle)
    requires Valid(c) && FindNode(c, id).Some? && IsEmployee(c, h, id)
    ensures Depth(c, FindNode(c, id).value) <= Depth(c, h)
  {
    var order := BfsOrder(c);
    var k := FirstWithId(c, order, id).value;
    assert order[k] == FindNode(c, id).value;
    BfsOrderComplete(c);
    assert h in order;
    var m :| 0 <= m < |order| && order[m] == h;
    assert k <= m;
    if k < m {
      assert Depth(c, order[k]) <= Depth(c, order[m]);
    }
  }

  /** One step of the traversal: the front of the queue, then the rest. */
  lemma BfsFromUnfold(c: Chart, seen: set<Handle>, q: seq<Handle>)
    requires Valid(c) && QueueOk(c, seen, q) && q != []
    ensures QueueOk(c, seen + {q[0]}, q[1..] + c.nodes[q[0]].children)
    ensures BfsFrom(c, seen, q) == [q[0]] + BfsFrom(c, seen + {q[0]}, q[1..] + c.nodes[q[0]].children)
  {
    BfsStep(c, seen, q);
  }

  lemma FoundAfter(c: Chart, id: int, done: seq<Handle>, rest: seq<Handle>)
    requires Valid(c) && BfsOrder(c) == done + rest && rest != []
    requires IsEmployee(c, rest[0], id)
    requires forall j :: 0 <= j < |done| ==> !IsEmployee(c, done[j], id)
    ensures FindNode(c, id) == Some(rest[0])
  {
    var order := BfsOrder(c);
    assert order[|done|] == rest[0];
    var k := FirstWithId(c, order, id).value;
    forall j | 0 <= j < |done| ensures !IsEmployee(c, order[j], id) {
      assert order[j] == done[j];
    }
    assert k == |done|;
  }

  lemma NotFoundIn(c: Chart, id: int, done: seq<Handle>)
    requires Valid(c) && BfsOrder(c) == done
    requires forall j :: 0 <= j < |done| ==> !IsEmployee(c, done[j], id)
    ensures FindNode(c, id) == None
  {
  }

  /** `findNode` as `main.cpp` writes it: a queue loop with an early return. */
  method FindNodeByQueue(c: Chart, id: int) returns (r: Option<Handle>)
    requires Valid(c)
    ensures r == FindNode(c, id)
  {
    ghost var seen: set<Handle> := {};
    ghost var done: seq<Handle> := [];
    var q := [c.root];
    QueueStart(c);
    while q != []
      invariant QueueOk(c, seen, q)
      invariant BfsOrder(c) == done + BfsFrom(c, seen, q)
      invariant forall j :: 0 <= j < |done| ==> !IsEmployee(c, done[j], id)
      decreases c.nodes.Keys - seen
    {
      var h := q[0];
      BfsFromUnfold(c, seen, q);
      if HasId(c.nodes[h].kind, id) {
        FoundAfter(c, id, done, BfsFrom(c, seen, q));
        return Some(h);
      }
      done := done + [h];
      seen := seen + {h};
      q := q[1..] + c.nodes[h].children;
    }
    NotFoundIn(c, id, done);
    return None;
  }
}
