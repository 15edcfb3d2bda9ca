/** `calculateBudget`: the salaries of a subtree, summed recursively. */
module Budget {
  import opened Wrappers
  import opened Nodes
  import opened Charts
  import opened Seqs
  import opened Walks
  import opened Subtrees
  import opened Staffing

  /** The budget of the subtree rooted at `h`: its own salary (nothing for a
      department) plus the budget of each child. */
  function SubtreeBudget(c: Chart, h: Handle): int
    requires Valid(c) && h in c.nodes
    decreases c.next - Depth(c, h), 1, 0
  {
    OwnSalary(c.nodes[h].kind) + KidsBudget(c, h, |c.nodes[h].children|)
  }

  /** The budgets of the first `n` children of `p`, added up. */
  function KidsBudget(c: Chart, p: Handle, n: nat): int
    requires Valid(c) && p in c.nodes && n <= |c.nodes[p].children|
    decreases c.next - Depth(c, p), 0, n
  {
    if n == 0 then 0
    else
      DepthOfChild(c, p, n - 1);
      KidsBudget(c, p, n - 1) + SubtreeBudget(c, c.nodes[p].children[n - 1])
  }

  /** `calculateBudget(start)`: a missing start yields 0. */
  function CalculateBudget(c: Chart, start: Option<Handle>): int
    requires Valid(c) && (start.Some? ==> start.value in c.nodes)
  {
    match start
    case None => 0
    case Some(h) => SubtreeBudget(c, h)
  }

  /** The salaries of the listed nodes, added up. */
  function SalarySum(c: Chart, hs: seq<Handle>): int
    requires forall i :: 0 <= i < |hs| ==> hs[i] in c.nodes
  {
    if hs == [] then 0 else OwnSalary(c.nodes[hs[0]].kind) + SalarySum(c, hs[1..])
  }

  lemma {:induction false} SalarySumConcat(c: Chart, a: seq<Handle>, b: seq<Handle>)
    requires forall i :: 0 <= i < |a| ==> a[i] in c.nodes
    requires forall i :: 0 <= i < |b| ==> b[i] in c.nodes
    ensures SalarySum(c, a + b) == SalarySum(c, a) + SalarySum(c, b)
  {
    if a == [] {
      assert a + b == b;
    } else {
      var t := a[1..];
      assert forall i :: 0 <= i < |t| ==> t[i] in c.nodes by {
        forall i | 0 <= i < |t| ensures t[i] in c.nodes {
          assert t[i] == a[i + 1];
        }
      }
      assert (a + b)[1..] == t + b;
      assert (a + b)[0] == a[0];
      SalarySumConcat(c, t, b);
    }
  }

  /** The recursive budget is the sum of the salaries met on the pre-order walk. */
  lemma {:induction false} BudgetIsSalarySum(c: Chart, h: Handle)
    requires Valid(c) && h in c.nodes
    ensures CalculateBudget(c, Some(h)) == SalarySum(c, PreOrder(c, h))
    decreases c.next - Depth(c, h), 1, 0
  {
    var n := |c.nodes[h].children|;
    KidsBudgetIsSalarySum(c, h, n);
    SalarySumConcat(c, [h], PreOrderKids(c, h, n));
  }

  lemma {:induction false} KidsBudgetIsSalarySum(c: Chart, p: Handle, n: nat)
    requires Valid(c) && p in c.nodes && n <= |c.nodes[p].children|
    ensures KidsBudget(c, p, n) == SalarySum(c, PreOrderKids(c, p, n))
    decreases c.next - Depth(c, p), 0, n
  {
    if n > 0 {
      var k := c.nodes[p].children[n - 1];
      DepthOfChild(c, p, n - 1);
      KidsBudgetIsSalarySum(c, p, n - 1);
      BudgetIsSalarySum(c, k);
      SalarySumConcat(c, PreOrderKids(c, p, n - 1), PreOrder(c, k));
    }
  }

  /** The salaries of nodes none of which is an employee add up to 0;
      with no negative salaries, they add up to at least 0. */
  lemma SalarySumBounds(c: Chart, hs: seq<Handle>)
    requires forall i :: 0 <= i < |hs| ==> hs[i] in c.nodes
    ensures (forall i :: 0 <= i < |hs| ==> c.nodes[hs[i]].kind.Department?) ==> SalarySum(c, hs) == 0
    ensures (forall h :: h in c.nodes ==> OwnSalary(c.nodes[h].kind) >= 0) ==> SalarySum(c, hs) >= 0
  {
    if hs != [] {
      SalarySumBounds(c, hs[1..]);
      if forall i :: 0 <= i < |hs| ==> c.nodes[hs[i]].kind.Department? {
        assert forall i :: 0 <= i < |hs[1..]| ==> c.nodes[hs[1..][i]].kind.Department? by {
          forall i | 0 <= i < |hs[1..]| ensures c.nodes[hs[1..][i]].kind.Department? {
            assert hs[1..][i] == hs[i + 1];
          }
        }
      }
    }
  }

  /** A subtree without employees costs nothing; with no negative salaries,
      no subtree has a negative budget. */
  lemma BudgetBounds(c: Chart, h: Handle)
    requires Valid(c) && h in c.nodes
    ensures (forall i :: 0 <= i < |PreOrder(c, h)| ==> c.nodes[PreOrder(c, h)[i]].kind.Department?) ==>
      CalculateBudget(c, Some(h)) == 0
    ensures (forall g :: g in c.nodes ==> OwnSalary(c.nodes[g].kind) >= 0) ==>
      CalculateBudget(c, Some(h)) >= 0
  {
    BudgetIsSalarySum(c, h);
    SalarySumBounds(c, PreOrder(c, h));
  }

  /** Taking one listed node out of a duplicate-free list takes exactly its salary off the sum. */
  lemma {:induction false} SalarySumWithout(c: Chart, s: seq<Handle>, x: Handle)
    requires forall i :: 0 <= i < |s| ==> s[i] in c.nodes
    requires NoDup(s) && x in s
    ensures forall i :: 0 <= i < |Without(s, x)| ==> Without(s, x)[i] in c.nodes
    ensures SalarySum(c, s) == OwnSalary(c.nodes[x].kind) + SalarySum(c, Without(s, x))
  {
    var t := s[1..];
    assert forall i :: 0 <= i < |t| ==> t[i] in c.nodes by {
      forall i | 0 <= i < |t| ensures t[i] in c.nodes {
        assert t[i] == s[i + 1];
      }
    }
    assert forall i :: 0 <= i < |Without(s, x)| ==> Without(s, x)[i] in c.nodes by {
      forall i | 0 <= i < |Without(s, x)| ensures Without(s, x)[i] in c.nodes {
        var j :| 0 <= j < |s| && s[j] == Without(s, x)[i];
      }
    }
    NoDupTail(s);
    if s[0] == x {
      assert Without(s, x) == Without(t, x) == t;
    } else {
      SalarySumWithout(c, t, x);
      var w := Without(t, x);
      assert Without(s, x) == [s[0]] + w;
      assert ([s[0]] + w)[1..] == w;
    }
  }

  /** Two duplicate-free lists of the same nodes have the same salary sum:
      the order in which the salaries are added does not matter. */
  lemma {:induction false} SalarySumPermutation(c: Chart, a: seq<Handle>, b: seq<Handle>)
    requires forall i :: 0 <= i < |a| ==> a[i] in c.nodes
    requires forall i :: 0 <= i < |b| ==> b[i] in c.nodes
    requires NoDup(a) && NoDup(b)
    requires forall x :: x in a <==> x in b
    ensures SalarySum(c, a) == SalarySum(c, b)
    decreases |a|
  {
    if a == [] {
      assert forall i :: 0 <= i < |b| ==> b[i] !in a;
      assert b == [];
    } else {
      var x := a[0];
      var t := a[1..];
      assert forall i :: 0 <= i < |t| ==> t[i] in c.nodes by {
        forall i | 0 <= i < |t| ensures t[i] in c.nodes {
          assert t[i] == a[i + 1];
        }
      }
      NoDupTail(a);
      SalarySumWithout(c, b, x);
      var w := Without(b, x);
      WithoutNoDup(b, x);
      forall y ensures y in t <==> y in w {
        if y in w {
          var j :| 0 <= j < |w| && w[j] == y;
          assert y in b && y != x;
          assert y in a;
          var k :| 0 <= k < |a| && a[k] == y;
          assert k != 0;
          assert t[k - 1] == y;
        }
        if y in t {
          var k :| 0 <= k < |t| && t[k] == y;
          assert y != x && y in a;
          var j :| 0 <= j < |b| && b[j] == y;
        }
      }
      SalarySumPermutation(c, t, w);
    }
  }

  /** The sum depends only on the kinds of the listed nodes. */
  lemma SalarySumSameKinds(c: Chart, d: Chart, hs: seq<Handle>)
    requires forall i :: 0 <= i < |hs| ==> hs[i] in c.nodes && hs[i] in d.nodes
    requires forall i :: 0 <= i < |hs| ==> c.nodes[hs[i]].kind == d.nodes[hs[i]].kind
    ensures SalarySum(c, hs) == SalarySum(d, hs)
  {
    if hs != [] {
      var t := hs[1..];
      assert forall i :: 0 <= i < |t| ==> t[i] == hs[i + 1];
      SalarySumSameKinds(c, d, t);
    }
  }

  /** The budget of the whole company, `calculateBudget(root)`, is the sum of
      the salaries of all its nodes, listed once each in any order. */
  lemma CompanyBudgetIsTotal(c: Chart, hs: seq<Handle>)
    requires Valid(c) && NoDup(hs)
    requires forall x :: x in hs <==> x in c.nodes
    ensures forall i :: 0 <= i < |hs| ==> hs[i] in c.nodes
    ensures CalculateBudget(c, Some(c.root)) == SalarySum(c, hs)
  {
    assert RootOk(c);
    BudgetIsSalarySum(c, c.root);
    WalkCoversTree(c);
    SalarySumPermutation(c, PreOrder(c, c.root), hs);
  }

  /** Adding an employee under `m` adds exactly its salary to the company budget. */
  lemma AddChildBudget(c: Chart, m: Handle, e: Employee)
    requires Valid(c) && m in c.nodes && c.next !in c.nodes
    ensures Valid(AddChild(c, m, e))
    ensures CalculateBudget(AddChild(c, m, e), Some(c.root)) == CalculateBudget(c, Some(c.root)) + e.salary
  {
    AddChildValid(c, m, e);
    var d := AddChild(c, m, e);
    var n := c.next;
    assert RootOk(c);
    WalkCoversTree(c);
    var p := PreOrder(c, c.root);
    var hs := p + [n];
    NoDupConcat(p, [n]);
    forall x ensures x in hs <==> x in d.nodes {
      assert x in hs <==> x in p || x == n;
    }
    CompanyBudgetIsTotal(d, hs);
    CompanyBudgetIsTotal(c, p);
    SalarySumConcat(d, p, [n]);
    assert SalarySum(d, [n]) == e.salary;
    forall i | 0 <= i < |p| ensures c.nodes[p[i]].kind == d.nodes[p[i]].kind {
      if p[i] != m {
        assert d.nodes[p[i]] == c.nodes[p[i]];
      }
    }
    SalarySumSameKinds(c, d, p);
  }

  /** `hire` adds exactly the newcomer's salary to the company budget, and a
      failed `hire` leaves it as it was. */
  lemma HireBudget(c: Chart, managerId: int, e: Employee)
    requires Valid(c)
    ensures Valid(Hire(c, managerId, e).chart)
    ensures
      var r := Hire(c, managerId, e);
      CalculateBudget(r.chart, Some(r.chart.root)) ==
        CalculateBudget(c, Some(c.root)) + (if r.outcome.Hired? then e.salary else 0)
  {
    HirePreservesValid(c, managerId, e);
    var r := Hire(c, managerId, e);
    if r.outcome.Hired? {
      var m := r.outcome.manager;
      assert Fresh(c);
      assert r.chart == AddChild(c, m, e);
      AddChildBudget(c, m, e);
    }
  }

  /** Promoting the children of `x` to its parent `b` and dropping `x` takes
      exactly the salary of `x` off the company budget. */
  lemma PromoteBudget(c: Chart, x: Handle, b: Handle)
    requires Valid(c) && x in c.nodes && x != c.root && c.nodes[x].parent == Some(b)
    ensures Valid(Promote(c, x, b))
    ensures CalculateBudget(Promote(c, x, b), Some(c.root)) ==
      CalculateBudget(c, Some(c.root)) - OwnSalary(c.nodes[x].kind)
  {
    PromoteValid(c, x, b);
    var d := Promote(c, x, b);
    assert RootOk(c);
    WalkCoversTree(c);
    var p := PreOrder(c, c.root);
    CompanyBudgetIsTotal(c, p);
    SalarySumWithout(c, p, x);
    var w := Without(p, x);
    WithoutNoDup(p, x);
    forall y ensures y in w <==> y in d.nodes {
      if y in p && y != x {
        var j :| 0 <= j < |p| && p[j] == y;
      }
    }
    SalarySumSameKinds(c, d, w);
    CompanyBudgetIsTotal(d, w);
  }

  /** `fire` takes exactly the fired employee's salary off the company
      budget (the promoted subordinates stay on it), and a failed `fire`
      leaves it as it was. */
  lemma FireBudget(c: Chart, id: int)
    requires Valid(c)
    ensures Valid(Fire(c, id).chart)
    ensures
      var r := Fire(c, id);
      r.outcome.Fired? ==>
        c.nodes[r.outcome.target].kind.Staff? &&
        CalculateBudget(r.chart, Some(r.chart.root)) ==
          CalculateBudget(c, Some(c.root)) - c.nodes[r.outcome.target].kind.emp.salary
    ensures
      var r := Fire(c, id);
      !r.outcome.Fired? ==> CalculateBudget(r.chart, Some(r.chart.root)) == CalculateBudget(c, Some(c.root))
  {
    FirePreservesValid(c, id);
    var r := Fire(c, id);
    if r.outcome.Fired? {
      var x := r.outcome.target;
      var b := r.outcome.boss;
      assert RootOk(c);
      assert x != c.root;
      assert r.chart == Promote(c, x, b);
      PromoteBudget(c, x, b);
    }
  }
}
