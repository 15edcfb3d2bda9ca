/** Two worked examples: a saved file, and a hire-hire-fire sequence. */
module Scenarios {
  import opened Wrappers
  import opened Seqs
  import opened Nodes
  import opened Charts
  import opened Lookup
  import opened Staffing
  import opened Persistence
  import opened Decimal

  /** A company "HQ" holding a department "Eng" that holds one employee. */
  function SmallCompany(): (c: Chart)
    ensures Valid(c)
  {
    var c := Chart(0, map[0 := Node(Department("HQ"), None, [1]),
                          1 := Node(Department("Eng"), Some(0), [2]),
                          2 := Node(Staff(Employee(1, "Ann", "Dev", 1000)), Some(1), [])], 3);
    assert Rank(c, 0, 3) == Some(0);
    assert Rank(c, 1, 3) == Some(1);
    assert Rank(c, 2, 3) == Some(2);
    assert NodeOk(c, 0) && NodeOk(c, 1) && NodeOk(c, 2);
    c
  }

  lemma SmallNumbers()
    ensures NatText(0) == "0" && NatText(1) == "1"
    ensures IntText(1) == "1" && IntText(1000) == "1000"
  {
    assert NatText(10) == "10";
    assert NatText(100) == NatText(10) + "0";
    assert NatText(1000) == NatText(100) + "0";
  }

  lemma AnnRecord()
    ensures RecordLine(Staff(Employee(1, "Ann", "Dev", 1000))) == "0,1,Ann,Dev,1000"
  {
    SmallNumbers();
    var f := RecordFields(Staff(Employee(1, "Ann", "Dev", 1000)));
    assert f == ["0", "1", "Ann", "Dev", "1000"];
    assert JoinFields(f[4..]) == "1000";
    assert JoinFields(f[3..]) == "Dev" + "," + JoinFields(f[4..]);
    assert JoinFields(f[2..]) == "Ann" + "," + JoinFields(f[3..]);
    assert JoinFields(f[1..]) == "1" + "," + JoinFields(f[2..]);
    assert JoinFields(f) == "0" + "," + JoinFields(f[1..]);
    assert JoinFields(f) == "0" + "," + ("1" + "," + ("Ann" + "," + ("Dev" + "," + "1000")));
  }

  lemma DepartmentRecords()
    ensures RecordLine(Department("Eng")) == "1,Eng"
    ensures RecordLine(Department("HQ")) == "1,HQ"
  {
    assert JoinFields(["1", "Eng"]) == "1" + "," + JoinFields(["Eng"]);
    assert JoinFields(["1", "HQ"]) == "1" + "," + JoinFields(["HQ"]);
  }

  /** Saving the small company writes six lines, two per node, in pre-order. */
  lemma SmallCompanySaved()
    ensures Save(SmallCompany()) == ["1,HQ", "1", "1,Eng", "1", "0,1,Ann,Dev,1000", "0"]
  {
    var c := SmallCompany();
    SmallNumbers();
    AnnRecord();
    DepartmentRecords();
    assert c.nodes[2].kind == Staff(Employee(1, "Ann", "Dev", 1000));
    assert c.nodes[1].kind == Department("Eng") && c.nodes[0].kind == Department("HQ");
    var l2 := SaveLines(c, 2);
    assert l2 == OwnLines(c, 2) + SaveKids(c, 2, 0);
    assert l2 == ["0,1,Ann,Dev,1000", "0"];
    assert SaveKids(c, 1, 1) == SaveKids(c, 1, 0) + SaveLines(c, 2);
    var l1 := SaveLines(c, 1);
    assert l1 == OwnLines(c, 1) + SaveKids(c, 1, 1);
    assert l1 == ["1,Eng", "1", "0,1,Ann,Dev,1000", "0"];
    assert SaveKids(c, 0, 1) == SaveKids(c, 0, 0) + SaveLines(c, 1);
    assert SaveLines(c, 0) == OwnLines(c, 0) + SaveKids(c, 0, 1);
  }

  /** The company after hiring `e1` under it. */
  function OneHired(company: string, e1: Employee): Chart {
    Chart(0, map[0 := Node(Department(company), None, [1]), 1 := Node(Staff(e1), Some(0), [])], 2)
  }

  /** The company after hiring `e2` under `e1`. */
  function TwoHired(company: string, e1: Employee, e2: Employee): Chart {
    Chart(0, map[0 := Node(Department(company), None, [1]),
                 1 := Node(Staff(e1), Some(0), [2]),
                 2 := Node(Staff(e2), Some(1), [])], 3)
  }

  lemma FirstHire(company: string, e1: Employee)
    requires e1.id == 1
    ensures Hire(Init(company), 0, e1) == Step(OneHired(company, e1), Hired(0, 1))
    ensures Valid(OneHired(company, e1))
  {
    var c0 := Init(company);
    assert NoEmployee(c0, 0);
    HirePreservesValid(c0, 0, e1);
    assert ResolveManager(c0, 0) == Some(0);
    assert Hire(c0, 0, e1) == Step(AddChild(c0, 0, e1), Hired(0, 1));
    assert c0.nodes[0].children + [1] == [1];
  }

  lemma SecondHire(company: string, e1: Employee, e2: Employee)
    requires e1.id == 1 && e2.id == 2 && Valid(OneHired(company, e1))
    ensures Hire(OneHired(company, e1), 1, e2) == Step(TwoHired(company, e1, e2), Hired(1, 2))
    ensures Valid(TwoHired(company, e1, e2))
  {
    var c1 := OneHired(company, e1);
    assert forall h :: h in c1.nodes && IsEmployee(c1, h, 1) ==> h == 1;
    assert IsEmployee(c1, 1, 1);
    assert FindNode(c1, 1) == Some(1);
    HirePreservesValid(c1, 1, e2);
    assert ResolveManager(c1, 1) == Some(1);
    assert Hire(c1, 1, e2) == Step(AddChild(c1, 1, e2), Hired(1, 2));
    assert c1.nodes[1].children + [2] == [2];
  }

  lemma FindInTwo(company: string, e1: Employee, e2: Employee)
    requires e1.id == 1 && e2.id == 2 && Valid(TwoHired(company, e1, e2))
    ensures FindNode(TwoHired(company, e1, e2), 1) == Some(1)
  {
    var c2 := TwoHired(company, e1, e2);
    assert forall h :: h in c2.nodes && IsEmployee(c2, h, 1) ==> h == 1;
    assert IsEmployee(c2, 1, 1);
  }

  lemma PromoteInTwo(company: string, e1: Employee, e2: Employee)
    ensures Promote(TwoHired(company, e1, e2), 1, 0) ==
      Chart(0, map[0 := Node(Department(company), None, [2]), 2 := Node(Staff(e2), Some(0), [])], 3)
  {
    var c2 := TwoHired(company, e1, e2);
    var r := Promote(c2, 1, 0);
    assert r.nodes.Keys == {0, 2};
    assert Without([1] + [2], 1) == [2] by {
      assert Without([2], 1) == [2];
    }
    assert r.nodes[0] == Node(Department(company), None, [2]);
    assert r.nodes[2] == Node(Staff(e2), Some(0), []);
  }

  lemma FireFirst(company: string, e1: Employee, e2: Employee)
    requires e1.id == 1 && e2.id == 2 && Valid(TwoHired(company, e1, e2))
    ensures Fire(TwoHired(company, e1, e2), 1) ==
      Step(Chart(0, map[0 := Node(Department(company), None, [2]), 2 := Node(Staff(e2), Some(0), [])], 3),
           Fired(0, 1))
  {
    FindInTwo(company, e1, e2);
    PromoteInTwo(company, e1, e2);
  }

  /** Hiring employee 1 under the company, then employee 2 under employee 1,
      then firing employee 1, leaves employee 2 directly under the company,
      with two nodes in all. */
  lemma HireHireFire(company: string, e1: Employee, e2: Employee)
    requires e1.id == 1 && e2.id == 2
    ensures var c1 := Hire(Init(company), 0, e1).chart;
            Valid(c1) && var c2 := Hire(c1, 1, e2).chart;
            Valid(c2) && var r := Fire(c2, 1);
            && r.outcome == Fired(0, 1)
            && r.chart.nodes.Keys == {0, 2}
            && r.chart.nodes[0].children == [2]
            && r.chart.nodes[2] == Node(Staff(e2), Some(0), [])
  {
    FirstHire(company, e1);
    SecondHire(company, e1, e2);
    FireFirst(company, e1, e2);
  }
}
