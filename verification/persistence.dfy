/** `saveRecursive`: the line-oriented text form of the tree. Each node gives
    a record line, `1,<name>` for a department or
    `0,<id>,<name>,<position>,<salary>` for an employee, then a line with its
    number of children; its children's lines follow, in pre-order. Every line
    ends in a newline. */
module Persistence {
  import opened Wrappers
  import opened Nodes
  import opened Charts
  import opened Walks
  import opened Decimal

  /** The record line of a node: the department flag, written as a `bool`
      is (`1` or `0`), then the node's fields, separated by commas. */
  function RecordLine(k: Kind): string {
    JoinFields(RecordFields(k))
  }

  function RecordFields(k: Kind): (r: seq<string>)
    ensures |r| >= 1
  {
    match k
    case Department(name) => ["1", name]
    case Staff(e) => ["0", IntText(e.id), e.name, e.position, IntText(e.salary)]
  }

  /** Fields separated by commas. */
  function JoinFields(fs: seq<string>): string
    requires |fs| >= 1
  {
    if |fs| == 1 then fs[0] else fs[0] + "," + JoinFields(fs[1..])
  }

  /** The two lines written for one node, before its children's. */
  function OwnLines(c: Chart, h: Handle): seq<string>
    requires h in c.nodes
  {
    [RecordLine(c.nodes[h].kind), NatText(|c.nodes[h].children|)]
  }

  /** The lines written for the subtree rooted at `h`. */
  function SaveLines(c: Chart, h: Handle): seq<string>
    requires Valid(c) && h in c.nodes
    decreases c.next - Depth(c, h), 1, 0
  {
    OwnLines(c, h) + SaveKids(c, h, |c.nodes[h].children|)
  }

  /** The lines written for the first `n` children of `p`. */
  function SaveKids(c: Chart, p: Handle, n: nat): seq<string>
    requires Valid(c) && p in c.nodes && n <= |c.nodes[p].children|
    decreases c.next - Depth(c, p), 0, n
  {
    if n == 0 then []
    else
      DepthOfChild(c, p, n - 1);
      SaveKids(c, p, n - 1) + SaveLines(c, c.nodes[p].children[n - 1])
  }

  /** The lines of the whole tree, from the root. */
  function Save(c: Chart): seq<string>
    requires Valid(c)
  {
    assert RootOk(c);
    SaveLines(c, c.root)
  }

  /** The text written: each line followed by a newline. */
  function Text(lines: seq<string>): string {
    if lines == [] then "" else lines[0] + "\n" + Text(lines[1..])
  }

  /** The two lines of each listed node, one node after another. */
  function LinesOf(c: Chart, hs: seq<Handle>): (r: seq<string>)
    requires forall i :: 0 <= i < |hs| ==> hs[i] in c.nodes
    ensures |r| == 2 * |hs|
  {
    if hs == [] then [] else OwnLines(c, hs[0]) + LinesOf(c, hs[1..])
  }

  lemma {:induction false} LinesOfConcat(c: Chart, a: seq<Handle>, b: seq<Handle>)
    requires forall i :: 0 <= i < |a| ==> a[i] in c.nodes
    requires forall i :: 0 <= i < |b| ==> b[i] in c.nodes
    ensures LinesOf(c, a + b) == LinesOf(c, a) + LinesOf(c, b)
  {
    if a == [] {
      assert a + b == b;
    } else {
      var t := a[1..];
      assert forall i :: 0 <= i < |t| ==> t[i] in c.nodes by {
        forall i | 0 <= i < |t| ensures t[i] in c.nodes {
          assert t[i] == a[i + 1];
        }
      }
      assert (a + b)[1..] == t + b;
      assert (a + b)[0] == a[0];
      LinesOfConcat(c, t, b);
    }
  }

  /** Line 2i of the lines of `hs` is the record of node i, line 2i+1 its child count. */
  lemma {:induction false} LinesOfAt(c: Chart, hs: seq<Handle>, i: nat)
    requires forall j :: 0 <= j < |hs| ==> hs[j] in c.nodes
    requires i < |hs|
    ensures LinesOf(c, hs)[2 * i] == RecordLine(c.nodes[hs[i]].kind)
    ensures LinesOf(c, hs)[2 * i + 1] == NatText(|c.nodes[hs[i]].children|)
  {
    if i > 0 {
      var t := hs[1..];
      assert forall j :: 0 <= j < |t| ==> t[j] in c.nodes by {
        forall j | 0 <= j < |t| ensures t[j] in c.nodes {
          assert t[j] == hs[j + 1];
        }
      }
      LinesOfAt(c, t, i - 1);
      assert t[i - 1] == hs[i];
    }
  }

  /** The saved lines follow the pre-order walk: two lines per node of the
      subtree, each node's record line followed by its child count. */
  lemma {:induction false} SaveFollowsPreOrder(c: Chart, h: Handle)
    requires Valid(c) && h in c.nodes
    ensures SaveLines(c, h) == LinesOf(c, PreOrder(c, h))
    decreases c.next - Depth(c, h), 1, 0
  {
    var n := |c.nodes[h].children|;
    SaveKidsFollowPreOrder(c, h, n);
    LinesOfConcat(c, [h], PreOrderKids(c, h, n));
    assert LinesOf(c, [h]) == OwnLines(c, h) + LinesOf(c, []);
  }

  lemma {:induction false} SaveKidsFollowPreOrder(c: Chart, p: Handle, n: nat)
    requires Valid(c) && p in c.nodes && n <= |c.nodes[p].children|
    ensures SaveKids(c, p, n) == LinesOf(c, PreOrderKids(c, p, n))
    decreases c.next - Depth(c, p), 0, n
  {
    if n > 0 {
      var k := c.nodes[p].children[n - 1];
      DepthOfChild(c, p, n - 1);
      SaveKidsFollowPreOrder(c, p, n - 1);
      SaveFollowsPreOrder(c, k);
      LinesOfConcat(c, PreOrderKids(c, p, n - 1), PreOrder(c, k));
    }
  }

  /** Line by line: the saved text of a subtree has two lines per node of its
      pre-order walk, the record line and then the child count. */
  lemma SaveLinesAt(c: Chart, h: Handle, i: nat)
    requires Valid(c) && h in c.nodes && i < |PreOrder(c, h)|
    ensures |SaveLines(c, h)| == 2 * |PreOrder(c, h)|
    ensures SaveLines(c, h)[2 * i] == RecordLine(c.nodes[PreOrder(c, h)[i]].kind)
    ensures SaveLines(c, h)[2 * i + 1] == NatText(|c.nodes[PreOrder(c, h)[i]].children|)
  {
    SaveFollowsPreOrder(c, h);
    LinesOfAt(c, PreOrder(c, h), i);
  }

  /** The comma-separated fields of a line. */
  function Fields(s: string): (r: seq<string>)
    ensures |r| >= 1
  {
    if s == [] then [""]
    else if s[0] == ',' then [""] + Fields(s[1..])
    else var rest := Fields(s[1..]); [[s[0]] + rest[0]] + rest[1..]
  }

  lemma {:induction false} FieldsOfPlain(a: string)
    requires ',' !in a
    ensures Fields(a) == [a]
  {
    if a != [] {
      FieldsOfPlain(a[1..]);
      assert [a[0]] + a[1..] == a;
    }
  }

  lemma {:induction false} FieldsAfter(a: string, b: string)
    requires ',' !in a
    ensures Fields(a + "," + b) == [a] + Fields(b)
  {
    if a == [] {
      assert a + "," + b == [','] + b;
      assert ([','] + b)[1..] == b;
    } else {
      assert (a + "," + b)[1..] == a[1..] + "," + b;
      FieldsAfter(a[1..], b);
      assert [a[0]] + a[1..] == a;
    }
  }

  /** Reads a record line back into a node kind. */
  function ParseRecord(line: string): Option<Kind> {
    var f := Fields(line);
    if |f| == 2 && f[0] == "1" then Some(Department(f[1]))
    else if |f| == 5 && f[0] == "0" then
      match (ParseInt(f[1]), ParseInt(f[4]))
      case (Some(id), Some(salary)) => Some(Staff(Employee(id, f[2], f[3], salary)))
      case _ => None
    else None
  }

  /** The names written contain no comma. */
  predicate CommaFree(k: Kind) {
    match k
    case Department(name) => ',' !in name
    case Staff(e) => ',' !in e.name && ',' !in e.position
  }

  /** Splitting joined fields gives the fields back when none contains a comma. */
  lemma {:induction false} FieldsOfJoin(fs: seq<string>)
    requires |fs| >= 1 && forall i :: 0 <= i < |fs| ==> ',' !in fs[i]
    ensures Fields(JoinFields(fs)) == fs
  {
    if |fs| == 1 {
      FieldsOfPlain(fs[0]);
    } else {
      FieldsOfJoin(fs[1..]);
      FieldsAfter(fs[0], JoinFields(fs[1..]));
    }
  }

  /** A record line reads back as the node it was written from, provided no
      name contains a comma. */
  lemma RecordRoundTrip(k: Kind)
    requires CommaFree(k)
    ensures ParseRecord(RecordLine(k)) == Some(k)
  {
    match k
    case Department(name) =>
      FieldsOfJoin(RecordFields(k));
    case Staff(e) =>
      IntTextNoComma(e.id);
      IntTextNoComma(e.salary);
      FieldsOfJoin(RecordFields(k));
      IntTextRoundTrip(e.id);
      IntTextRoundTrip(e.salary);
  }

  lemma IntTextNoComma(i: int)
    ensures ',' !in IntText(i)
  {
    var s := IntText(i);
    var d := NatText(if i < 0 then -i else i);
    forall j | 0 <= j < |d| ensures d[j] != ',' {
      assert IsDigit(d[j]);
    }
    if i < 0 {
      assert s == "-" + d;
      assert forall j :: 0 <= j < |s| ==> s[j] == '-' || s[j] in d;
    }
  }

  /** With commas allowed in names, two different employees can be written as
      the same record line, so the line cannot be read back. */
  lemma CommaBreaksRecords()
    ensures RecordLine(Staff(Employee(1, "Ann,Lee", "Dev", 5))) ==
            RecordLine(Staff(Employee(1, "Ann", "Lee,Dev", 5)))
  {
  }
}
