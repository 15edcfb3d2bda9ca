/** The records of the organisation tree: an employee, the two kinds of node,
    and a node with its back-reference and its owned children. */
module Nodes {
  import opened Wrappers

  /** Nodes live in an arena and refer to each other by handle. */
  type Handle = nat

  /** An employee record. The salary is a whole number of currency units. */
  datatype Employee = Employee(id: int, name: string, position: string, salary: int)

  /** A node is either a department, which carries only a name, or an
      employee. The C++ `Node` class keeps both shapes in one class behind an
      `isDept` flag; the variant makes the unused half unrepresentable. */
  datatype Kind = Department(deptName: string) | Staff(emp: Employee)

  /** A node: its kind, the handle of its parent (none for the root) and the
      handles of its children in insertion order. */
  datatype Node = Node(kind: Kind, parent: Option<Handle>, children: seq<Handle>)

  /** The name reported for a node: a department's name or an employee's name. */
  function DisplayName(k: Kind): string {
    match k
    case Department(n) => n
    case Staff(e) => e.name
  }

  /** The salary a node contributes to a budget: 0 for a department. */
  function OwnSalary(k: Kind): int {
    match k
    case Department(_) => 0
    case Staff(e) => e.salary
  }

  /** The node is an employee whose id is `id`; departments never match. */
  predicate HasId(k: Kind, id: int) {
    k.Staff? && k.emp.id == id
  }
}
