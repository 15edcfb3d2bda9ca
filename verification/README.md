# TechCorp organisation chart, modelled in Dafny

This project models the tree engine of the TechCorp organisation chart
(`OrgChart` in `main.cpp`). The tree is rooted at a department named after the
company. Below it sit departments and employees, and each node owns its
children and keeps a back-pointer to its parent. The engine does six things:

- finds an employee by id, breadth-first;
- hires an employee under a manager, falling back to the root when the manager id is 0;
- fires an employee, promoting the employee's subordinates to the employee's boss;
- sums the salaries of a subtree;
- finds the lowest common boss of two employees;
- writes the tree as pre-order lines of text.

The model keeps the nodes in an arena, `map<Handle, Node>`, with handles in
place of pointers. Each `Node` holds a `Kind` (a department name, or an
employee record), an optional parent handle, and the ordered child handles.
`Charts.Valid` is the tree invariant:

- the root is a department with no parent;
- every other node has a parent whose child list holds it;
- every child names its parent back, and no child list repeats a node;
- every parent chain reaches the root, so there are no cycles and no unreachable nodes.

`hire` and `fire` are pure functions. Each returns the new tree together with
an outcome value in place of the console message. Lookup, budget, lowest
common boss and saving are pure functions over a valid tree.

Modules, one per concern of `main.cpp`:

- `Nodes`: the `Employee` record and the two node kinds.
- `Charts`: the arena, its invariant, depth, and the constructor.
- `Lookup`: `findNode`.
- `Staffing`: `hire` and `fire`, with the lemmas that show they keep the invariant.
- `Walks`: the pre-order walk shared by `displayRecursive`, `saveRecursive` and `calculateBudget`.
- `Subtrees`: the proof that this walk lists a subtree's nodes exactly once.
- `Budget`: `calculateBudget`, and how `hire` and `fire` change the company's budget.
- `Bosses`: `findLowestCommonBoss`.
- `Persistence` and `Decimal`: `saveRecursive`'s lines and the number text in them.
- `Scenarios`: two worked examples.
- `Seqs` and `Wrappers`: helpers.

`fire`'s missing-parent guard never triggers. `fire` looks its target up with
`findNode`, which returns only employees, and the root is a department, so the
root can never be the target. The model keeps the guard as the `CannotFireRoot`
outcome, and `Staffing.Fire` proves that outcome unreachable on a valid tree.
Asking to fire an id that no employee has reports `NotFound`.

## Model

| member | source | states |
|---|---|---|
| Charts.Init | main.cpp:70 | A new chart is valid and holds exactly one node: a department named after the company, with no children. |
| Lookup.FindNode | main.cpp:74-87 | The node returned is an employee (never a department) with the requested id. Nothing is returned exactly when no employee in the tree has that id. |
| Lookup.FindNodeFirst | main.cpp:76-85 | The node returned comes before every other employee with that id in breadth-first order. |
| Lookup.FindNodeShallowest | main.cpp:76-85 | No employee with that id is nearer the root than the node returned. |
| Lookup.BfsOrderComplete | main.cpp:76-85 | The queue traversal starts at the root and visits every node of the tree exactly once. It never visits a deeper node before a shallower one. |
| Lookup.BfsFromVisits | main.cpp:79-85 | From any well-formed queue state, the rest of the traversal visits exactly the nodes not yet popped, each once. |
| Lookup.FirstWithId | main.cpp:83 | The position found holds an employee with the id, and no earlier position does. No position is found only when no listed node matches. |
| Lookup.FindNodeByQueue | main.cpp:74-87 | The queue loop with its early return yields the same node as `FindNode`. |
| Staffing.ResolveManager | main.cpp:90-92 | Resolution fails exactly when the id is not 0 and no employee has it. A resolved manager other than the root is an employee with that id. The root is chosen only for id 0 when no employee has id 0. Whenever `findNode` finds the id, its breadth-first first match is the manager, even when several employees share the id. |
| Staffing.Hire | main.cpp:89-101 | The outcome is "manager not found" exactly when resolution fails, and then the tree is unchanged. On success the new employee gets a fresh handle, its parent is the resolved manager, and it is the last of the manager's children. The node count grows by one and no other node changes. |
| Staffing.HirePreservesValid | main.cpp:98-99 | `hire` keeps the tree invariant. |
| Staffing.HireThenFind | main.cpp:98-99 | After a successful hire, the new id can be looked up. The new node is the one found unless an employee with that id already existed. |
| Staffing.Fire | main.cpp:105-125 | The outcome is "not found" exactly when no employee has the id. A failed fire leaves the tree unchanged, and the root guard never triggers on a valid tree. A successful fire removes exactly the node `findNode` returns. Its boss is that node's parent, and the node count drops by one. |
| Staffing.FirePromotesChildren | main.cpp:112-121 | After a successful fire the boss's children are its old children without the fired node, followed by the fired node's children in their order. The boss's child count changes by k-1. Each promoted child has the boss as parent. No other parent, no other child list and no kind changes. |
| Staffing.FirePreservesValid | main.cpp:112-123 | `fire` keeps the tree invariant: no cycles, every node reachable, parents and child lists in agreement. |
| Budget.BudgetIsSalarySum | main.cpp:127-132 | The recursive budget of a subtree is the sum of the salaries of the nodes on its pre-order walk. Departments count 0. |
| Budget.BudgetBounds | main.cpp:127-132 | A subtree with no employees has budget 0. With no negative salaries, no budget is negative. |
| Budget.CompanyBudgetIsTotal | main.cpp:127-132 | The budget computed from the root is the sum of the salaries of all nodes in the tree, whatever order they are listed in. |
| Budget.HireBudget | main.cpp:89-101 | A successful hire raises the company budget by exactly the newcomer's salary. A failed hire leaves it unchanged. |
| Budget.FireBudget | main.cpp:105-125 | A successful fire lowers the company budget by exactly the fired employee's salary, because the promoted subordinates stay in the tree. A failed fire leaves it unchanged. |
| Subtrees.WalkIsSubtree | main.cpp:41-51 | The recursive walk from a node lists each node at or below it exactly once, and nothing else. |
| Subtrees.WalkCoversTree | main.cpp:54-67 | The walk from the root lists every node of the tree exactly once. So `saveRecursive`, which follows it, writes each node exactly once. |
| Bosses.AncestorPath | main.cpp:139-140 | The chain runs from the node itself up to the root, inclusive. It has depth + 1 elements, the i-th is i levels above the node, and each element after the first is the parent of the one before it. |
| Bosses.FirstShared | main.cpp:143-150 | The position found is the first element of the walked chain that lies on the other chain. None is found only when the chains share nothing. |
| Bosses.LowestCommonBoss | main.cpp:139-151 | The boss found is an ancestor, inclusive, of both nodes. |
| Bosses.LowestCommonBossDeepest | main.cpp:139-151 | Every common ancestor of the two nodes is an ancestor of the boss found, so the boss found is the deepest common ancestor. |
| Bosses.LowestCommonBossSymmetric | main.cpp:139-151 | Swapping the two nodes gives the same boss. |
| Bosses.LowestCommonBossSelf | main.cpp:139-148 | A node is its own lowest common boss with itself. |
| Bosses.LowestCommonBossSiblings | main.cpp:139-151 | Two distinct nodes with the same parent have that parent as lowest common boss. |
| Bosses.FindLowestCommonBoss | main.cpp:134-151 | "Not found" is reported exactly when either id names no employee. Otherwise the boss reported is an ancestor, inclusive, of both employees that `findNode` returns. |
| Bosses.FindLowestCommonBossSymmetric | main.cpp:134-151 | The query gives the same answer with its two ids swapped. |
| Bosses.FindLowestCommonBossSelf | main.cpp:134-151 | Querying an employee's id with itself reports that employee. |
| Persistence.SaveFollowsPreOrder | main.cpp:54-67 | The saved lines of a subtree are, node by node along the pre-order walk, each node's record line followed by its child-count line. |
| Persistence.SaveLinesAt | main.cpp:54-67 | A subtree of n nodes saves as 2n lines. Line 2i is the record of the i-th node of the pre-order walk, and line 2i+1 is its number of children. |
| Persistence.RecordRoundTrip | main.cpp:56-62 | Reading a record line back gives the department or employee it was written from, provided no name or position contains a comma. |
| Persistence.CommaBreaksRecords | main.cpp:60-61 | With commas in names, two different employees are written as the same record line. |
| Decimal.NatText | main.cpp:63 | A count is written as a non-empty string of decimal digits without leading zeros. |
| Decimal.IntTextRoundTrip | main.cpp:60-61 | An id or salary written in decimal, with a minus sign when negative, reads back as the same integer. |
| Scenarios.SmallCompanySaved | main.cpp:54-67 | A company "HQ" with a department "Eng" holding employee 1 "Ann", "Dev", 1000 saves as `1,HQ` / `1` / `1,Eng` / `1` / `0,1,Ann,Dev,1000` / `0`. |
| Scenarios.HireHireFire | main.cpp:89-125 | Hire employee 1 under the company, hire employee 2 under employee 1, then fire employee 1. Employee 2 then hangs directly under the company, which holds only that child, and two nodes remain. |

## Left out

- Console output (`cout` in `hire`, `fire` and `findLowestCommonBoss`): each operation returns an outcome value instead. `Nodes.DisplayName` gives the name the messages print.
- `display` and `displayRecursive` text (indentation, tags): only their traversal order is modelled, as `Walks.PreOrder`.
- `saveToFile`: opening, writing and closing the file, and the error when it cannot be opened, are I/O. Only the lines `saveRecursive` produces are modelled. `Persistence.Text` joins them with newlines.
- The `main` menu loop and `cin` parsing: these are the command-line shell.
- Salaries are `double` in the source and whole numbers (`int`) here. Floating-point addition in `calculateBudget` is not modelled. The stream's default six-significant-digit formatting of a `double` (for example `1e+06`) is not modelled either: a salary is written as a decimal integer.
- Ids are unbounded integers. The 32-bit `int` range of the source is not modelled.
- `new`, `delete` and the `~Node` destructor: `fire` removes one key from the arena, and its children stay.
- The null-root check at the start of `findNode`: the model always has a root.
- The silent end of `findLowestCommonBoss` when the two chains share no node: in a valid tree both chains end at the root, so `Bosses.LowestCommonBoss` always finds a node.
- Duplicate employee ids are not rejected, as in the source. Lookup returns the first match in breadth-first order.
