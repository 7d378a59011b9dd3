/** The process tree of metrics-status.ts: the rows below a set of root processes. */
module ProcessTree {

  datatype Row = Row(pid: int, parentPID: int, cpuSeconds: real)

  /** A positive root, or the child of a process found in n - 1 steps; the rows are the only source of parents. */
  ghost predicate ReachableIn(rows: seq<Row>, roots: seq<int>, pid: int, n: nat)
    decreases n
  {
    if n == 0 then pid > 0 && pid in roots
    else exists row :: row in rows && row.pid == pid && ReachableIn(rows, roots, row.parentPID, n - 1)
  }

  ghost predicate Reachable(rows: seq<Row>, roots: seq<int>, pid: int) {
    exists n: nat :: ReachableIn(rows, roots, pid, n)
  }

  /** The rows of reachable processes, in order, repetitions included. */
  ghost function Tree(all: seq<Row>, roots: seq<int>, rows: seq<Row>): seq<Row> {
    if rows == [] then []
    else (if Reachable(all, roots, rows[0].pid) then [rows[0]] else []) + Tree(all, roots, rows[1..])
  }

  lemma ChildReachable(rows: seq<Row>, roots: seq<int>, row: Row)
    requires row in rows && Reachable(rows, roots, row.parentPID)
    ensures Reachable(rows, roots, row.pid)
  {
    var n: nat :| ReachableIn(rows, roots, row.parentPID, n);
    assert ReachableIn(rows, roots, row.pid, n + 1);
  }

  ghost predicate Closed(rows: seq<Row>, wanted: set<int>) {
    forall row :: row in rows && row.parentPID in wanted ==> row.pid in wanted
  }

  /** A closed set that holds the roots holds everything reachable, however long or cyclic the path. */
  lemma {:induction false} ClosedHoldsReachable(rows: seq<Row>, roots: seq<int>, wanted: set<int>, pid: int, n: nat)
    requires Closed(rows, wanted) && forall r :: r in roots && r > 0 ==> r in wanted
    requires ReachableIn(rows, roots, pid, n)
    ensures pid in wanted
    decreases n
  {
    if n > 0 {
      var row :| row in rows && row.pid == pid && ReachableIn(rows, roots, row.parentPID, n - 1);
      ClosedHoldsReachable(rows, roots, wanted, row.parentPID, n - 1);
    }
  }

  function Selected(rows: seq<Row>, wanted: set<int>): seq<Row> {
    if rows == [] then []
    else (if rows[0].pid in wanted then [rows[0]] else []) + Selected(rows[1..], wanted)
  }

  lemma {:induction false} SelectedIsTree(all: seq<Row>, roots: seq<int>, rows: seq<Row>, wanted: set<int>)
    requires forall pid :: pid in wanted <==> Reachable(all, roots, pid)
    ensures Selected(rows, wanted) == Tree(all, roots, rows)
  {
    if rows != [] {
      SelectedIsTree(all, roots, rows[1..], wanted);
    }
  }

  function Pids(rows: seq<Row>): set<int> { set row | row in rows :: row.pid }

  /** One pass over the rows; it changes nothing only when nothing is missing. */
  method Pass(rows: seq<Row>, ghost roots: seq<int>, wanted: set<int>) returns (more: set<int>, changed: bool)
    requires forall pid :: pid in wanted ==> Reachable(rows, roots, pid)
    ensures wanted <= more && forall pid :: pid in more ==> Reachable(rows, roots, pid)
    ensures changed ==> Pids(rows) - more < Pids(rows) - wanted
    ensures !changed ==> more == wanted && Closed(rows, wanted)
  {
    more, changed := wanted, false;
    for i := 0 to |rows|
      invariant wanted <= more && forall pid :: pid in more ==> Reachable(rows, roots, pid)
      invariant changed ==> exists pid :: pid in Pids(rows) && pid in more && pid !in wanted
      invariant !changed ==> more == wanted
      invariant !changed ==> forall k :: 0 <= k < i && rows[k].parentPID in wanted ==> rows[k].pid in wanted
    {
      var row := rows[i];
      if row.parentPID in more && row.pid !in more {
        assert row in rows;
        ChildReachable(rows, roots, row);
        more := more + {row.pid};
        changed := true;
        assert row.pid in Pids(rows);
      }
    }
  }

  /** Terminates, and returns the rows that hang off a positive root through parent links. */
  method ProcessTree(rows: seq<Row>, roots: seq<int>) returns (tree: seq<Row>)
    ensures tree == Tree(rows, roots, rows)
  {
    var wanted := set pid | pid in roots && pid > 0;
    assert forall pid :: pid in wanted ==> ReachableIn(rows, roots, pid, 0);
    var changed := true;
    while changed
      invariant forall pid :: pid in roots && pid > 0 ==> pid in wanted
      invariant forall pid :: pid in wanted ==> Reachable(rows, roots, pid)
      invariant !changed ==> Closed(rows, wanted)
      decreases Pids(rows) - wanted, changed
    {
      wanted, changed := Pass(rows, roots, wanted);
    }
    forall pid | Reachable(rows, roots, pid)
      ensures pid in wanted
    {
      var n: nat :| ReachableIn(rows, roots, pid, n);
      ClosedHoldsReachable(rows, roots, wanted, pid, n);
    }
    SelectedIsTree(rows, roots, rows, wanted);
    tree := Selected(rows, wanted);
  }
}
