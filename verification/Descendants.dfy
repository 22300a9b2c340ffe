/**
 Collecting the processes to kill: everything reachable from a root pid through a table of
 (pid, parent pid) rows.  The table is a snapshot taken while pids come and go, so it may contain
 duplicate rows and even cycles.
 */
module Descendants {
  import opened Sizes

  type Pid = int
  type Row = (Pid, Pid)

  /** `path` leads from `root` to its last element, one parent-to-child row at a time. */
  ghost predicate IsPath(table: seq<Row>, root: Pid, path: seq<Pid>) {
    && path != [] && (path[0], root) in table
    && forall i | 0 < i < |path| :: (path[i], path[i - 1]) in table
  }

  /** `pid` is reached from `root` by one or more parent-to-child rows. */
  ghost predicate Reachable(table: seq<Row>, root: Pid, pid: Pid) {
    exists path :: IsPath(table, root, path) && path[|path| - 1] == pid
  }

  lemma ChildIsReachable(table: seq<Row>, root: Pid, parent: Pid, pid: Pid)
    requires (pid, parent) in table && (parent == root || Reachable(table, root, parent))
    ensures Reachable(table, root, pid)
  {
    if parent == root {
      assert IsPath(table, root, [pid]);
    } else {
      var path :| IsPath(table, root, path) && path[|path| - 1] == parent;
      assert IsPath(table, root, path + [pid]) && (path + [pid])[|path|] == pid;
    }
  }

  /** A set that holds the root's children and is closed under children holds everything reachable. */
  lemma {:induction false} ClosedHoldsPath(table: seq<Row>, root: Pid, closed: set<Pid>, path: seq<Pid>)
    requires forall i | 0 <= i < |table| :: table[i].1 == root || table[i].1 in closed ==> table[i].0 in closed
    requires IsPath(table, root, path)
    ensures path[|path| - 1] in closed
    decreases |path|
  {
    var last := |path| - 1;
    if last > 0 {
      assert IsPath(table, root, path[..last]);
      ClosedHoldsPath(table, root, closed, path[..last]);
    }
    var row := (path[last], if last > 0 then path[last - 1] else root);
    var i :| 0 <= i < |table| && table[i] == row;
  }

  function Pids(table: seq<Row>): set<Pid> {
    set i | 0 <= i < |table| :: table[i].0
  }

  /** Only reachable pids are found, and only they and the root are ever worked on. */
  ghost predicate FoundSoFar(table: seq<Row>, root: Pid, found: set<Pid>, frontier: seq<Pid>) {
    && found <= Pids(table)
    && (forall pid | pid in found :: Reachable(table, root, pid))
    && forall pid | pid in frontier :: pid == root || pid in found
  }

  /** The children of every pid worked off are found; of `current`, those in the first `upTo` rows. */
  ghost predicate Handled(table: seq<Row>, root: Pid, found: set<Pid>, frontier: seq<Pid>, upTo: nat, current: Pid) {
    forall i | 0 <= i < |table| ::
      (table[i].1 == root || table[i].1 in found) && table[i].1 !in frontier && (table[i].1 == current ==> i < upTo)
      ==> table[i].0 in found
  }

  /** Adds the children of `parent` that are new, to the pids found and to those to work on. */
  method AddChildren(table: seq<Row>, root: Pid, parent: Pid, found0: set<Pid>, frontier0: seq<Pid>)
    returns (found: set<Pid>, frontier: seq<Pid>)
    requires parent == root || parent in found0
    requires FoundSoFar(table, root, found0, frontier0) && Handled(table, root, found0, frontier0, 0, parent)
    ensures FoundSoFar(table, root, found, frontier) && Handled(table, root, found, frontier, |table|, parent)
    ensures found0 <= found && (found == found0 ==> frontier == frontier0)
  {
    found, frontier := found0, frontier0;
    for i := 0 to |table|
      invariant found0 <= found && (found == found0 ==> frontier == frontier0)
      invariant FoundSoFar(table, root, found, frontier) && Handled(table, root, found, frontier, i, parent)
    {
      var (pid, ppid) := table[i];
      if ppid == parent && pid !in found {
        ChildIsReachable(table, root, parent, pid);
        found := found + {pid};
        frontier := frontier + [pid];
      }
    }
  }

  /** The worklist ends on every table, and returns exactly the pids reachable from the root. */
  method DescendantPids(table: seq<Row>, root: Pid) returns (descendants: set<Pid>)
    ensures forall pid :: pid in descendants <==> Reachable(table, root, pid)
  {
    descendants := {};
    var frontier := [root];
    while frontier != []
      invariant FoundSoFar(table, root, descendants, frontier)
      invariant forall i | 0 <= i < |table| ::
          (table[i].1 == root || table[i].1 in descendants) && table[i].1 !in frontier ==> table[i].0 in descendants
      decreases |Pids(table) - descendants|, |frontier|
    {
      var parent := frontier[|frontier| - 1];
      ghost var before := descendants;
      assert frontier == frontier[..|frontier| - 1] + [parent];
      descendants, frontier := AddChildren(table, root, parent, descendants, frontier[..|frontier| - 1]);
      if descendants != before {
        SubsetSize(Pids(table) - descendants, Pids(table) - before);
      }
    }
    forall pid | Reachable(table, root, pid)
      ensures pid in descendants
    {
      var path :| IsPath(table, root, path) && path[|path| - 1] == pid;
      ClosedHoldsPath(table, root, descendants, path);
    }
  }
}
