/**
 The fork forest shown to the user.  SessionTable name the checkpoint they were forked from; nothing
 keeps these references acyclic or up to date, and a busy session cannot be looked into.
 */
module Forest {
  import opened Wrappers
  import opened Sizes

  type Id = string

  datatype Ref = Ref(session: Id, checkpoint: nat)

  /** What a session shows when its lock can be taken.  Checkpoint ids are `0..checkpoints`. */
  datatype Shown = Shown(parent: Option<Ref>, checkpoints: nat)

  /** A session whose lock is taken by a call in progress is `Busy`. */
  datatype Availability = Busy | Open(session: Shown)

  type SessionTable = map<Id, Availability>

  datatype TreeNode = TreeNode(id: Id, parent: Option<Ref>, checkpoints: seq<CheckpointNode>)
  datatype CheckpointNode = CheckpointNode(id: nat, forks: seq<TreeNode>)

  type Children = map<Ref, seq<Id>>

  predicate IsOpen(ss: SessionTable, id: Id) {
    id in ss && ss[id].Open?
  }

  /** The parent reference, when the parent's lock could be taken too. */
  function OpenParent(ss: SessionTable, id: Id): Option<Ref>
    requires IsOpen(ss, id)
  {
    var parent := ss[id].session.parent;
    if parent.Some? && IsOpen(ss, parent.value.session) then parent else None
  }

  predicate IsRoot(ss: SessionTable, id: Id) {
    IsOpen(ss, id) && OpenParent(ss, id).None?
  }

  function Kids(children: Children, ref: Ref): seq<Id> {
    if ref in children then children[ref] else []
  }

  ghost predicate Distinct<T>(s: seq<T>) {
    forall i, j | 0 <= i < j < |s| :: s[i] != s[j]
  }

  /** The table lists every open session with an open parent once, under its reference. */
  ghost predicate Grouped(ss: SessionTable, children: Children) {
    forall ref :: GroupedAt(ss, children, ref)
  }

  ghost predicate GroupedAt(ss: SessionTable, children: Children, ref: Ref) {
    && Distinct(Kids(children, ref))
    && forall id :: id in Kids(children, ref) <==> IsOpen(ss, id) && OpenParent(ss, id) == Some(ref)
  }

  // ----- ancestry -----

  /** The open session under which `id` is shown: its parent, if the checkpoint named still exists. */
  function Up(ss: SessionTable, id: Id): Option<Id> {
    if IsOpen(ss, id) && OpenParent(ss, id).Some?
       && OpenParent(ss, id).value.checkpoint < ss[OpenParent(ss, id).value.session].session.checkpoints
    then Some(OpenParent(ss, id).value.session)
    else None
  }

  function Ancestor(ss: SessionTable, id: Id, n: nat): Option<Id>
    decreases n
  {
    if n == 0 then Some(id)
    else
      match Up(ss, id)
      case None => None
      case Some(parent) => Ancestor(ss, parent, n - 1)
  }

  /** `id` is `top` or shown somewhere under it. */
  ghost predicate Below(ss: SessionTable, top: Id, id: Id) {
    exists n: nat :: Ancestor(ss, id, n) == Some(top)
  }

  /** Following the parents from `id` for `n` steps ends at a root. */
  ghost predicate AnchoredAt(ss: SessionTable, id: Id, n: nat) {
    Ancestor(ss, id, n).Some? && IsRoot(ss, Ancestor(ss, id, n).value)
  }

  ghost predicate Anchored(ss: SessionTable, id: Id) {
    exists n: nat :: AnchoredAt(ss, id, n)
  }

  lemma {:induction false} AncestorAdds(ss: SessionTable, id: Id, m: nat, n: nat)
    requires Ancestor(ss, id, m).Some?
    ensures Ancestor(ss, id, m + n) == Ancestor(ss, Ancestor(ss, id, m).value, n)
    decreases m
  {
    if m > 0 {
      AncestorAdds(ss, Up(ss, id).value, m - 1, n);
    }
  }

  lemma {:induction false} AncestorsBefore(ss: SessionTable, id: Id, m: nat, n: nat)
    requires m <= n && Ancestor(ss, id, n).Some?
    ensures Ancestor(ss, id, m).Some?
    decreases m
  {
    if m > 0 {
      AncestorsBefore(ss, Up(ss, id).value, m - 1, n - 1);
    }
  }

  ghost predicate OnCycle(ss: SessionTable, id: Id) {
    exists p: nat :: p > 0 && Ancestor(ss, id, p) == Some(id)
  }

  lemma {:induction false} CycleNeverEnds(ss: SessionTable, id: Id, p: nat, n: nat)
    requires p > 0 && Ancestor(ss, id, p) == Some(id)
    ensures Ancestor(ss, id, n).Some?
    decreases n
  {
    if n <= p {
      AncestorsBefore(ss, id, n, p);
    } else {
      CycleNeverEnds(ss, id, p, n - p);
      AncestorAdds(ss, id, p, n - p);
    }
  }

  lemma RootEnds(ss: SessionTable, id: Id)
    requires IsRoot(ss, id)
    ensures Ancestor(ss, id, 1).None?
  {
  }

  lemma AnchoredIsOffCycles(ss: SessionTable, id: Id, d: nat)
    requires AnchoredAt(ss, id, d)
    ensures !OnCycle(ss, id)
  {
    AncestorAdds(ss, id, d, 1);
    RootEnds(ss, Ancestor(ss, id, d).value);
    if OnCycle(ss, id) {
      var p: nat :| p > 0 && Ancestor(ss, id, p) == Some(id);
      CycleNeverEnds(ss, id, p, d + 1);
    }
  }

  lemma ParentBelowIsCycle(ss: SessionTable, id: Id, parent: Id, m: nat)
    requires Up(ss, id) == Some(parent) && Ancestor(ss, parent, m) == Some(id)
    ensures OnCycle(ss, id)
  {
    assert Ancestor(ss, id, m + 1) == Some(id);
  }

  lemma KidAboveIsCycle(ss: SessionTable, id: Id, kid: Id)
    requires Up(ss, kid) == Some(id) && Below(ss, kid, id)
    ensures OnCycle(ss, id)
  {
    var n: nat :| Ancestor(ss, id, n) == Some(kid);
    AncestorAdds(ss, id, n, 1);
    assert Ancestor(ss, kid, 1) == Some(id);
    assert Ancestor(ss, id, n + 1) == Some(id);
  }

  ghost function AncestorSet(ss: SessionTable, id: Id, n: nat): set<Id>
    requires Ancestor(ss, id, n).Some?
    decreases n
  {
    if n == 0 then {id} else {id} + AncestorSet(ss, Up(ss, id).value, n - 1)
  }

  lemma {:induction false} AncestorSetMember(ss: SessionTable, id: Id, n: nat, x: Id) returns (m: nat)
    requires Ancestor(ss, id, n).Some? && x in AncestorSet(ss, id, n)
    ensures m <= n && Ancestor(ss, id, m) == Some(x)
    decreases n
  {
    if x == id {
      m := 0;
    } else {
      var k := AncestorSetMember(ss, Up(ss, id).value, n - 1, x);
      m := k + 1;
    }
  }

  /** Off cycles, `n` steps up visit `n + 1` different open sessions. */
  lemma {:induction false} AncestorSetSize(ss: SessionTable, id: Id, n: nat, open: set<Id>)
    requires IsOpen(ss, id) && Ancestor(ss, id, n).Some?
    requires forall m: nat | m <= n :: Ancestor(ss, id, m).Some? ==> !OnCycle(ss, Ancestor(ss, id, m).value)
    requires forall x :: x in open <==> IsOpen(ss, x)
    ensures AncestorSet(ss, id, n) <= open
    ensures |AncestorSet(ss, id, n)| == n + 1
    decreases n
  {
    assert Ancestor(ss, id, 0) == Some(id);
    if n > 0 {
      var parent := Up(ss, id).value;
      forall m: nat | m <= n - 1 && Ancestor(ss, parent, m).Some?
        ensures !OnCycle(ss, Ancestor(ss, parent, m).value)
      {
        assert Ancestor(ss, id, m + 1) == Ancestor(ss, parent, m);
      }
      AncestorSetSize(ss, parent, n - 1, open);
      NotAmongAncestors(ss, id, parent, n - 1);
    }
  }

  lemma NotAmongAncestors(ss: SessionTable, id: Id, parent: Id, n: nat)
    requires IsOpen(ss, id) && Up(ss, id) == Some(parent) && Ancestor(ss, parent, n).Some? && !OnCycle(ss, id)
    ensures id !in AncestorSet(ss, parent, n)
  {
    if id in AncestorSet(ss, parent, n) {
      var m := AncestorSetMember(ss, parent, n, id);
      ParentBelowIsCycle(ss, id, parent, m);
    }
  }

  function OpenIds(ss: SessionTable): (open: set<Id>)
    ensures forall x :: x in open <==> IsOpen(ss, x)
  {
    set x | x in ss && ss[x].Open?
  }

  /** An anchored session sits less deep than there are open sessions; the recursion ends by this bound. */
  lemma DepthIsBounded(ss: SessionTable, id: Id, d: nat)
    requires IsOpen(ss, id) && AnchoredAt(ss, id, d)
    ensures d < |OpenIds(ss)|
  {
    forall m: nat | m <= d && Ancestor(ss, id, m).Some?
      ensures !OnCycle(ss, Ancestor(ss, id, m).value)
    {
      AncestorAdds(ss, id, m, d - m);
      AnchoredIsOffCycles(ss, Ancestor(ss, id, m).value, d - m);
    }
    AncestorSetSize(ss, id, d, OpenIds(ss));
    SubsetSize(AncestorSet(ss, id, d), OpenIds(ss));
  }

  // ----- building a tree -----

  /**
   `id` with everything forked from it, checkpoint by checkpoint.  `depth` is the distance to a root,
   and only there to show that the recursion ends.
   */
  function Node(ss: SessionTable, children: Children, id: Id, ghost depth: nat): TreeNode
    requires Grouped(ss, children) && IsOpen(ss, id) && AnchoredAt(ss, id, depth)
    decreases |OpenIds(ss)| - depth, 2, 0
  {
    DepthIsBounded(ss, id, depth);
    TreeNode(id, ss[id].session.parent, CheckpointNodes(ss, children, id, depth, 0))
  }

  function CheckpointNodes(ss: SessionTable, children: Children, id: Id, ghost depth: nat, k: nat): seq<CheckpointNode>
    requires Grouped(ss, children) && IsOpen(ss, id) && AnchoredAt(ss, id, depth) && k <= ss[id].session.checkpoints
    decreases |OpenIds(ss)| - depth, 1, ss[id].session.checkpoints - k
  {
    DepthIsBounded(ss, id, depth);
    if k == ss[id].session.checkpoints then []
    else
      KidsAreBelow(ss, children, id, depth, k);
      [CheckpointNode(k, Nodes(ss, children, Kids(children, Ref(id, k)), depth + 1))]
      + CheckpointNodes(ss, children, id, depth, k + 1)
  }

  function Nodes(ss: SessionTable, children: Children, ids: seq<Id>, ghost depth: nat): seq<TreeNode>
    requires Grouped(ss, children)
    requires forall id | id in ids :: IsOpen(ss, id) && AnchoredAt(ss, id, depth) && depth < |OpenIds(ss)|
    decreases |OpenIds(ss)| - depth, 3, |ids|
  {
    if ids == [] then [] else [Node(ss, children, ids[0], depth)] + Nodes(ss, children, ids[1..], depth)
  }

  lemma KidsAreBelow(ss: SessionTable, children: Children, id: Id, depth: nat, k: nat)
    requires Grouped(ss, children) && IsOpen(ss, id) && AnchoredAt(ss, id, depth) && k < ss[id].session.checkpoints
    ensures forall kid | kid in Kids(children, Ref(id, k)) ::
              Up(ss, kid) == Some(id) && IsOpen(ss, kid) && AnchoredAt(ss, kid, depth + 1) && depth + 1 < |OpenIds(ss)|
  {
    assert GroupedAt(ss, children, Ref(id, k));
    forall kid | kid in Kids(children, Ref(id, k))
      ensures Up(ss, kid) == Some(id) && IsOpen(ss, kid) && AnchoredAt(ss, kid, depth + 1) && depth + 1 < |OpenIds(ss)|
    {
      assert Ancestor(ss, kid, depth + 1) == Ancestor(ss, id, depth);
      DepthIsBounded(ss, kid, depth + 1);
    }
  }

  // ----- each session appears once -----

  /** How often each session id appears in a forest. */
  ghost function Listed(nodes: seq<TreeNode>): multiset<Id> {
    if nodes == [] then multiset{} else ListedIn(nodes[0]) + Listed(nodes[1..])
  }

  ghost function ListedIn(node: TreeNode): multiset<Id> {
    multiset{node.id} + ListedFrom(node.checkpoints)
  }

  ghost function ListedFrom(checkpoints: seq<CheckpointNode>): multiset<Id> {
    if checkpoints == [] then multiset{} else Listed(checkpoints[0].forks) + ListedFrom(checkpoints[1..])
  }

  ghost function Once(b: bool): nat {
    if b then 1 else 0
  }

  /** Two sessions above `x` are one above the other. */
  lemma AboveIsLinear(ss: SessionTable, a: Id, b: Id, x: Id, m: nat, n: nat)
    requires m <= n && Ancestor(ss, x, m) == Some(a) && Ancestor(ss, x, n) == Some(b)
    ensures Ancestor(ss, a, n - m) == Some(b)
  {
    AncestorAdds(ss, x, m, n - m);
  }

  /** At most one of a session's forks leads to `x`. */
  lemma OneBranch(ss: SessionTable, id: Id, depth: nat, a: Id, b: Id, x: Id)
    requires AnchoredAt(ss, id, depth)
    requires Up(ss, a) == Some(id) && Up(ss, b) == Some(id) && Below(ss, a, x) && Below(ss, b, x)
    ensures a == b
  {
    var m: nat :| Ancestor(ss, x, m) == Some(a);
    var n: nat :| Ancestor(ss, x, n) == Some(b);
    AnchoredIsOffCycles(ss, id, depth);
    if m < n {
      OneBranchDirected(ss, id, a, b, x, m, n);
    } else if n < m {
      OneBranchDirected(ss, id, b, a, x, n, m);
    }
  }

  lemma OneBranchDirected(ss: SessionTable, id: Id, a: Id, b: Id, x: Id, m: nat, n: nat)
    requires Up(ss, a) == Some(id) && Up(ss, b) == Some(id)
    requires m < n && Ancestor(ss, x, m) == Some(a) && Ancestor(ss, x, n) == Some(b)
    ensures OnCycle(ss, id)
  {
    AboveIsLinear(ss, a, b, x, m, n);
    AncestorAdds(ss, a, n - m, 1);
    AncestorAdds(ss, a, 1, n - m);
    assert Ancestor(ss, a, 1) == Some(id);
    assert Ancestor(ss, b, 1) == Some(id);
    assert Ancestor(ss, id, n - m) == Some(id);
  }

  /** `x` is `id`, or below the fork of `id` that leads to it. */
  lemma BelowIsSelfOrFork(ss: SessionTable, id: Id, depth: nat, x: Id)
    requires AnchoredAt(ss, id, depth)
    ensures Below(ss, id, x) <==> x == id || exists kid :: Up(ss, kid) == Some(id) && Below(ss, kid, x)
    ensures forall kid | Up(ss, kid) == Some(id) :: !Below(ss, kid, id)
  {
    if x == id {
      assert Ancestor(ss, x, 0) == Some(id);
    }
    if Below(ss, id, x) && x != id {
      var n: nat :| Ancestor(ss, x, n) == Some(id);
      AncestorsBefore(ss, x, n - 1, n);
      var kid := Ancestor(ss, x, n - 1).value;
      AncestorAdds(ss, x, n - 1, 1);
      assert Ancestor(ss, kid, 1) == Some(id);
      assert Up(ss, kid) == Some(id) && Below(ss, kid, x);
    }
    forall kid | Up(ss, kid) == Some(id) && Below(ss, kid, x)
      ensures Below(ss, id, x)
    {
      BelowUp(ss, id, kid, x);
    }
    forall kid | Up(ss, kid) == Some(id)
      ensures !Below(ss, kid, id)
    {
      AnchoredIsOffCycles(ss, id, depth);
      if Below(ss, kid, id) {
        KidAboveIsCycle(ss, id, kid);
      }
    }
  }

  lemma BelowUp(ss: SessionTable, id: Id, kid: Id, x: Id)
    requires Up(ss, kid) == Some(id) && Below(ss, kid, x)
    ensures Below(ss, id, x)
  {
    var n: nat :| Ancestor(ss, x, n) == Some(kid);
    AncestorAdds(ss, x, n, 1);
    assert Ancestor(ss, kid, 1) == Some(id);
    assert Ancestor(ss, x, n + 1) == Some(id);
  }

  /** `x` is below one of these sessions. */
  ghost predicate BelowSome(ss: SessionTable, ids: seq<Id>, x: Id) {
    exists id :: id in ids && Below(ss, id, x)
  }

  ghost predicate BelowFork(ss: SessionTable, children: Children, id: Id, k: nat, x: Id) {
    BelowSome(ss, Kids(children, Ref(id, k)), x)
  }

  lemma {:induction false} NodeLists(ss: SessionTable, children: Children, id: Id, depth: nat, x: Id)
    requires Grouped(ss, children) && IsOpen(ss, id) && AnchoredAt(ss, id, depth)
    ensures ListedIn(Node(ss, children, id, depth))[x] == Once(Below(ss, id, x))
    decreases |OpenIds(ss)| - depth, 2, 0
  {
    DepthIsBounded(ss, id, depth);
    CheckpointsList(ss, children, id, depth, 0, x);
    BelowIsSelfOrFork(ss, id, depth, x);
    ForksOfSession(ss, children, id, depth, x);
  }

  /** Below some fork of `id` means below a kid filed under one of its checkpoints. */
  lemma ForksOfSession(ss: SessionTable, children: Children, id: Id, depth: nat, x: Id)
    requires Grouped(ss, children) && IsOpen(ss, id) && AnchoredAt(ss, id, depth)
    ensures (exists kid :: Up(ss, kid) == Some(id) && Below(ss, kid, x))
            <==> BelowForkFrom(ss, children, id, 0, ss[id].session.checkpoints, x)
  {
    forall kid | Up(ss, kid) == Some(id) && Below(ss, kid, x)
      ensures BelowForkFrom(ss, children, id, 0, ss[id].session.checkpoints, x)
    {
      var k := OpenParent(ss, kid).value.checkpoint;
      assert GroupedAt(ss, children, Ref(id, k));
      assert kid in Kids(children, Ref(id, k));
      assert BelowFork(ss, children, id, k, x);
    }
    forall k: nat | k < ss[id].session.checkpoints && BelowFork(ss, children, id, k, x)
      ensures exists kid :: Up(ss, kid) == Some(id) && Below(ss, kid, x)
    {
      KidsAreBelow(ss, children, id, depth, k);
      var kid :| kid in Kids(children, Ref(id, k)) && Below(ss, kid, x);
      assert Up(ss, kid) == Some(id);
    }
  }

  ghost predicate BelowForkFrom(ss: SessionTable, children: Children, id: Id, k: nat, end: nat, x: Id) {
    exists j: nat :: k <= j < end && BelowFork(ss, children, id, j, x)
  }

  lemma {:induction false} CheckpointsList(ss: SessionTable, children: Children, id: Id, depth: nat, k: nat, x: Id)
    requires Grouped(ss, children) && IsOpen(ss, id) && AnchoredAt(ss, id, depth) && k <= ss[id].session.checkpoints
    ensures ListedFrom(CheckpointNodes(ss, children, id, depth, k))[x]
         == Once(BelowForkFrom(ss, children, id, k, ss[id].session.checkpoints, x))
    decreases |OpenIds(ss)| - depth, 1, ss[id].session.checkpoints - k
  {
    DepthIsBounded(ss, id, depth);
    if k < ss[id].session.checkpoints {
      var kids := Kids(children, Ref(id, k));
      KidsAreBelow(ss, children, id, depth, k);
      KidsAreApart(ss, children, id, depth, k, x);
      NodesList(ss, children, kids, depth + 1, x);
      CheckpointsList(ss, children, id, depth, k + 1, x);
      var first := CheckpointNode(k, Nodes(ss, children, kids, depth + 1));
      var rest := CheckpointNodes(ss, children, id, depth, k + 1);
      ListedFromSplits(first, rest);
      BelowForkSplits(ss, children, id, depth, k, x);
    }
  }

  lemma ListedFromSplits(first: CheckpointNode, rest: seq<CheckpointNode>)
    ensures ListedFrom([first] + rest) == Listed(first.forks) + ListedFrom(rest)
  {
    assert ([first] + rest)[1..] == rest;
  }

  lemma KidsAreApart(ss: SessionTable, children: Children, id: Id, depth: nat, k: nat, x: Id)
    requires Grouped(ss, children) && IsOpen(ss, id) && AnchoredAt(ss, id, depth) && k < ss[id].session.checkpoints
    ensures var kids := Kids(children, Ref(id, k));
            && Distinct(kids)
            && forall a, b | a in kids && b in kids && Below(ss, a, x) && Below(ss, b, x) :: a == b
  {
    var kids := Kids(children, Ref(id, k));
    KidsAreBelow(ss, children, id, depth, k);
    assert GroupedAt(ss, children, Ref(id, k));
    forall a, b | a in kids && b in kids && Below(ss, a, x) && Below(ss, b, x)
      ensures a == b
    {
      OneBranch(ss, id, depth, a, b, x);
    }
  }

  lemma BelowForkSplits(ss: SessionTable, children: Children, id: Id, depth: nat, k: nat, x: Id)
    requires Grouped(ss, children) && IsOpen(ss, id) && AnchoredAt(ss, id, depth) && k < ss[id].session.checkpoints
    ensures Once(BelowForkFrom(ss, children, id, k, ss[id].session.checkpoints, x))
         == Once(BelowFork(ss, children, id, k, x))
            + Once(BelowForkFrom(ss, children, id, k + 1, ss[id].session.checkpoints, x))
  {
    var end := ss[id].session.checkpoints;
    if BelowFork(ss, children, id, k, x) {
      forall j: nat | k + 1 <= j < end
        ensures !BelowFork(ss, children, id, j, x)
      {
        OneCheckpoint(ss, children, id, depth, k, j, x);
      }
    } else if BelowForkFrom(ss, children, id, k, end, x) {
      var j: nat :| k <= j < end && BelowFork(ss, children, id, j, x);
      assert k + 1 <= j;
    }
  }

  lemma OneCheckpoint(ss: SessionTable, children: Children, id: Id, depth: nat, j: nat, k: nat, x: Id)
    requires Grouped(ss, children) && IsOpen(ss, id) && AnchoredAt(ss, id, depth)
    requires j < k < ss[id].session.checkpoints
    ensures !(BelowFork(ss, children, id, j, x) && BelowFork(ss, children, id, k, x))
  {
    KidsAreBelow(ss, children, id, depth, j);
    KidsAreBelow(ss, children, id, depth, k);
    assert GroupedAt(ss, children, Ref(id, j)) && GroupedAt(ss, children, Ref(id, k));
    if BelowFork(ss, children, id, j, x) && BelowFork(ss, children, id, k, x) {
      var a :| a in Kids(children, Ref(id, j)) && Below(ss, a, x);
      var b :| b in Kids(children, Ref(id, k)) && Below(ss, b, x);
      OneBranch(ss, id, depth, a, b, x);
    }
  }

  lemma {:induction false} NodesList(ss: SessionTable, children: Children, ids: seq<Id>, depth: nat, x: Id)
    requires Grouped(ss, children) && Distinct(ids)
    requires forall id | id in ids :: IsOpen(ss, id) && AnchoredAt(ss, id, depth) && depth < |OpenIds(ss)|
    requires forall a, b | a in ids && b in ids && Below(ss, a, x) && Below(ss, b, x) :: a == b
    ensures Listed(Nodes(ss, children, ids, depth))[x] == Once(BelowSome(ss, ids, x))
    decreases |OpenIds(ss)| - depth, 3, |ids|
  {
    if ids != [] {
      NodeLists(ss, children, ids[0], depth, x);
      NodesList(ss, children, ids[1..], depth, x);
      var first, rest := Node(ss, children, ids[0], depth), Nodes(ss, children, ids[1..], depth);
      assert ([first] + rest)[1..] == rest;
      BelowSomeSplits(ss, ids, x);
    }
  }

  lemma BelowSomeSplits(ss: SessionTable, ids: seq<Id>, x: Id)
    requires Distinct(ids) && ids != []
    requires forall a, b | a in ids && b in ids && Below(ss, a, x) && Below(ss, b, x) :: a == b
    ensures Once(BelowSome(ss, ids, x)) == Once(Below(ss, ids[0], x)) + Once(BelowSome(ss, ids[1..], x))
  {
    assert ids == [ids[0]] + ids[1..];
    assert ids[0] !in ids[1..];
  }

  // ----- each fork sits under the checkpoint it was forked from -----

  /** A node shows all checkpoints of its session, and under each the forks that name it. */
  ghost predicate Placed(ss: SessionTable, node: TreeNode)
    decreases node, 0
  {
    && IsOpen(ss, node.id)
    && node.parent == ss[node.id].session.parent
    && |node.checkpoints| == ss[node.id].session.checkpoints
    && forall k | 0 <= k < |node.checkpoints| :: PlacedForks(ss, node.checkpoints[k], node.id, k)
  }

  ghost predicate PlacedForks(ss: SessionTable, checkpoint: CheckpointNode, id: Id, k: nat)
    decreases checkpoint, 2
  {
    checkpoint.id == k && forall j | 0 <= j < |checkpoint.forks| :: PlacedUnder(ss, checkpoint.forks[j], Ref(id, k))
  }

  ghost predicate PlacedUnder(ss: SessionTable, node: TreeNode, ref: Ref)
    decreases node, 1
  {
    IsOpen(ss, node.id) && ss[node.id].session.parent == Some(ref) && IsOpen(ss, ref.session) && Placed(ss, node)
  }

  lemma {:induction false} NodeIsPlaced(ss: SessionTable, children: Children, id: Id, depth: nat)
    requires Grouped(ss, children) && IsOpen(ss, id) && AnchoredAt(ss, id, depth)
    ensures Placed(ss, Node(ss, children, id, depth))
    decreases |OpenIds(ss)| - depth, 2, 0
  {
    DepthIsBounded(ss, id, depth);
    CheckpointsArePlaced(ss, children, id, depth, 0);
  }

  lemma {:induction false} CheckpointsArePlaced(ss: SessionTable, children: Children, id: Id, depth: nat, k: nat)
    requires Grouped(ss, children) && IsOpen(ss, id) && AnchoredAt(ss, id, depth) && k <= ss[id].session.checkpoints
    ensures var cs := CheckpointNodes(ss, children, id, depth, k);
            && |cs| == ss[id].session.checkpoints - k
            && forall i | 0 <= i < |cs| :: PlacedForks(ss, cs[i], id, k + i)
    decreases |OpenIds(ss)| - depth, 1, ss[id].session.checkpoints - k
  {
    DepthIsBounded(ss, id, depth);
    if k < ss[id].session.checkpoints {
      var kids := Kids(children, Ref(id, k));
      KidsAreBelow(ss, children, id, depth, k);
      assert GroupedAt(ss, children, Ref(id, k));
      NodesArePlaced(ss, children, kids, depth + 1);
      CheckpointsArePlaced(ss, children, id, depth, k + 1);
      ForksArePlaced(ss, children, id, k, Nodes(ss, children, kids, depth + 1));
    }
  }

  /** The kids filed under a checkpoint, each placed, are its forks in place. */
  lemma ForksArePlaced(ss: SessionTable, children: Children, id: Id, k: nat, forks: seq<TreeNode>)
    requires GroupedAt(ss, children, Ref(id, k)) && |forks| == |Kids(children, Ref(id, k))|
    requires forall j | 0 <= j < |forks| :: forks[j].id == Kids(children, Ref(id, k))[j] && Placed(ss, forks[j])
    ensures PlacedForks(ss, CheckpointNode(k, forks), id, k)
  {
    var kids := Kids(children, Ref(id, k));
    assert forall j | 0 <= j < |forks| :: kids[j] in kids && PlacedUnder(ss, forks[j], Ref(id, k));
  }

  lemma {:induction false} NodesArePlaced(ss: SessionTable, children: Children, ids: seq<Id>, depth: nat)
    requires Grouped(ss, children)
    requires forall id | id in ids :: IsOpen(ss, id) && AnchoredAt(ss, id, depth) && depth < |OpenIds(ss)|
    ensures var nodes := Nodes(ss, children, ids, depth);
            && |nodes| == |ids|
            && forall j | 0 <= j < |nodes| :: nodes[j].id == ids[j] && Placed(ss, nodes[j])
    decreases |OpenIds(ss)| - depth, 3, |ids|
  {
    if ids != [] {
      NodeIsPlaced(ss, children, ids[0], depth);
      NodesArePlaced(ss, children, ids[1..], depth);
    }
  }

  // ----- the forest -----

  /** Two roots cannot both be above `x`. */
  lemma OneRoot(ss: SessionTable, a: Id, b: Id, x: Id)
    requires IsRoot(ss, a) && IsRoot(ss, b) && Below(ss, a, x) && Below(ss, b, x)
    ensures a == b
  {
    var m: nat :| Ancestor(ss, x, m) == Some(a);
    var n: nat :| Ancestor(ss, x, n) == Some(b);
    if m < n {
      RootIsTop(ss, a, b, x, m, n);
    } else if n < m {
      RootIsTop(ss, b, a, x, n, m);
    }
  }

  lemma RootIsTop(ss: SessionTable, a: Id, b: Id, x: Id, m: nat, n: nat)
    requires IsRoot(ss, a) && m <= n && Ancestor(ss, x, m) == Some(a) && Ancestor(ss, x, n) == Some(b)
    ensures m == n
  {
    AboveIsLinear(ss, a, b, x, m, n);
  }

  lemma AnchoredIsBelowRoot(ss: SessionTable, roots: seq<Id>, x: Id)
    requires forall id :: id in roots <==> IsRoot(ss, id)
    ensures BelowSome(ss, roots, x) <==> Anchored(ss, x)
  {
    if BelowSome(ss, roots, x) {
      var root :| root in roots && Below(ss, root, x);
      var n: nat :| Ancestor(ss, x, n) == Some(root);
      assert AnchoredAt(ss, x, n);
    }
    if Anchored(ss, x) {
      var n: nat :| AnchoredAt(ss, x, n);
      var root := Ancestor(ss, x, n).value;
      assert root in roots && Below(ss, root, x);
    }
  }

  /** Only open sessions are anchored. */
  lemma AnchoredIsOpen(ss: SessionTable, x: Id)
    requires Anchored(ss, x)
    ensures IsOpen(ss, x)
  {
  }

  function BusyNode(id: Id): TreeNode {
    TreeNode(id, None, [])
  }

  function BusyNodes(ids: seq<Id>): seq<TreeNode> {
    if ids == [] then [] else [BusyNode(ids[0])] + BusyNodes(ids[1..])
  }

  lemma {:induction false} BusyNodesAt(ids: seq<Id>)
    ensures |BusyNodes(ids)| == |ids| && forall i | 0 <= i < |ids| :: BusyNodes(ids)[i] == BusyNode(ids[i])
  {
    if ids != [] {
      BusyNodesAt(ids[1..]);
    }
  }

  lemma {:induction false} BusyNodesList(ids: seq<Id>, x: Id)
    requires Distinct(ids)
    ensures Listed(BusyNodes(ids))[x] == Once(x in ids)
  {
    if ids != [] {
      BusyNodesList(ids[1..], x);
      assert BusyNodes(ids)[1..] == BusyNodes(ids[1..]);
      assert ListedIn(BusyNode(ids[0])) == multiset{ids[0]} + multiset{};
      assert ids == [ids[0]] + ids[1..];
      assert ids[0] !in ids[1..];
    }
  }

  lemma {:induction false} ListedAppend(a: seq<TreeNode>, b: seq<TreeNode>)
    ensures Listed(a + b) == Listed(a) + Listed(b)
  {
    if a == [] {
      assert a + b == b;
    } else {
      assert (a + b)[1..] == a[1..] + b;
      ListedAppend(a[1..], b);
    }
  }

  /** Files `id` under `ref`. */
  function Filed(children: Children, ref: Ref, id: Id): Children {
    children[ref := Kids(children, ref) + [id]]
  }

  /** While the open sessions are sorted: what holds once all but `left` have been seen. */
  ghost predicate GroupedSoFar(ss: SessionTable, children: Children, roots: seq<Id>, left: set<Id>) {
    && Distinct(roots)
    && (forall id :: id in roots <==> IsRoot(ss, id) && id !in left)
    && forall ref :: GroupedSoFarAt(ss, children, left, ref)
  }

  ghost predicate GroupedSoFarAt(ss: SessionTable, children: Children, left: set<Id>, ref: Ref) {
    && Distinct(Kids(children, ref))
    && forall id :: id in Kids(children, ref) <==> IsOpen(ss, id) && OpenParent(ss, id) == Some(ref) && id !in left
  }

  /** Which sessions' locks could be taken, and which could not. */
  method TryLockAll(ss: SessionTable) returns (open: seq<Id>, busy: seq<Id>)
    ensures Distinct(open) && forall id :: id in open <==> IsOpen(ss, id)
    ensures Distinct(busy) && forall id :: id in busy <==> id in ss && ss[id].Busy?
  {
    open, busy := [], [];
    var left := ss.Keys;
    while left != {}
      invariant left <= ss.Keys
      invariant Distinct(open) && forall id :: id in open <==> IsOpen(ss, id) && id !in left
      invariant Distinct(busy) && forall id :: id in busy <==> id in ss && ss[id].Busy? && id !in left
    {
      var id :| id in left;
      if ss[id].Open? {
        open := open + [id];
      } else {
        busy := busy + [id];
      }
      left := left - {id};
    }
  }

  /** Sorts the open sessions into roots and the forks of each checkpoint. */
  method Group(ss: SessionTable, open: seq<Id>) returns (children: Children, roots: seq<Id>)
    requires Distinct(open) && forall id :: id in open <==> IsOpen(ss, id)
    ensures Grouped(ss, children)
    ensures Distinct(roots) && forall id :: id in roots <==> IsRoot(ss, id)
  {
    children, roots := map[], [];
    ghost var left := OpenIds(ss);
    for i := 0 to |open|
      invariant left == set id | id in open[i..]
      invariant GroupedSoFar(ss, children, roots, left)
    {
      var id := open[i];
      assert open[i..] == [id] + open[i + 1..];
      assert id !in open[i + 1..] && id in left;
      ghost var before := children;
      var parent := OpenParent(ss, id);
      if parent.Some? {
        children := Filed(children, parent.value, id);
      } else {
        roots := roots + [id];
      }
      forall ref
        ensures GroupedSoFarAt(ss, children, left - {id}, ref)
      {
        assert GroupedSoFarAt(ss, before, left, ref);
      }
      left := left - {id};
    }
    assert open[|open|..] == [];
    forall ref
      ensures GroupedAt(ss, children, ref)
    {
      assert GroupedSoFarAt(ss, children, left, ref);
    }
  }

  /**
   Every session appears at most once, and exactly the busy ones and those whose parents lead to a root
   appear.  The others, on a cycle of references or forked from a checkpoint that is gone, do not.
   */
  method BuildForest(ss: SessionTable) returns (result: seq<TreeNode>)
    ensures forall x :: Listed(result)[x] == Once(x in ss && (ss[x].Busy? || Anchored(ss, x)))
    ensures forall i | 0 <= i < |result| :: TopLevel(ss, result[i])
  {
    var open, busy := TryLockAll(ss);
    var children, roots := Group(ss, open);
    RootsAreAnchored(ss, roots);
    result := Nodes(ss, children, roots, 0) + BusyNodes(busy);
    ForestIsComplete(ss, children, roots, busy, result);
    ForestIsPlaced(ss, children, roots, busy, result);
  }

  lemma ForestIsComplete(ss: SessionTable, children: Children, roots: seq<Id>, busy: seq<Id>, result: seq<TreeNode>)
    requires Grouped(ss, children) && AllOf(ss, roots, busy)
    requires forall root | root in roots :: IsOpen(ss, root) && AnchoredAt(ss, root, 0) && 0 < |OpenIds(ss)|
    requires result == Nodes(ss, children, roots, 0) + BusyNodes(busy)
    ensures forall x :: Listed(result)[x] == Once(x in ss && (ss[x].Busy? || Anchored(ss, x)))
  {
    forall x
      ensures Listed(result)[x] == Once(x in ss && (ss[x].Busy? || Anchored(ss, x)))
    {
      ForestLists(ss, children, roots, busy, x);
    }
  }

  lemma RootsAreAnchored(ss: SessionTable, roots: seq<Id>)
    requires forall id :: id in roots <==> IsRoot(ss, id)
    ensures forall root | root in roots :: IsOpen(ss, root) && AnchoredAt(ss, root, 0) && 0 < |OpenIds(ss)|
  {
    forall root | root in roots
      ensures IsOpen(ss, root) && AnchoredAt(ss, root, 0) && 0 < |OpenIds(ss)|
    {
      assert Ancestor(ss, root, 0) == Some(root);
      DepthIsBounded(ss, root, 0);
    }
  }

  /** All of the sessions' roots, and all busy sessions. */
  ghost predicate AllOf(ss: SessionTable, roots: seq<Id>, busy: seq<Id>) {
    && Distinct(roots) && (forall id :: id in roots <==> IsRoot(ss, id))
    && Distinct(busy) && (forall id :: id in busy <==> id in ss && ss[id].Busy?)
  }

  lemma ForestLists(ss: SessionTable, children: Children, roots: seq<Id>, busy: seq<Id>, x: Id)
    requires Grouped(ss, children) && AllOf(ss, roots, busy)
    requires forall root | root in roots :: IsOpen(ss, root) && AnchoredAt(ss, root, 0) && 0 < |OpenIds(ss)|
    ensures Listed(Nodes(ss, children, roots, 0) + BusyNodes(busy))[x]
         == Once(x in ss && (ss[x].Busy? || Anchored(ss, x)))
  {
    forall a, b | a in roots && b in roots && Below(ss, a, x) && Below(ss, b, x)
      ensures a == b
    {
      OneRoot(ss, a, b, x);
    }
    NodesList(ss, children, roots, 0, x);
    AnchoredIsBelowRoot(ss, roots, x);
    BusyNodesList(busy, x);
    ListedAppend(Nodes(ss, children, roots, 0), BusyNodes(busy));
    if Anchored(ss, x) {
      AnchoredIsOpen(ss, x);
    }
  }

  lemma ForestIsPlaced(ss: SessionTable, children: Children, roots: seq<Id>, busy: seq<Id>, result: seq<TreeNode>)
    requires Grouped(ss, children) && AllOf(ss, roots, busy)
    requires forall root | root in roots :: IsOpen(ss, root) && AnchoredAt(ss, root, 0) && 0 < |OpenIds(ss)|
    requires result == Nodes(ss, children, roots, 0) + BusyNodes(busy)
    ensures forall i | 0 <= i < |result| :: TopLevel(ss, result[i])
  {
    var nodes, rest := Nodes(ss, children, roots, 0), BusyNodes(busy);
    NodesArePlaced(ss, children, roots, 0);
    BusyNodesAt(busy);
    assert forall i | 0 <= i < |nodes| :: roots[i] in roots && TopLevel(ss, nodes[i]);
    assert forall i | 0 <= i < |rest| :: busy[i] in busy && TopLevel(ss, rest[i]);
  }

  /** A root with its forks in place, or a bare entry for a busy session. */
  ghost predicate TopLevel(ss: SessionTable, node: TreeNode) {
    || (Placed(ss, node) && (node.parent.Some? ==> !IsOpen(ss, node.parent.value.session)))
    || (node.parent.None? && node.checkpoints == [] && node.id in ss && ss[node.id].Busy?)
  }

  /** One step up: to the open session that the parent reference names, if it has the checkpoint named. */
  lemma UpExactly(ss: SessionTable, id: Id, p: Id)
    ensures Up(ss, id) == Some(p)
            <==> && IsOpen(ss, id) && IsOpen(ss, p)
                 && exists k: nat :: ss[id].session.parent == Some(Ref(p, k)) && k < ss[p].session.checkpoints
  {
    if IsOpen(ss, id) && ss[id].session.parent.Some? {
      var parent := ss[id].session.parent.value;
      assert parent == Ref(parent.session, parent.checkpoint);
    }
  }

  /** References among open sessions name checkpoints that exist, and never lead back. */
  ghost predicate Tidy(ss: SessionTable) {
    && (forall x | IsOpen(ss, x) && OpenParent(ss, x).Some? :: Up(ss, x).Some?)
    && forall x | IsOpen(ss, x) :: !OnCycle(ss, x)
  }

  lemma {:induction false} EndOfChain(ss: SessionTable, id: Id, n: nat) returns (m: nat)
    requires Ancestor(ss, id, n).None?
    ensures m < n && Ancestor(ss, id, m).Some? && Up(ss, Ancestor(ss, id, m).value).None?
    decreases n
  {
    if Up(ss, id).None? {
      m := 0;
    } else {
      var k := EndOfChain(ss, Up(ss, id).value, n - 1);
      m := k + 1;
    }
  }

  lemma {:induction false} AncestorsAreOpen(ss: SessionTable, id: Id, n: nat)
    requires IsOpen(ss, id) && Ancestor(ss, id, n).Some?
    ensures IsOpen(ss, Ancestor(ss, id, n).value)
    decreases n
  {
    if n > 0 {
      AncestorsAreOpen(ss, Up(ss, id).value, n - 1);
    }
  }

  lemma AnchoredIsTidy(ss: SessionTable, x: Id)
    requires IsOpen(ss, x) && Anchored(ss, x)
    ensures !OnCycle(ss, x) && (OpenParent(ss, x).Some? ==> Up(ss, x).Some?)
  {
    var n: nat :| AnchoredAt(ss, x, n);
    AnchoredIsOffCycles(ss, x, n);
    if n > 0 {
      AncestorsBefore(ss, x, 1, n);
    }
  }

  /** The forest leaves no session out exactly when references are acyclic and name checkpoints that exist. */
  lemma AllShownIffTidy(ss: SessionTable)
    ensures (forall x | IsOpen(ss, x) :: Anchored(ss, x)) <==> Tidy(ss)
  {
    if forall x | IsOpen(ss, x) :: Anchored(ss, x) {
      forall x | IsOpen(ss, x)
        ensures !OnCycle(ss, x) && (OpenParent(ss, x).Some? ==> Up(ss, x).Some?)
      {
        AnchoredIsTidy(ss, x);
      }
    }
    if Tidy(ss) {
      forall x | IsOpen(ss, x)
        ensures Anchored(ss, x)
      {
        TidyShowsAll(ss, x);
      }
    }
  }

  lemma TidyShowsAll(ss: SessionTable, x: Id)
    requires Tidy(ss) && IsOpen(ss, x)
    ensures Anchored(ss, x)
  {
    var n := |OpenIds(ss)|;
    forall m: nat | m <= n && Ancestor(ss, x, m).Some?
      ensures !OnCycle(ss, Ancestor(ss, x, m).value)
    {
      AncestorsAreOpen(ss, x, m);
    }
    if Ancestor(ss, x, n).Some? {
      AncestorSetSize(ss, x, n, OpenIds(ss));
      SubsetSize(AncestorSet(ss, x, n), OpenIds(ss));
    } else {
      var m := EndOfChain(ss, x, n);
      AncestorsAreOpen(ss, x, m);
      assert AnchoredAt(ss, x, m);
    }
  }
}
