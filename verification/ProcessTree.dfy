/**
 Process tree (internal/provider/linux/process_tree.go).

 `BuildTree` gives buildNode a fuel, so that "the recursion ends" is "some fuel is enough". The scan of
 /proc is the sequence of entries that could be read, in directory order.
 */
module ProcessTree {
  import opened Wrappers
  import opened Sorting

  datatype ProcInfo = ProcInfo(pid: int, ppid: int, user: string, state: string, command: string)

  datatype Node = Node(info: ProcInfo, children: seq<Node>)

  // What buildNode(pid) comes to: nil, a node, or no end in sight yet.
  datatype Built = Missing | Tree(node: Node) | OutOfFuel

  type Kept = map<int, ProcInfo>

  ghost predicate Consistent(kept: Kept, children: map<int, seq<int>>) {
    && (forall p :: p in kept ==> kept[p].pid == p)
    && (forall q :: q in children ==>
          && (forall i, j :: 0 <= i < j < |children[q]| ==> children[q][i] < children[q][j])
          && (forall c :: c in children[q] ==> c in kept && kept[c].ppid == q))
    && (forall c :: c in kept ==> kept[c].ppid in children && c in children[kept[c].ppid])
  }

  function ChildrenOf(children: map<int, seq<int>>, pid: int): seq<int> {
    if pid in children then children[pid] else []
  }

  function BuildTree(kept: Kept, children: map<int, seq<int>>, pid: int, fuel: nat): Built
    decreases fuel, 0, 0
  {
    if pid !in kept then Missing
    else if fuel == 0 then OutOfFuel
    else
      var kids := BuildAll(kept, children, ChildrenOf(children, pid), fuel - 1);
      if kids.None? then OutOfFuel else Tree(Node(kept[pid], kids.value))
  }

  // The loop over the children; None if one of the calls does not end.
  function BuildAll(kept: Kept, children: map<int, seq<int>>, pids: seq<int>, fuel: nat): Option<seq<Node>>
    decreases fuel, 1, |pids|
  {
    if pids == [] then Some([])
    else
      var first := BuildTree(kept, children, pids[0], fuel);
      var rest := BuildAll(kept, children, pids[1..], fuel);
      if first.OutOfFuel? || rest.None? then None
      else Some((if first.Tree? then [first.node] else []) + rest.value)
  }

  // ---------------------------------------------------------------- ancestors

  // The k-th ancestor of pid along parents that were kept.
  function Up(kept: Kept, pid: int, k: nat): Option<int>
    decreases k
  {
    if pid !in kept then None
    else if k == 0 then Some(pid)
    else Up(kept, kept[pid].ppid, k - 1)
  }

  ghost predicate Below(kept: Kept, root: int, pid: int) {
    exists k: nat :: Up(kept, pid, k) == Some(root)
  }

  ghost predicate OwnAncestor(kept: Kept, pid: int) {
    exists k: nat :: k > 0 && Up(kept, pid, k) == Some(pid)
  }

  lemma {:induction false} UpUp(kept: Kept, pid: int, j: nat, k: nat)
    requires Up(kept, pid, j).Some?
    ensures Up(kept, pid, j + k) == Up(kept, Up(kept, pid, j).value, k)
    decreases j
  {
    if j == 0 {
    } else {
      UpUp(kept, kept[pid].ppid, j - 1, k);
    }
  }

  // An ancestor of pid other than pid itself is at or above the parent.
  lemma ParentStep(kept: Kept, pid: int, k: nat)
    requires pid in kept
    ensures Up(kept, pid, k + 1) == Up(kept, kept[pid].ppid, k)
  {
  }

  // ---------------------------------------------------------------- with a cycle no fuel is enough

  lemma {:induction false} DoneMeansChildrenDone(kept: Kept, children: map<int, seq<int>>, pids: seq<int>,
                                                 fuel: nat, c: int)
    requires BuildAll(kept, children, pids, fuel).Some? && c in pids
    ensures !BuildTree(kept, children, c, fuel).OutOfFuel?
  {
    if pids[0] != c { DoneMeansChildrenDone(kept, children, pids[1..], fuel, c); }
  }

  // If the call on an ancestor ends, so does the one on the descendant, with that much less fuel.
  lemma {:induction false} DoneBelow(kept: Kept, children: map<int, seq<int>>, root: int, pid: int, k: nat, fuel: nat)
    requires Consistent(kept, children) && Up(kept, pid, k) == Some(root)
    requires BuildTree(kept, children, root, fuel).Tree?
    ensures fuel > k && BuildTree(kept, children, pid, fuel - k).Tree?
    decreases k
  {
    if k == 0 {
    } else {
      var parent := kept[pid].ppid;
      assert parent in kept;
      DoneBelow(kept, children, root, parent, k - 1, fuel);
      DoneMeansChildrenDone(kept, children, ChildrenOf(children, parent), fuel - k, pid);
    }
  }

  lemma {:induction false} CycleNeverEnds(kept: Kept, children: map<int, seq<int>>, root: int, k: nat, fuel: nat)
    requires Consistent(kept, children) && k > 0 && Up(kept, root, k) == Some(root)
    ensures BuildTree(kept, children, root, fuel).OutOfFuel?
    decreases fuel
  {
    if BuildTree(kept, children, root, fuel).Tree? {
      DoneBelow(kept, children, root, root, k, fuel);
      CycleNeverEnds(kept, children, root, k, fuel - k);
    }
  }

  // ---------------------------------------------------------------- without one, |kept| + 1 is enough

  // The pids on the way from pid up to its k-th ancestor.
  function Path(kept: Kept, pid: int, k: nat): set<int>
    requires Up(kept, pid, k).Some?
    decreases k
  {
    if k == 0 then {pid} else {pid} + Path(kept, kept[pid].ppid, k - 1)
  }

  lemma {:induction false} PathMembers(kept: Kept, pid: int, k: nat, x: int)
    requires Up(kept, pid, k).Some?
    ensures Path(kept, pid, k) <= kept.Keys
    ensures x in Path(kept, pid, k) ==> exists j: nat :: j <= k && Up(kept, pid, j) == Some(x)
    decreases k
  {
    if k == 0 {
    } else {
      PathMembers(kept, kept[pid].ppid, k - 1, x);
      if x != pid && x in Path(kept, pid, k) {
        var j: nat :| j <= k - 1 && Up(kept, kept[pid].ppid, j) == Some(x);
        assert Up(kept, pid, j + 1) == Some(x);
      }
    }
    if x == pid { assert Up(kept, pid, 0) == Some(x); }
  }

  // No pid repeats on the way up to a root that is not its own ancestor.
  lemma {:induction false} PathIsSimple(kept: Kept, root: int, pid: int, k: nat)
    requires Up(kept, pid, k) == Some(root) && !OwnAncestor(kept, root)
    ensures |Path(kept, pid, k)| == k + 1
    decreases k
  {
    if k == 0 {
    } else {
      var parent := kept[pid].ppid;
      PathIsSimple(kept, root, parent, k - 1);
      PathMembers(kept, parent, k - 1, pid);
      if pid in Path(kept, parent, k - 1) {
        var j: nat :| j <= k - 1 && Up(kept, parent, j) == Some(pid);
        assert Up(kept, pid, j + 1) == Some(pid);
        UpUp(kept, pid, j + 1, k);
        UpUp(kept, pid, k, j + 1);
      }
    }
  }

  lemma PathFits(kept: Kept, root: int, pid: int, k: nat)
    requires Up(kept, pid, k) == Some(root) && !OwnAncestor(kept, root)
    ensures k + 1 <= |kept|
  {
    PathIsSimple(kept, root, pid, k);
    PathMembers(kept, pid, k, pid);
    SubsetSize(Path(kept, pid, k), kept.Keys);
  }

  lemma {:induction false} EnoughFuel(kept: Kept, children: map<int, seq<int>>, root: int, pid: int, k: nat, fuel: nat)
    requires Consistent(kept, children) && Up(kept, pid, k) == Some(root) && !OwnAncestor(kept, root)
    requires fuel + k > |kept|
    ensures BuildTree(kept, children, pid, fuel).Tree?
    decreases fuel, 0, 0
  {
    PathFits(kept, root, pid, k);
    EnoughFuelForAll(kept, children, root, pid, k, ChildrenOf(children, pid), fuel - 1);
  }

  lemma {:induction false} EnoughFuelForAll(kept: Kept, children: map<int, seq<int>>, root: int, pid: int, k: nat,
                                            pids: seq<int>, fuel: nat)
    requires Consistent(kept, children) && Up(kept, pid, k) == Some(root) && !OwnAncestor(kept, root)
    requires fuel + k >= |kept|
    requires forall c :: c in pids ==> c in kept && kept[c].ppid == pid
    ensures BuildAll(kept, children, pids, fuel).Some?
    decreases fuel, 1, |pids|
  {
    if pids == [] {
    } else {
      ParentStep(kept, pids[0], k);
      EnoughFuel(kept, children, root, pids[0], k + 1, fuel);
      EnoughFuelForAll(kept, children, root, pid, k, pids[1..], fuel);
    }
  }

  // buildNode(root) ends exactly when root is not its own ancestor.
  lemma EndsIffNotOwnAncestor(kept: Kept, children: map<int, seq<int>>, root: int)
    requires Consistent(kept, children)
    ensures (exists fuel: nat :: !BuildTree(kept, children, root, fuel).OutOfFuel?) <==> !OwnAncestor(kept, root)
    ensures !OwnAncestor(kept, root) && root in kept ==> BuildTree(kept, children, root, |kept| + 1).Tree?
  {
    if OwnAncestor(kept, root) {
      var k: nat :| k > 0 && Up(kept, root, k) == Some(root);
      forall fuel: nat { CycleNeverEnds(kept, children, root, k, fuel); }
    } else if root in kept {
      assert Up(kept, root, 0) == Some(root);
      EnoughFuel(kept, children, root, root, 0, |kept| + 1);
    } else {
      assert BuildTree(kept, children, root, 0).Missing?;
    }
  }

  // ---------------------------------------------------------------- what is in the tree

  function Pids(t: Node): seq<int> {
    [t.info.pid] + AllPids(t.children)
  }

  function AllPids(ts: seq<Node>): seq<int> {
    if ts == [] then [] else Pids(ts[0]) + AllPids(ts[1..])
  }

  // Every node carries the kept record of its pid, and its children are in PID order.
  ghost predicate Faithful(kept: Kept, t: Node)
    decreases t
  {
    && t.info.pid in kept && t.info == kept[t.info.pid]
    && AllFaithful(kept, t.info.pid, t.children)
  }

  ghost predicate AllFaithful(kept: Kept, parent: int, ts: seq<Node>)
    decreases ts
  {
    ts != [] ==>
      && Faithful(kept, ts[0]) && ts[0].info.ppid == parent
      && (|ts| > 1 ==> ts[0].info.pid < ts[1].info.pid)
      && AllFaithful(kept, parent, ts[1..])
  }

  ghost predicate BelowSome(kept: Kept, pids: seq<int>, d: int) {
    exists i :: 0 <= i < |pids| && Below(kept, pids[i], d)
  }

  lemma BelowSelfOrChild(kept: Kept, children: map<int, seq<int>>, root: int, d: int)
    requires Consistent(kept, children) && root in kept
    ensures Below(kept, root, d) <==> d == root || BelowSome(kept, ChildrenOf(children, root), d)
  {
    var kids := ChildrenOf(children, root);
    assert Up(kept, root, 0) == Some(root);
    if Below(kept, root, d) && d != root {
      var k: nat :| Up(kept, d, k) == Some(root);
      var c := Up(kept, d, k - 1);
      BelowChild(kept, d, k);
      assert c.value in kids;
      var i :| 0 <= i < |kids| && kids[i] == c.value;
      assert Below(kept, kids[i], d);
    }
    if BelowSome(kept, kids, d) {
      var i :| 0 <= i < |kids| && Below(kept, kids[i], d);
      var k: nat :| Up(kept, d, k) == Some(kids[i]);
      UpUp(kept, d, k, 1);
      assert Up(kept, kids[i], 1) == Some(root);
      assert Up(kept, d, k + 1) == Some(root);
    }
  }

  lemma {:induction false} BelowChild(kept: Kept, d: int, k: nat)
    requires k > 0 && Up(kept, d, k).Some?
    ensures Up(kept, d, k - 1).Some?
    ensures var c := Up(kept, d, k - 1).value; c in kept && Some(kept[c].ppid) == Up(kept, d, k)
    decreases k
  {
    if k > 1 { BelowChild(kept, kept[d].ppid, k - 1); }
  }

  // Two different children of the same parent have no descendant in common, unless the parent is its own ancestor.
  lemma SiblingsDisjoint(kept: Kept, parent: int, a: int, b: int, d: int)
    requires a in kept && b in kept && kept[a].ppid == parent == kept[b].ppid && a != b
    requires parent in kept && !OwnAncestor(kept, parent)
    ensures !(Below(kept, a, d) && Below(kept, b, d))
  {
    if Below(kept, a, d) && Below(kept, b, d) {
      var j: nat :| Up(kept, d, j) == Some(a);
      var k: nat :| Up(kept, d, k) == Some(b);
      if j <= k { Nested(kept, parent, a, b, d, j, k); } else { Nested(kept, parent, b, a, d, k, j); }
    }
  }

  lemma Nested(kept: Kept, parent: int, a: int, b: int, d: int, j: nat, k: nat)
    requires a in kept && b in kept && kept[a].ppid == parent == kept[b].ppid && a != b && parent in kept
    requires j <= k && Up(kept, d, j) == Some(a) && Up(kept, d, k) == Some(b)
    ensures OwnAncestor(kept, parent)
  {
    UpUp(kept, d, j, k - j);
    assert Up(kept, a, k - j) == Some(b) && k > j;
    assert Up(kept, parent, k - j - 1) == Some(b);
    UpUp(kept, parent, k - j - 1, 1);
    assert Up(kept, b, 1) == Some(parent);
    assert Up(kept, parent, k - j) == Some(parent);
  }

  lemma {:induction false} TreeHoldsDescendants(kept: Kept, children: map<int, seq<int>>, pid: int, fuel: nat, d: int)
    requires Consistent(kept, children) && BuildTree(kept, children, pid, fuel).Tree?
    ensures var t := BuildTree(kept, children, pid, fuel).node;
            && t.info.pid == pid && Faithful(kept, t)
            && multiset(Pids(t))[d] == (if Below(kept, pid, d) then 1 else 0)
    decreases fuel, 0, 0
  {
    var kids := ChildrenOf(children, pid);
    DoneMeansNoCycle(kept, children, pid, fuel);
    ForestHoldsDescendants(kept, children, pid, kids, fuel - 1, d);
    BelowSelfOrChild(kept, children, pid, d);
    if d == pid { NotBelowOwnChild(kept, children, pid); }
  }

  lemma DoneMeansNoCycle(kept: Kept, children: map<int, seq<int>>, pid: int, fuel: nat)
    requires Consistent(kept, children) && BuildTree(kept, children, pid, fuel).Tree?
    ensures pid in kept && !OwnAncestor(kept, pid)
  {
    if k: nat :| k > 0 && Up(kept, pid, k) == Some(pid) { CycleNeverEnds(kept, children, pid, k, fuel); }
  }

  lemma NotBelowOwnChild(kept: Kept, children: map<int, seq<int>>, pid: int)
    requires Consistent(kept, children) && pid in kept && !OwnAncestor(kept, pid)
    ensures !BelowSome(kept, ChildrenOf(children, pid), pid)
  {
    var kids := ChildrenOf(children, pid);
    if i :| 0 <= i < |kids| && Below(kept, kids[i], pid) {
      var k: nat :| Up(kept, pid, k) == Some(kids[i]);
      assert Up(kept, kids[i], 1) == Some(pid);
      UpUp(kept, pid, k, 1);
    }
  }

  // The trees of these children of a parent, in their order.
  ghost predicate ForestOf(kept: Kept, parent: int, pids: seq<int>, ts: seq<Node>) {
    && |ts| == |pids| && (forall i :: 0 <= i < |ts| ==> ts[i].info.pid == pids[i])
    && AllFaithful(kept, parent, ts)
  }

  lemma BuildAllFirst(kept: Kept, children: map<int, seq<int>>, pids: seq<int>, fuel: nat)
    requires pids != [] && pids[0] in kept && BuildAll(kept, children, pids, fuel).Some?
    ensures BuildTree(kept, children, pids[0], fuel).Tree? && BuildAll(kept, children, pids[1..], fuel).Some?
    ensures BuildAll(kept, children, pids, fuel).value ==
            [BuildTree(kept, children, pids[0], fuel).node] + BuildAll(kept, children, pids[1..], fuel).value
  {
  }

  lemma ForestCons(kept: Kept, parent: int, pids: seq<int>, first: Node, rest: seq<Node>)
    requires pids != [] && forall i, j :: 0 <= i < j < |pids| ==> pids[i] < pids[j]
    requires first.info.pid == pids[0] && pids[0] in kept && kept[pids[0]].ppid == parent && Faithful(kept, first)
    requires ForestOf(kept, parent, pids[1..], rest)
    ensures ForestOf(kept, parent, pids, [first] + rest)
  {
    var ts := [first] + rest;
    assert ts[1..] == rest;
    forall i | 0 <= i < |ts|
      ensures ts[i].info.pid == pids[i]
    {
      if i > 0 { assert ts[i] == rest[i - 1]; }
    }
  }

  lemma {:induction false} ForestHoldsDescendants(kept: Kept, children: map<int, seq<int>>, parent: int, pids: seq<int>,
                                                  fuel: nat, d: int)
    requires Consistent(kept, children) && BuildAll(kept, children, pids, fuel).Some?
    requires parent in kept && !OwnAncestor(kept, parent)
    requires forall i, j :: 0 <= i < j < |pids| ==> pids[i] < pids[j]
    requires forall c :: c in pids ==> c in kept && kept[c].ppid == parent
    ensures var ts := BuildAll(kept, children, pids, fuel).value;
            && ForestOf(kept, parent, pids, ts)
            && multiset(AllPids(ts))[d] == (if BelowSome(kept, pids, d) then 1 else 0)
    decreases fuel, 1, |pids|
  {
    if pids == [] {
    } else {
      BuildAllFirst(kept, children, pids, fuel);
      TreeHoldsDescendants(kept, children, pids[0], fuel, d);
      ForestHoldsDescendants(kept, children, parent, pids[1..], fuel, d);
      var first := BuildTree(kept, children, pids[0], fuel).node;
      var rest := BuildAll(kept, children, pids[1..], fuel).value;
      ForestCons(kept, parent, pids, first, rest);
      BelowSomeSplit(kept, pids, d);
      NotBelowBoth(kept, parent, pids, d);
      CountAllPids(first, rest, [first] + rest, d);
    }
  }

  lemma CountAllPids(first: Node, rest: seq<Node>, ts: seq<Node>, d: int)
    requires ts == [first] + rest
    ensures multiset(AllPids(ts))[d] == multiset(Pids(first))[d] + multiset(AllPids(rest))[d]
  {
    assert ts[1..] == rest;
  }

  lemma NotBelowBoth(kept: Kept, parent: int, pids: seq<int>, d: int)
    requires pids != [] && parent in kept && !OwnAncestor(kept, parent)
    requires forall i, j :: 0 <= i < j < |pids| ==> pids[i] < pids[j]
    requires forall c :: c in pids ==> c in kept && kept[c].ppid == parent
    ensures !(Below(kept, pids[0], d) && BelowSome(kept, pids[1..], d))
  {
    if Below(kept, pids[0], d) && BelowSome(kept, pids[1..], d) {
      var i :| 0 <= i < |pids[1..]| && Below(kept, pids[1..][i], d);
      SiblingsDisjoint(kept, parent, pids[0], pids[i + 1], d);
    }
  }

  lemma BelowSomeSplit(kept: Kept, pids: seq<int>, d: int)
    requires pids != []
    ensures BelowSome(kept, pids, d) <==> Below(kept, pids[0], d) || BelowSome(kept, pids[1..], d)
  {
    if i :| 0 <= i < |pids| && Below(kept, pids[i], d) {
      if i > 0 { assert Below(kept, pids[1..][i - 1], d); }
    }
    if i :| 0 <= i < |pids[1..]| && Below(kept, pids[1..][i], d) {
      assert Below(kept, pids[i + 1], d);
    }
  }

  // ---------------------------------------------------------------- the whole capability

  function Passes(user: string, filter: string, equalFold: (string, string) -> bool): bool {
    filter == "" || equalFold(user, filter)
  }

  // processes after the first n entries.
  function KeptOf(entries: seq<ProcInfo>, filter: string, equalFold: (string, string) -> bool, n: nat): Kept
    requires n <= |entries|
  {
    if n == 0 then map[]
    else
      var before := KeptOf(entries, filter, equalFold, n - 1);
      var e := entries[n - 1];
      if Passes(e.user, filter, equalFold) then before[e.pid := e] else before
  }

  // An entry the filter lets through.
  predicate Shown(entries: seq<ProcInfo>, filter: string, equalFold: (string, string) -> bool, i: int) {
    0 <= i < |entries| && (filter == "" || equalFold(entries[i].user, filter))
  }

  // One of the first n entries, shown, is this record.
  ghost predicate ShownAs(entries: seq<ProcInfo>, filter: string, equalFold: (string, string) -> bool, n: nat,
                          x: ProcInfo)
  {
    exists i :: i < n && Shown(entries, filter, equalFold, i) && entries[i] == x
  }

  // The kept processes are the entries shown.
  lemma {:induction false} KeptAreShown(entries: seq<ProcInfo>, filter: string, equalFold: (string, string) -> bool,
                                        n: nat)
    requires n <= |entries| && forall i, j :: 0 <= i < j < |entries| ==> entries[i].pid != entries[j].pid
    ensures var kept := KeptOf(entries, filter, equalFold, n);
            && (forall i :: i < n && Shown(entries, filter, equalFold, i) ==>
                  entries[i].pid in kept && kept[entries[i].pid] == entries[i])
            && (forall p :: p in kept ==> kept[p].pid == p && ShownAs(entries, filter, equalFold, n, kept[p]))
  {
    if n == 0 {
    } else {
      KeptAreShown(entries, filter, equalFold, n - 1);
      var before, kept := KeptOf(entries, filter, equalFold, n - 1), KeptOf(entries, filter, equalFold, n);
      forall p | p in kept
        ensures kept[p].pid == p && ShownAs(entries, filter, equalFold, n, kept[p])
      {
        if p in before && kept[p] == before[p] {
          var i :| i < n - 1 && Shown(entries, filter, equalFold, i) && entries[i] == kept[p];
        } else {
          assert Shown(entries, filter, equalFold, n - 1);
        }
      }
    }
  }

  // The records of a tree, one for each node.
  function Infos(t: Node): seq<ProcInfo> {
    [t.info] + AllInfos(t.children)
  }

  function AllInfos(ts: seq<Node>): seq<ProcInfo> {
    if ts == [] then [] else Infos(ts[0]) + AllInfos(ts[1..])
  }

  lemma {:induction false} InfosAreKept(kept: Kept, t: Node)
    requires Faithful(kept, t)
    ensures forall x :: x in Infos(t) ==> x.pid in Pids(t) && x.pid in kept && kept[x.pid] == x
    ensures forall p :: p in Pids(t) ==> p in kept && kept[p] in Infos(t)
    decreases t
  {
    AllInfosAreKept(kept, t.info.pid, t.children);
  }

  lemma {:induction false} AllInfosAreKept(kept: Kept, parent: int, ts: seq<Node>)
    requires AllFaithful(kept, parent, ts)
    ensures forall x :: x in AllInfos(ts) ==> x.pid in AllPids(ts) && x.pid in kept && kept[x.pid] == x
    ensures forall p :: p in AllPids(ts) ==> p in kept && kept[p] in AllInfos(ts)
    decreases ts
  {
    if ts == [] {
    } else {
      InfosAreKept(kept, ts[0]);
      AllInfosAreKept(kept, parent, ts[1..]);
    }
  }

  // A way up from one pid to another: entries shown, each the parent of the one before it.
  predicate Leads(entries: seq<ProcInfo>, filter: string, equalFold: (string, string) -> bool, path: seq<int>,
                  from: int, to: int)
  {
    && path != [] && Shown(entries, filter, equalFold, path[0]) && entries[path[0]].pid == from
    && if |path| == 1 then entries[path[0]].ppid == to
       else Leads(entries, filter, equalFold, path[1..], entries[path[0]].ppid, to)
  }

  ghost predicate LeadsRound(entries: seq<ProcInfo>, filter: string, equalFold: (string, string) -> bool, pid: int) {
    exists path :: Leads(entries, filter, equalFold, path, pid, pid)
  }

  lemma {:induction false} UpLeads(entries: seq<ProcInfo>, filter: string, equalFold: (string, string) -> bool,
                                   from: int, to: int, k: nat) returns (path: seq<int>)
    requires forall i, j :: 0 <= i < j < |entries| ==> entries[i].pid != entries[j].pid
    requires k > 0 && Up(KeptOf(entries, filter, equalFold, |entries|), from, k) == Some(to)
    ensures Leads(entries, filter, equalFold, path, from, to)
    decreases k
  {
    var kept := KeptOf(entries, filter, equalFold, |entries|);
    KeptAreShown(entries, filter, equalFold, |entries|);
    var i :| i < |entries| && Shown(entries, filter, equalFold, i) && entries[i] == kept[from];
    if k == 1 {
      path := [i];
    } else {
      path := UpLeads(entries, filter, equalFold, kept[from].ppid, to, k - 1);
      path := [i] + path;
    }
  }

  lemma {:induction false} LeadsUp(entries: seq<ProcInfo>, filter: string, equalFold: (string, string) -> bool,
                                   path: seq<int>, from: int, to: int)
    requires forall i, j :: 0 <= i < j < |entries| ==> entries[i].pid != entries[j].pid
    requires Leads(entries, filter, equalFold, path, from, to)
    requires to in KeptOf(entries, filter, equalFold, |entries|)
    ensures Up(KeptOf(entries, filter, equalFold, |entries|), from, |path|) == Some(to)
    decreases |path|
  {
    KeptAreShown(entries, filter, equalFold, |entries|);
    if |path| == 1 {
    } else {
      LeadsUp(entries, filter, equalFold, path[1..], entries[path[0]].ppid, to);
    }
  }

  datatype Answer = NotFound | Found(root: Node) | NeverEnds

  // The answer in terms of the entries: no entry shown has the root's pid; or one that is shown leads back to
  // itself; or every node is an entry shown, the root with the pid asked for, and with a node every entry shown
  // whose parent it is.
  ghost predicate AnswersFor(entries: seq<ProcInfo>, rootPID: int, filter: string,
                             equalFold: (string, string) -> bool, answer: Answer)
  {
    && (answer.NotFound? <==> forall i :: Shown(entries, filter, equalFold, i) ==> entries[i].pid != rootPID)
    && (answer.NeverEnds? <==> LeadsRound(entries, filter, equalFold, rootPID))
    && (answer.Found? ==>
          var infos := Infos(answer.root);
          && answer.root.info.pid == rootPID
          && (forall x :: x in infos ==> exists i :: Shown(entries, filter, equalFold, i) && entries[i] == x)
          && (forall i, x :: Shown(entries, filter, equalFold, i) && x in infos && entries[i].ppid == x.pid ==>
                entries[i] in infos))
  }

  lemma NotFoundIff(entries: seq<ProcInfo>, rootPID: int, filter: string, equalFold: (string, string) -> bool)
    requires forall i, j :: 0 <= i < j < |entries| ==> entries[i].pid != entries[j].pid
    ensures rootPID in KeptOf(entries, filter, equalFold, |entries|) <==>
            exists i :: Shown(entries, filter, equalFold, i) && entries[i].pid == rootPID
  {
    KeptAreShown(entries, filter, equalFold, |entries|);
  }

  lemma RingIsOwnAncestor(entries: seq<ProcInfo>, rootPID: int, filter: string, equalFold: (string, string) -> bool,
                          path: seq<int>)
    requires forall i, j :: 0 <= i < j < |entries| ==> entries[i].pid != entries[j].pid
    requires Leads(entries, filter, equalFold, path, rootPID, rootPID)
    ensures OwnAncestor(KeptOf(entries, filter, equalFold, |entries|), rootPID)
  {
    KeptAreShown(entries, filter, equalFold, |entries|);
    LeadsUp(entries, filter, equalFold, path, rootPID, rootPID);
    var k: nat := |path|;
    assert k > 0 && Up(KeptOf(entries, filter, equalFold, |entries|), rootPID, k) == Some(rootPID);
  }

  lemma NeverEndsIff(entries: seq<ProcInfo>, rootPID: int, filter: string, equalFold: (string, string) -> bool)
    requires forall i, j :: 0 <= i < j < |entries| ==> entries[i].pid != entries[j].pid
    ensures OwnAncestor(KeptOf(entries, filter, equalFold, |entries|), rootPID) <==>
            LeadsRound(entries, filter, equalFold, rootPID)
  {
    var kept := KeptOf(entries, filter, equalFold, |entries|);
    if k: nat :| k > 0 && Up(kept, rootPID, k) == Some(rootPID) {
      var path := UpLeads(entries, filter, equalFold, rootPID, rootPID, k);
    }
    if LeadsRound(entries, filter, equalFold, rootPID) {
      var path :| Leads(entries, filter, equalFold, path, rootPID, rootPID);
      RingIsOwnAncestor(entries, rootPID, filter, equalFold, path);
    }
  }

  // A kept child of a node of the tree is in the tree.
  lemma ChildIsBelow(kept: Kept, root: int, pid: int)
    requires pid in kept && Below(kept, root, kept[pid].ppid)
    ensures Below(kept, root, pid)
  {
    var k: nat :| Up(kept, kept[pid].ppid, k) == Some(root);
    assert Up(kept, pid, k + 1) == Some(root);
  }

  lemma FoundTree(entries: seq<ProcInfo>, rootPID: int, filter: string, equalFold: (string, string) -> bool, root: Node)
    requires forall i, j :: 0 <= i < j < |entries| ==> entries[i].pid != entries[j].pid
    requires var kept := KeptOf(entries, filter, equalFold, |entries|);
             && Faithful(kept, root)
             && forall d :: multiset(Pids(root))[d] == if Below(kept, rootPID, d) then 1 else 0
    ensures forall x :: x in Infos(root) ==> exists i :: Shown(entries, filter, equalFold, i) && entries[i] == x
    ensures forall i, x :: Shown(entries, filter, equalFold, i) && x in Infos(root) && entries[i].ppid == x.pid ==>
              entries[i] in Infos(root)
  {
    var kept := KeptOf(entries, filter, equalFold, |entries|);
    KeptAreShown(entries, filter, equalFold, |entries|);
    InfosAreKept(kept, root);
    forall i, x | Shown(entries, filter, equalFold, i) && x in Infos(root) && entries[i].ppid == x.pid
      ensures entries[i] in Infos(root)
    {
      assert x.pid in Pids(root) && x.pid in multiset(Pids(root));
      ChildIsBelow(kept, rootPID, entries[i].pid);
      assert entries[i].pid in multiset(Pids(root));
    }
  }

  // children lists every kept pid once, under its parent.
  ghost predicate Collected(kept: Kept, children: map<int, seq<int>>) {
    && (forall p :: p in kept ==> kept[p].pid == p)
    && (forall q :: q in children ==>
          && Distinct(children[q])
          && (forall c :: c in children[q] ==> c in kept && kept[c].ppid == q))
    && (forall c :: c in kept ==> kept[c].ppid in children && c in children[kept[c].ppid])
  }

  // The scan of the directory entries.
  method Scan(entries: seq<ProcInfo>, filter: string, equalFold: (string, string) -> bool)
    returns (processes: Kept, children: map<int, seq<int>>)
    requires forall i, j :: 0 <= i < j < |entries| ==> entries[i].pid != entries[j].pid
    ensures processes == KeptOf(entries, filter, equalFold, |entries|)
    ensures forall i :: Shown(entries, filter, equalFold, i) ==>
              entries[i].pid in processes && processes[entries[i].pid] == entries[i]
    ensures forall p :: p in processes ==>
              processes[p].pid == p && ShownAs(entries, filter, equalFold, |entries|, processes[p])
    ensures Collected(processes, children)
  {
    processes, children := map[], map[];
    var i := 0;
    while i < |entries|
      invariant 0 <= i <= |entries|
      invariant processes == KeptOf(entries, filter, equalFold, i)
      invariant forall p :: p in processes ==> exists j :: 0 <= j < i && entries[j].pid == p
      invariant Collected(processes, children)
    {
      var info := entries[i];
      if Passes(info.user, filter, equalFold) {
        assert info.pid !in processes;
        var siblings := if info.ppid in children then children[info.ppid] else [];
        CollectOne(processes, children, info, siblings);
        processes := processes[info.pid := info];
        children := children[info.ppid := siblings + [info.pid]];
      }
      i := i + 1;
    }
    KeptAreShown(entries, filter, equalFold, |entries|);
  }

  lemma CollectOne(kept: Kept, children: map<int, seq<int>>, info: ProcInfo, siblings: seq<int>)
    requires Collected(kept, children) && info.pid !in kept
    requires siblings == if info.ppid in children then children[info.ppid] else []
    ensures Collected(kept[info.pid := info], children[info.ppid := siblings + [info.pid]])
  {
    forall c | c in siblings
      ensures c in kept && kept[c].ppid == info.ppid
    {
    }
  }

  method SortChildren(kept: Kept, children: map<int, seq<int>>) returns (sorted: map<int, seq<int>>)
    requires Collected(kept, children)
    ensures Consistent(kept, sorted)
  {
    sorted := children;
    var rest := sorted.Keys;
    while rest != {}
      invariant rest <= sorted.Keys
      invariant Collected(kept, sorted)
      invariant forall q :: q in sorted && q !in rest ==> SortedBy(sorted[q], IntLeq)
      decreases |rest|
    {
      var q := AnyOf(rest);
      SortSorts(sorted[q], IntLeq);
      SortKeepsDistinct(sorted[q], IntLeq);
      sorted := sorted[q := Sort(sorted[q], IntLeq)];
      rest := rest - {q};
    }
    SortedMeansConsistent(kept, sorted);
  }

  lemma SortedMeansConsistent(kept: Kept, children: map<int, seq<int>>)
    requires Collected(kept, children)
    requires forall q :: q in children ==> SortedBy(children[q], IntLeq)
    ensures Consistent(kept, children)
  {
    forall q, i, j | q in children && 0 <= i < j < |children[q]|
      ensures children[q][i] < children[q][j]
    {
      assert IntLeq(children[q][i], children[q][j]);
    }
  }

  // Not found, a tree holding every kept descendant of the root exactly once, or no end: the last exactly
  // when the root is its own ancestor.
  method BuildProcessTree(entries: seq<ProcInfo>, rootPID: int, filter: string, equalFold: (string, string) -> bool)
    returns (answer: Answer)
    requires forall i, j :: 0 <= i < j < |entries| ==> entries[i].pid != entries[j].pid
    ensures var kept := KeptOf(entries, filter, equalFold, |entries|);
            && (answer.NotFound? <==> rootPID !in kept)
            && (answer.NeverEnds? <==> OwnAncestor(kept, rootPID))
            && (answer.Found? ==>
                  && answer.root.info.pid == rootPID && Faithful(kept, answer.root)
                  && (forall d :: multiset(Pids(answer.root))[d] == if Below(kept, rootPID, d) then 1 else 0))
    ensures AnswersFor(entries, rootPID, filter, equalFold, answer)
  {
    var processes, unsorted := Scan(entries, filter, equalFold);
    var children := SortChildren(processes, unsorted);
    EndsIffNotOwnAncestor(processes, children, rootPID);
    var fuel := |processes| + 1;
    NotFoundIff(entries, rootPID, filter, equalFold);
    NeverEndsIff(entries, rootPID, filter, equalFold);
    var built := BuildTree(processes, children, rootPID, fuel);
    match built
    case Missing => answer := NotFound;
    case OutOfFuel => answer := NeverEnds;
    case Tree(node) =>
      forall d { TreeHoldsDescendants(processes, children, rootPID, fuel, d); }
      TreeHoldsDescendants(processes, children, rootPID, fuel, 0);
      FoundTree(entries, rootPID, filter, equalFold, node);
      answer := Found(node);
  }
}
