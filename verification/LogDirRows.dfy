/**
 The rows of Kafka log directories under a broker and a topic filter (internal/provider/kafka/logdir_helpers.go), in
 the order in which both the listing and the totals visit them: by directory, topic and partition.
 */
module LogDirRows {
  import opened Sorting
  import opened Text
  import opened Wrappers

  type Partitions = map<int, int>

  datatype LogDir = LogDir(broker: int, dir: string, topics: map<string, Partitions>)

  datatype Replica = Replica(broker: int, dir: string, topic: string, partition: int, size: int)

  // ---------------------------------------------------------------- the filtered traversal

  // An empty filter lets everything pass.
  predicate Passes<T(==)>(filter: seq<T>, x: T) {
    filter == [] || x in filter
  }

  function Kept(all: seq<LogDir>, brokers: seq<int>): seq<LogDir> {
    if all == [] then []
    else Kept(all[..|all| - 1], brokers) + if Passes(brokers, all[|all| - 1].broker) then [all[|all| - 1]] else []
  }

  // `all` is what kadm's Sorted returns: the directories by broker and path.
  method SortedLogDirs(all: seq<LogDir>, brokers: seq<int>) returns (dirs: seq<LogDir>)
    ensures dirs == Kept(all, brokers)
    ensures forall d :: d in dirs <==> d in all && (brokers == [] || d.broker in brokers)
  {
    dirs := [];
    var i := 0;
    while i < |all|
      invariant 0 <= i <= |all| && dirs == Kept(all[..i], brokers)
    {
      assert all[..i + 1][..i] == all[..i];
      if Passes(brokers, all[i].broker) {
        dirs := dirs + [all[i]];
      }
      i := i + 1;
    }
    assert all[..|all|] == all;
    KeptAre(all, brokers);
  }

  lemma {:induction false} KeptAre(all: seq<LogDir>, brokers: seq<int>)
    ensures forall d :: d in Kept(all, brokers) <==> d in all && (brokers == [] || d.broker in brokers)
  {
    if all == [] {
    } else {
      KeptAre(all[..|all| - 1], brokers);
      assert all == all[..|all| - 1] + [all[|all| - 1]];
    }
  }

  // The rows of several keys, one key after the other.
  ghost function FlatMap<K>(ks: seq<K>, f: K -> seq<Replica>): seq<Replica> {
    if ks == [] then [] else FlatMap(ks[..|ks| - 1], f) + f(ks[|ks| - 1])
  }

  lemma FlatNext<K>(ks: seq<K>, f: K -> seq<Replica>, i: nat)
    requires i < |ks|
    ensures FlatMap(ks[..i + 1], f) == FlatMap(ks[..i], f) + f(ks[i])
  {
    assert ks[..i + 1][..i] == ks[..i];
  }

  lemma {:induction false} FlatRest<K>(ks: seq<K>, f: K -> seq<Replica>, k: nat) returns (more: seq<Replica>)
    requires k <= |ks|
    ensures FlatMap(ks, f) == FlatMap(ks[..k], f) + more
    decreases |ks| - k
  {
    if k < |ks| {
      more := FlatRest(ks, f, k + 1);
      FlatNext(ks, f, k);
      Assoc(FlatMap(ks[..k], f), f(ks[k]), more);
      more := f(ks[k]) + more;
    } else {
      assert ks[..k] == ks;
      more := [];
    }
  }

  lemma Assoc(a: seq<Replica>, b: seq<Replica>, c: seq<Replica>)
    ensures a + (b + c) == a + b + c
  {
  }

  lemma {:induction false} FlatAppend<K>(a: seq<K>, b: seq<K>, f: K -> seq<Replica>)
    ensures FlatMap(a + b, f) == FlatMap(a, f) + FlatMap(b, f)
  {
    if b == [] {
      assert a + b == a;
    } else {
      var init, last := b[..|b| - 1], b[|b| - 1];
      assert (a + b)[..|a + b| - 1] == a + init;
      FlatAppend(a, init, f);
      Assoc(FlatMap(a, f), FlatMap(init, f), f(last));
    }
  }

  // The order of the keys changes only the order of the rows.
  lemma {:induction false} FlatPermuted<K>(a: seq<K>, b: seq<K>, f: K -> seq<Replica>)
    requires multiset(a) == multiset(b)
    ensures multiset(FlatMap(a, f)) == multiset(FlatMap(b, f))
  {
    SameMembers(a, b);
    if a == [] {
    } else {
      var last := a[|a| - 1];
      assert last in b;
      var k :| 0 <= k < |b| && b[k] == last;
      WithoutOne(a, b, k);
      FlatPermuted(a[..|a| - 1], b[..k] + b[k + 1..], f);
      FlatAround(b[..k], last, b[k + 1..], f);
      assert b == b[..k] + [last] + b[k + 1..];
    }
  }

  lemma FlatAround<K>(before: seq<K>, x: K, after: seq<K>, f: K -> seq<Replica>)
    ensures multiset(FlatMap(before + [x] + after, f)) == multiset(FlatMap(before + after, f)) + multiset(f(x))
  {
    FlatAppend(before, after, f);
    FlatAppend(before + [x], after, f);
    FlatNext(before + [x], f, |before|);
    assert (before + [x])[..|before|] == before && (before + [x])[..|before| + 1] == before + [x];
  }

  ghost function RowOf(d: LogDir, topic: string): int -> seq<Replica> {
    p => if topic in d.topics && p in d.topics[topic] then
           [Replica(d.broker, d.dir, topic, p, d.topics[topic][p])]
         else []
  }

  // The rows of one topic of a directory, in the order of the partitions.
  ghost function TopicRows(d: LogDir, topic: string): seq<Replica>
    requires topic in d.topics
  {
    IntLeqIsOrder();
    FlatMap(ListOf(d.topics[topic].Keys, IntLeq), RowOf(d, topic))
  }

  ghost function TopicOf(d: LogDir, topics: seq<string>): string -> seq<Replica> {
    t => if t in d.topics && Passes(topics, t) then TopicRows(d, t) else []
  }

  // The rows of a directory, in the order of the topics.
  ghost function DirRows(d: LogDir, topics: seq<string>): seq<Replica> {
    LeqIsOrder();
    FlatMap(ListOf(d.topics.Keys, Leq), TopicOf(d, topics))
  }

  ghost function DirOf(topics: seq<string>): LogDir -> seq<Replica> {
    d => DirRows(d, topics)
  }

  // Every row there is, in order.
  ghost function Rows(dirs: seq<LogDir>, topics: seq<string>): seq<Replica> {
    FlatMap(dirs, DirOf(topics))
  }

  // ---------------------------------------------------------------- rows in another order

  lemma PickOne<T>(s: seq<T>, k: nat)
    requires k < |s|
    ensures multiset(s) == multiset(s[..k]) + multiset{s[k]} + multiset(s[k + 1..])
  {
    assert s == s[..k] + [s[k]] + s[k + 1..];
  }

  lemma LastOut<T>(a: multiset<T>, b: multiset<T>, x: T)
    ensures a + multiset{x} + b == a + b + multiset{x}
  {
  }

  lemma CancelOne<T>(a: multiset<T>, b: multiset<T>, x: T)
    requires a + multiset{x} == b + multiset{x}
    ensures a == b
  {
    assert a == a + multiset{x} - multiset{x} && b == b + multiset{x} - multiset{x};
  }

  lemma WithoutOne<T>(a: seq<T>, b: seq<T>, k: nat)
    requires a != [] && k < |b| && b[k] == a[|a| - 1] && multiset(a) == multiset(b)
    ensures multiset(a[..|a| - 1]) == multiset(b[..k] + b[k + 1..])
  {
    PickOne(a, |a| - 1);
    assert a[|a| - 1 + 1..] == [];
    PickOne(b, k);
    LastOut(multiset(b[..k]), multiset(b[k + 1..]), b[k]);
    CancelOne(multiset(a[..|a| - 1]), multiset(b[..k]) + multiset(b[k + 1..]), b[k]);
  }

  // ---------------------------------------------------------------- what the traversal lists

  // A row of the directory that both filters let through; an empty filter lets everything through.
  predicate IsRow(d: LogDir, brokers: seq<int>, topics: seq<string>, r: Replica) {
    && r.broker == d.broker && r.dir == d.dir
    && r.topic in d.topics && r.partition in d.topics[r.topic] && r.size == d.topics[r.topic][r.partition]
    && (brokers == [] || d.broker in brokers)
    && (topics == [] || r.topic in topics)
  }

  // Before it by topic and then partition.
  predicate RowLt(a: Replica, b: Replica) {
    Leq(a.topic, b.topic) && (a.topic == b.topic ==> a.partition < b.partition)
  }

  // Every row of every directory, once each: the directories in their order, the rows of each by topic and then
  // partition. `own` gives the directory of each row.
  ghost predicate IsTraversal(all: seq<LogDir>, brokers: seq<int>, topics: seq<string>, rows: seq<Replica>,
                              own: seq<int>)
  {
    && |own| == |rows|
    && (forall k :: 0 <= k < |rows| ==> 0 <= own[k] < |all| && IsRow(all[own[k]], brokers, topics, rows[k]))
    && (forall i, r :: 0 <= i < |all| && IsRow(all[i], brokers, topics, r) ==> IsAt(rows, own, i, r))
    && (forall j, k :: 0 <= j < k < |rows| ==> own[j] < own[k] || (own[j] == own[k] && RowLt(rows[j], rows[k])))
  }

  ghost predicate IsAt(rows: seq<Replica>, own: seq<int>, i: int, r: Replica) {
    exists k :: 0 <= k < |rows| && k < |own| && own[k] == i && rows[k] == r
  }

  lemma {:induction false} FlatMember<K>(ks: seq<K>, f: K -> seq<Replica>, r: Replica)
    ensures r in FlatMap(ks, f) <==> exists i :: 0 <= i < |ks| && r in f(ks[i])
  {
    if ks == [] {
    } else {
      var n := |ks| - 1;
      FlatMember(ks[..n], f, r);
      assert forall i :: 0 <= i < n ==> ks[..n][i] == ks[i];
    }
  }

  ghost predicate Ascending(rows: seq<Replica>) {
    forall j, k :: 0 <= j < k < |rows| ==> RowLt(rows[j], rows[k])
  }

  // Ascending runs, each below the next, ascend together.
  lemma {:induction false} FlatAscends<K>(ks: seq<K>, f: K -> seq<Replica>)
    requires forall i :: 0 <= i < |ks| ==> Ascending(f(ks[i]))
    requires forall i, j, x, y :: 0 <= i < j < |ks| && x in f(ks[i]) && y in f(ks[j]) ==> RowLt(x, y)
    ensures Ascending(FlatMap(ks, f))
  {
    if ks == [] {
    } else {
      var n := |ks| - 1;
      FlatAscends(ks[..n], f);
      var before, last := FlatMap(ks[..n], f), f(ks[n]);
      forall x, y | x in before && y in last
        ensures RowLt(x, y)
      {
        FlatMember(ks[..n], f, x);
      }
    }
  }

  lemma OneRow(d: LogDir, topic: string, p: int)
    requires topic in d.topics && p in d.topics[topic]
    ensures RowOf(d, topic)(p) == [Replica(d.broker, d.dir, topic, p, d.topics[topic][p])]
  {
  }

  lemma PartitionRowsAre(d: LogDir, topic: string, ps: seq<int>, r: Replica)
    requires topic in d.topics && forall p :: p in ps <==> p in d.topics[topic]
    ensures r in FlatMap(ps, RowOf(d, topic)) <==>
            && r.broker == d.broker && r.dir == d.dir && r.topic == topic
            && r.partition in d.topics[topic] && r.size == d.topics[topic][r.partition]
  {
    FlatMember(ps, RowOf(d, topic), r);
    if i :| 0 <= i < |ps| && r in RowOf(d, topic)(ps[i]) { OneRow(d, topic, ps[i]); }
    if r.partition in d.topics[topic] {
      var i :| 0 <= i < |ps| && ps[i] == r.partition;
      OneRow(d, topic, ps[i]);
    }
  }

  lemma PartitionRowsAscend(d: LogDir, topic: string, ps: seq<int>)
    requires topic in d.topics && (forall p :: p in ps ==> p in d.topics[topic])
    requires forall i, j :: 0 <= i < j < |ps| ==> ps[i] < ps[j]
    ensures Ascending(FlatMap(ps, RowOf(d, topic)))
  {
    LeqTotal(topic, topic);
    var f := RowOf(d, topic);
    forall i | 0 <= i < |ps|
      ensures |f(ps[i])| == 1 && f(ps[i])[0].topic == topic && f(ps[i])[0].partition == ps[i]
    {
      OneRow(d, topic, ps[i]);
    }
    FlatAscends(ps, f);
  }

  lemma StrictlyIncreasing(ps: seq<int>)
    requires SortedBy(ps, IntLeq) && Distinct(ps)
    ensures forall i, j :: 0 <= i < j < |ps| ==> ps[i] < ps[j]
  {
    forall i, j | 0 <= i < j < |ps|
      ensures ps[i] < ps[j]
    {
      assert IntLeq(ps[i], ps[j]);
    }
  }

  lemma TopicRowsAre(d: LogDir, topic: string, r: Replica)
    requires topic in d.topics
    ensures r in TopicRows(d, topic) <==>
            && r.broker == d.broker && r.dir == d.dir && r.topic == topic
            && r.partition in d.topics[topic] && r.size == d.topics[topic][r.partition]
    ensures Ascending(TopicRows(d, topic))
  {
    IntLeqIsOrder();
    var ps := ListOf(d.topics[topic].Keys, IntLeq);
    StrictlyIncreasing(ps);
    PartitionRowsAre(d, topic, ps, r);
    PartitionRowsAscend(d, topic, ps);
  }

  lemma RowsOfTopic(d: LogDir, topics: seq<string>, topic: string)
    requires topic in d.topics
    ensures Ascending(TopicOf(d, topics)(topic))
    ensures forall r :: r in TopicOf(d, topics)(topic) <==> r.topic == topic && IsRow(d, [], topics, r)
  {
    TopicRowsAre(d, topic, Replica(0, "", "", 0, 0));
    forall r
      ensures r in TopicOf(d, topics)(topic) <==> r.topic == topic && IsRow(d, [], topics, r)
    {
      TopicRowsAre(d, topic, r);
    }
  }

  lemma NamedRowsAre(d: LogDir, topics: seq<string>, ts: seq<string>)
    requires forall t :: t in ts <==> t in d.topics
    ensures forall r :: r in FlatMap(ts, TopicOf(d, topics)) <==> IsRow(d, [], topics, r)
  {
    forall r
      ensures r in FlatMap(ts, TopicOf(d, topics)) <==> IsRow(d, [], topics, r)
    {
      FlatMember(ts, TopicOf(d, topics), r);
      if i :| 0 <= i < |ts| && r in TopicOf(d, topics)(ts[i]) { RowsOfTopic(d, topics, ts[i]); }
      if IsRow(d, [], topics, r) {
        var i :| 0 <= i < |ts| && ts[i] == r.topic;
        RowsOfTopic(d, topics, ts[i]);
      }
    }
  }

  lemma NamedRowsAscend(d: LogDir, topics: seq<string>, ts: seq<string>)
    requires (forall t :: t in ts ==> t in d.topics) && SortedBy(ts, Leq) && Distinct(ts)
    ensures Ascending(FlatMap(ts, TopicOf(d, topics)))
  {
    var f := TopicOf(d, topics);
    forall i | 0 <= i < |ts|
      ensures Ascending(f(ts[i])) && forall x :: x in f(ts[i]) ==> x.topic == ts[i]
    {
      RowsOfTopic(d, topics, ts[i]);
    }
    forall i, j, x, y | 0 <= i < j < |ts| && x in f(ts[i]) && y in f(ts[j])
      ensures RowLt(x, y)
    {
      assert Leq(ts[i], ts[j]) && ts[i] != ts[j];
    }
    FlatAscends(ts, f);
  }

  lemma DirRowsAre(d: LogDir, topics: seq<string>)
    ensures forall r :: r in DirRows(d, topics) <==> IsRow(d, [], topics, r)
    ensures Ascending(DirRows(d, topics))
  {
    LeqIsOrder();
    var ts := ListOf(d.topics.Keys, Leq);
    NamedRowsAre(d, topics, ts);
    NamedRowsAscend(d, topics, ts);
  }

  lemma KeptNext(all: seq<LogDir>, brokers: seq<int>, topics: seq<string>)
    requires all != []
    ensures var n := |all| - 1;
            Rows(Kept(all, brokers), topics) ==
            Rows(Kept(all[..n], brokers), topics)
              + if Passes(brokers, all[n].broker) then DirRows(all[n], topics) else []
  {
    var n := |all| - 1;
    var kept := Kept(all[..n], brokers);
    if Passes(brokers, all[n].broker) {
      assert Kept(all, brokers) == kept + [all[n]];
      assert (kept + [all[n]])[..|kept|] == kept && (kept + [all[n]])[..|kept| + 1] == kept + [all[n]];
      FlatNext(kept + [all[n]], DirOf(topics), |kept|);
    } else {
      assert Kept(all, brokers) == kept;
    }
  }

  // The rows visited are the traversal.
  lemma {:induction false} RowsAreTraversal(all: seq<LogDir>, brokers: seq<int>, topics: seq<string>)
    returns (own: seq<int>)
    ensures IsTraversal(all, brokers, topics, Rows(Kept(all, brokers), topics), own)
  {
    if all == [] {
      own := [];
    } else {
      var n := |all| - 1;
      var before := Rows(Kept(all[..n], brokers), topics);
      own := RowsAreTraversal(all[..n], brokers, topics);
      KeptNext(all, brokers, topics);
      if Passes(brokers, all[n].broker) {
        var more := DirRows(all[n], topics);
        DirRowsAre(all[n], topics);
        OneMoreDir(all, brokers, topics, before, own, more);
        own := own + seq(|more|, _ => n);
      } else {
        assert before + [] == before;
        NoMoreRows(all, brokers, topics, before, own);
      }
    }
  }

  lemma OneMoreDir(all: seq<LogDir>, brokers: seq<int>, topics: seq<string>, rows: seq<Replica>, own: seq<int>,
                   more: seq<Replica>)
    requires all != [] && IsTraversal(all[..|all| - 1], brokers, topics, rows, own)
    requires Ascending(more) && forall r :: r in more <==> IsRow(all[|all| - 1], brokers, topics, r)
    ensures IsTraversal(all, brokers, topics, rows + more, own + seq(|more|, _ => |all| - 1))
  {
    var n := |all| - 1;
    var rows', own' := rows + more, own + seq(|more|, _ => n);
    forall k | 0 <= k < |rows'|
      ensures 0 <= own'[k] < |all| && IsRow(all[own'[k]], brokers, topics, rows'[k])
    {
      if k >= |rows| { assert rows'[k] in more; }
    }
    forall i, r | 0 <= i < |all| && IsRow(all[i], brokers, topics, r)
      ensures IsAt(rows', own', i, r)
    {
      if i < n {
        assert IsRow(all[..n][i], brokers, topics, r);
        StillAt(rows, own, more, seq(|more|, _ => n), i, r);
      } else {
        assert r in more;
        NowAt(rows, own, more, n, r);
      }
    }
    forall j, k | 0 <= j < k < |rows'|
      ensures own'[j] < own'[k] || (own'[j] == own'[k] && RowLt(rows'[j], rows'[k]))
    {
      if j >= |rows| { assert RowLt(more[j - |rows|], more[k - |rows|]); }
    }
  }

  lemma StillAt(rows: seq<Replica>, own: seq<int>, more: seq<Replica>, moreOwn: seq<int>, i: int, r: Replica)
    requires |own| == |rows| && IsAt(rows, own, i, r)
    ensures IsAt(rows + more, own + moreOwn, i, r)
  {
    var k :| 0 <= k < |rows| && own[k] == i && rows[k] == r;
    assert (rows + more)[k] == r && (own + moreOwn)[k] == i;
  }

  lemma NowAt(rows: seq<Replica>, own: seq<int>, more: seq<Replica>, n: int, r: Replica)
    requires |own| == |rows| && r in more
    ensures IsAt(rows + more, own + seq(|more|, _ => n), n, r)
  {
    var k :| 0 <= k < |more| && more[k] == r;
    assert (rows + more)[|rows| + k] == r && (own + seq(|more|, _ => n))[|rows| + k] == n;
  }

  lemma NoMoreRows(all: seq<LogDir>, brokers: seq<int>, topics: seq<string>, rows: seq<Replica>, own: seq<int>)
    requires all != [] && IsTraversal(all[..|all| - 1], brokers, topics, rows, own)
    requires brokers != [] && all[|all| - 1].broker !in brokers
    ensures IsTraversal(all, brokers, topics, rows, own)
  {
    forall i, r | 0 <= i < |all| && IsRow(all[i], brokers, topics, r)
      ensures IsAt(rows, own, i, r)
    {
      assert all[..|all| - 1][i] == all[i];
    }
  }
}
