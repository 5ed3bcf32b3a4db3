/**
 Replica sizes of Kafka log directories: the bounded listing (internal/provider/kafka/logdir_replica_sizes.go)
 and the totals per topic (storage_topic_sizes.go), over the same rows.

 Sizes are int64 and sums wrap around.
 */
module LogDirSizes {
  import opened Int64
  import opened LogDirRows
  import opened Sorting
  import opened Text
  import opened Wrappers

  // ---------------------------------------------------------------- sums

  // Total of a weight over rows.
  function Weigh(rows: seq<Replica>, w: Replica -> int): int {
    if rows == [] then 0 else Weigh(rows[..|rows| - 1], w) + w(rows[|rows| - 1])
  }

  function Size(): Replica -> int {
    (r: Replica) => r.size
  }

  lemma WeighOne(rows: seq<Replica>, r: Replica, w: Replica -> int)
    ensures Weigh(rows + [r], w) == Weigh(rows, w) + w(r)
  {
    assert (rows + [r])[..|rows|] == rows;
  }

  lemma {:induction false} WeighAppend(a: seq<Replica>, b: seq<Replica>, w: Replica -> int)
    ensures Weigh(a + b, w) == Weigh(a, w) + Weigh(b, w)
  {
    if b == [] {
      assert a + b == a;
    } else {
      assert (a + b)[..|a + b| - 1] == a + b[..|b| - 1];
      WeighAppend(a, b[..|b| - 1], w);
    }
  }

  // The order of the rows does not matter.
  lemma {:induction false} WeighPermuted(a: seq<Replica>, b: seq<Replica>, w: Replica -> int)
    requires multiset(a) == multiset(b)
    ensures Weigh(a, w) == Weigh(b, w)
  {
    SameMembers(a, b);
    if a == [] {
    } else {
      var init, last := a[..|a| - 1], a[|a| - 1];
      assert last in b;
      var k :| 0 <= k < |b| && b[k] == last;
      WithoutOne(a, b, k);
      WeighPermuted(init, b[..k] + b[k + 1..], w);
      WeighAround(b[..k], b[k], b[k + 1..], w);
      assert b == b[..k] + [b[k]] + b[k + 1..];
    }
  }

  lemma WeighAround(before: seq<Replica>, r: Replica, after: seq<Replica>, w: Replica -> int)
    ensures Weigh(before + [r] + after, w) == Weigh(before + after, w) + w(r)
  {
    WeighAppend(before, after, w);
    WeighAppend(before + [r], after, w);
    WeighOne(before, r, w);
  }

  // ---------------------------------------------------------------- the bounded listing

  // What has been listed after traversing `rows`.
  predicate Listed(rows: seq<Replica>, limit: nat, replicas: seq<Replica>, total: int, truncated: bool) {
    && replicas == Take(rows, limit)
    && (truncated <==> |rows| > limit)
    && total == Wrap64(Weigh(replicas, Size()))
  }

  // One more row: listed if there is room, else the listing is cut.
  lemma ListedNext(rows: seq<Replica>, limit: nat, replicas: seq<Replica>, total: int, row: Replica)
    requires Listed(rows, limit, replicas, total, false)
    ensures if |replicas| >= limit then Listed(rows + [row], limit, replicas, total, true)
            else Listed(rows + [row], limit, replicas + [row], Wrap64(total + row.size), false)
  {
    if |replicas| < limit {
      WeighOne(replicas, row, Size());
      WrapSum(Weigh(replicas, Size()), row.size);
    } else {
      assert (rows + [row])[..limit] == rows;
    }
  }

  // Once cut, the rows of the remaining keys change nothing.
  lemma ListedStays<K>(rows: seq<Replica>, ks: seq<K>, f: K -> seq<Replica>, i: nat, limit: nat,
                       replicas: seq<Replica>, total: int)
    requires i <= |ks| && Listed(rows + FlatMap(ks[..i], f), limit, replicas, total, true)
    ensures Listed(rows + FlatMap(ks, f), limit, replicas, total, true)
  {
    var more := FlatRest(ks, f, i);
    var seen := rows + FlatMap(ks[..i], f);
    Assoc(rows, FlatMap(ks[..i], f), more);
    assert (seen + more)[..limit] == seen[..limit];
  }

  // The rows of the next key are traversed.
  lemma ListedKey<K>(rows: seq<Replica>, ks: seq<K>, f: K -> seq<Replica>, i: nat)
    requires i < |ks|
    ensures rows + FlatMap(ks[..i + 1], f) == rows + FlatMap(ks[..i], f) + f(ks[i])
  {
    FlatNext(ks, f, i);
    Assoc(rows, FlatMap(ks[..i], f), f(ks[i]));
  }

  // for k := range m: the keys in some order.
  method KeysOf<K(==,!new), V>(m: map<K, V>) returns (keys: seq<K>)
    ensures Distinct(keys) && forall k :: k in keys <==> k in m
  {
    keys := [];
    var rest := m.Keys;
    while rest != {}
      invariant rest <= m.Keys && Distinct(keys)
      invariant forall k :: k in keys <==> k in m && k !in rest
      decreases |rest|
    {
      var k := AnyOf(rest);
      keys := keys + [k];
      rest := rest - {k};
    }
  }

  predicate AllIn<K, V>(keys: seq<K>, m: map<K, V>) {
    forall i :: 0 <= i < |keys| ==> keys[i] in m
  }

  // The keys collected and sorted.
  method SortedKeys<K(==,!new), V>(m: map<K, V>, le: (K, K) -> bool) returns (keys: seq<K>)
    requires Preorder(le) && Antisymmetric(le)
    ensures Lists(keys, m.Keys, le) && keys == ListOf(m.Keys, le) && AllIn(keys, m)
  {
    var found := KeysOf(m);
    SortSorts(found, le);
    SortKeepsDistinct(found, le);
    keys := Sort(found, le);
    ListIsUnique(keys, ListOf(m.Keys, le), m.Keys, le);
    assert forall i :: 0 <= i < |keys| ==> keys[i] in keys;
  }

  // The innermost loop.
  method ListPartitions(d: LogDir, topic: string, ps: seq<int>, limit: nat,
                        ghost rows: seq<Replica>, before: seq<Replica>, totalBefore: int)
    returns (replicas: seq<Replica>, total: int, truncated: bool)
    requires topic in d.topics && AllIn(ps, d.topics[topic])
    requires Listed(rows, limit, before, totalBefore, false)
    ensures Listed(rows + FlatMap(ps, RowOf(d, topic)), limit, replicas, total, truncated)
  {
    replicas, total, truncated := before, totalBefore, false;
    assert rows + [] == rows;
    var i := 0;
    while i < |ps|
      invariant 0 <= i <= |ps| && !truncated
      invariant Listed(rows + FlatMap(ps[..i], RowOf(d, topic)), limit, replicas, total, false)
    {
      var row := Replica(d.broker, d.dir, topic, ps[i], d.topics[topic][ps[i]]);
      ListedKey(rows, ps, RowOf(d, topic), i);
      ListedNext(rows + FlatMap(ps[..i], RowOf(d, topic)), limit, replicas, total, row);
      if |replicas| >= limit {
        truncated := true;
        ListedStays(rows, ps, RowOf(d, topic), i + 1, limit, replicas, total);
        return;
      }
      replicas := replicas + [row];
      total := Wrap64(total + row.size);
      i := i + 1;
    }
    assert ps[..|ps|] == ps;
  }

  // One topic of a directory, if it passes the filter.
  method ListTopic(d: LogDir, topic: string, topics: seq<string>, limit: nat,
                   ghost rows: seq<Replica>, before: seq<Replica>, totalBefore: int)
    returns (replicas: seq<Replica>, total: int, truncated: bool)
    requires topic in d.topics && Listed(rows, limit, before, totalBefore, false)
    ensures Listed(rows + TopicOf(d, topics)(topic), limit, replicas, total, truncated)
  {
    if !Passes(topics, topic) {
      assert rows + [] == rows;
      return before, totalBefore, false;
    }
    IntLeqIsOrder();
    var sortedPartitions := SortedKeys(d.topics[topic], IntLeq);
    replicas, total, truncated := ListPartitions(d, topic, sortedPartitions, limit, rows, before, totalBefore);
  }

  method ListTopics(d: LogDir, names: seq<string>, topics: seq<string>, limit: nat, ghost rows: seq<Replica>,
                    before: seq<Replica>, totalBefore: int)
    returns (replicas: seq<Replica>, total: int, truncated: bool)
    requires AllIn(names, d.topics)
    requires Listed(rows, limit, before, totalBefore, false)
    ensures Listed(rows + FlatMap(names, TopicOf(d, topics)), limit, replicas, total, truncated)
  {
    replicas, total, truncated := before, totalBefore, false;
    assert rows + [] == rows;
    ghost var f := TopicOf(d, topics);
    var i := 0;
    while i < |names|
      invariant 0 <= i <= |names| && !truncated
      invariant Listed(rows + FlatMap(names[..i], f), limit, replicas, total, false)
    {
      ListedKey(rows, names, f, i);
      ghost var seen := rows + FlatMap(names[..i], f);
      replicas, total, truncated := ListTopic(d, names[i], topics, limit, seen, replicas, total);
      if truncated {
        ListedStays(rows, names, f, i + 1, limit, replicas, total);
        return;
      }
      i := i + 1;
    }
    assert names[..|names|] == names;
  }

  method ListDir(d: LogDir, topics: seq<string>, limit: nat,
                 ghost rows: seq<Replica>, before: seq<Replica>, totalBefore: int)
    returns (replicas: seq<Replica>, total: int, truncated: bool)
    requires Listed(rows, limit, before, totalBefore, false)
    ensures Listed(rows + DirRows(d, topics), limit, replicas, total, truncated)
  {
    LeqIsOrder();
    var topicNames := SortedKeys(d.topics, Leq);
    replicas, total, truncated := ListTopics(d, topicNames, topics, limit, rows, before, totalBefore);
  }

  function SizeSum(rows: seq<Replica>): int {
    if rows == [] then 0 else SizeSum(rows[..|rows| - 1]) + rows[|rows| - 1].size
  }

  lemma {:induction false} SizesAreWeighed(rows: seq<Replica>)
    ensures Weigh(rows, Size()) == SizeSum(rows)
  {
    if rows == [] {
    } else {
      SizesAreWeighed(rows[..|rows| - 1]);
    }
  }

  // The first `limit` rows of the traversal, whether there are more, and the sum of the sizes listed.
  ghost predicate IsListing(all: seq<LogDir>, brokers: seq<int>, topics: seq<string>, limit: nat,
                            replicas: seq<Replica>, total: int, truncated: bool)
  {
    && total == Wrap64(SizeSum(replicas))
    && exists rows, own :: IsTraversal(all, brokers, topics, rows, own) && IsFirstOf(rows, limit, replicas, truncated)
  }

  predicate IsFirstOf(rows: seq<Replica>, limit: nat, replicas: seq<Replica>, truncated: bool) {
    if truncated then |rows| > limit && replicas == rows[..limit] else |rows| <= limit && replicas == rows
  }

  // A listing that was not cut has exactly the rows of the directories that the filters let through.
  lemma ListedIff(all: seq<LogDir>, brokers: seq<int>, topics: seq<string>, limit: nat, replicas: seq<Replica>,
                  total: int, r: Replica)
    requires IsListing(all, brokers, topics, limit, replicas, total, false)
    ensures r in replicas <==> exists i :: 0 <= i < |all| && IsRow(all[i], brokers, topics, r)
  {
    var rows, own :| IsTraversal(all, brokers, topics, rows, own) && IsFirstOf(rows, limit, replicas, false);
    if i :| 0 <= i < |all| && IsRow(all[i], brokers, topics, r) {
      assert IsAt(rows, own, i, r);
    }
  }

  // The listing: the first `limit` rows of the traversal, whether there are more, and the total of what is listed.
  method ReplicaSizes(all: seq<LogDir>, brokers: seq<int>, topics: seq<string>, limit: nat)
    returns (replicas: seq<Replica>, total: int, truncated: bool)
    ensures Listed(Rows(Kept(all, brokers), topics), limit, replicas, total, truncated)
    ensures IsListing(all, brokers, topics, limit, replicas, total, truncated)
  {
    replicas, total, truncated := ListDirs(all, brokers, topics, limit);
    var own := RowsAreTraversal(all, brokers, topics);
    SizesAreWeighed(replicas);
    assert IsFirstOf(Rows(Kept(all, brokers), topics), limit, replicas, truncated);
  }

  method ListDirs(all: seq<LogDir>, brokers: seq<int>, topics: seq<string>, limit: nat)
    returns (replicas: seq<Replica>, total: int, truncated: bool)
    ensures Listed(Rows(Kept(all, brokers), topics), limit, replicas, total, truncated)
  {
    var dirs := SortedLogDirs(all, brokers);
    replicas, total, truncated := [], 0, false;
    ghost var f := DirOf(topics);
    var i := 0;
    while i < |dirs|
      invariant 0 <= i <= |dirs| && !truncated
      invariant Listed([] + FlatMap(dirs[..i], f), limit, replicas, total, false)
    {
      ListedKey([], dirs, f, i);
      replicas, total, truncated := ListDir(dirs[i], topics, limit, [] + FlatMap(dirs[..i], f), replicas, total);
      if truncated {
        ListedStays([], dirs, f, i + 1, limit, replicas, total);
        assert [] + FlatMap(dirs, f) == FlatMap(dirs, f);
        return;
      }
      i := i + 1;
    }
    assert dirs[..|dirs|] == dirs && [] + FlatMap(dirs, f) == FlatMap(dirs, f);
  }

  // ---------------------------------------------------------------- totals per topic

  // The weight of the rows with one key only.
  function Only<K(==)>(key: Replica -> K, k: K, w: Replica -> int): Replica -> int {
    r => if key(r) == k then w(r) else 0
  }

  function TopicKey(): Replica -> string {
    (r: Replica) => r.topic
  }

  function BrokerKey(): Replica -> int {
    (r: Replica) => r.broker
  }

  function One(): Replica -> int {
    (r: Replica) => 1
  }

  function TopicSize(topic: string): Replica -> int {
    Only(TopicKey(), topic, Size())
  }

  function TopicCount(topic: string): Replica -> int {
    Only(TopicKey(), topic, One())
  }

  function BrokerSize(topic: string, broker: int): Replica -> int {
    Only(BrokerKey(), broker, TopicSize(topic))
  }

  function BrokerCount(topic: string, broker: int): Replica -> int {
    Only(BrokerKey(), broker, TopicCount(topic))
  }

  // A topic's record, as a value.
  datatype Record = Record(totalSize: int, byBroker: map<int, int>, partitions: int)

  const NOTHING := Record(0, map[], 0)

  function Next(r: Record, broker: int, size: int): Record {
    Record(Wrap64(r.totalSize + size),
           r.byBroker[broker := Wrap64((if broker in r.byBroker then r.byBroker[broker] else 0) + size)],
           r.partitions + 1)
  }

  class TopicAgg {
    var totalSize: int
    var byBroker: map<int, int>
    var partitions: int

    function Value(): Record
      reads this
    {
      Record(totalSize, byBroker, partitions)
    }

    constructor ()
      ensures Value() == NOTHING
    {
      totalSize, byBroker, partitions := 0, map[], 0;
    }

    method Add(broker: int, size: int)
      modifies this
      ensures Value() == Next(old(Value()), broker, size)
    {
      totalSize := Wrap64(totalSize + size);
      byBroker := byBroker[broker := Wrap64((if broker in byBroker then byBroker[broker] else 0) + size)];
      partitions := partitions + 1;
    }
  }

  // What a topic's record holds after the rows visited so far.
  ghost predicate Sums(rows: seq<Replica>, topic: string, r: Record) {
    && r.totalSize == Wrap64(Weigh(rows, TopicSize(topic)))
    && r.partitions == Weigh(rows, TopicCount(topic))
    && forall b :: BrokerSum(rows, topic, b, r.byBroker)
  }

  ghost predicate BrokerSum(rows: seq<Replica>, topic: string, broker: int, byBroker: map<int, int>) {
    && (broker in byBroker <==> Weigh(rows, BrokerCount(topic, broker)) > 0)
    && (broker in byBroker ==> byBroker[broker] == Wrap64(Weigh(rows, BrokerSize(topic, broker))))
  }

  ghost predicate RecordOf(rows: seq<Replica>, records: map<string, Record>, topic: string) {
    && (topic in records <==> Weigh(rows, TopicCount(topic)) > 0)
    && (topic in records ==> Sums(rows, topic, records[topic]))
  }

  // A record for every topic that has rows, holding its sums.
  ghost predicate RecordsOf(rows: seq<Replica>, records: map<string, Record>) {
    forall topic :: RecordOf(rows, records, topic)
  }

  lemma {:induction false} CountsNotNegative(rows: seq<Replica>, topic: string, broker: int)
    ensures 0 <= Weigh(rows, BrokerCount(topic, broker)) <= Weigh(rows, TopicCount(topic))
  {
    if rows == [] {
    } else {
      CountsNotNegative(rows[..|rows| - 1], topic, broker);
    }
  }

  // A topic without rows has no sums.
  lemma {:induction false} NoRowsNoSums(rows: seq<Replica>, topic: string)
    requires Weigh(rows, TopicCount(topic)) == 0
    ensures Weigh(rows, TopicSize(topic)) == 0
    ensures forall b :: Weigh(rows, BrokerCount(topic, b)) == 0
  {
    if rows == [] {
    } else {
      CountsNotNegative(rows[..|rows| - 1], topic, 0);
      NoRowsNoSums(rows[..|rows| - 1], topic);
    }
  }

  lemma {:induction false} NoBrokerNoSize(rows: seq<Replica>, topic: string, broker: int)
    requires Weigh(rows, BrokerCount(topic, broker)) == 0
    ensures Weigh(rows, BrokerSize(topic, broker)) == 0
  {
    if rows == [] {
    } else {
      CountsNotNegative(rows[..|rows| - 1], topic, broker);
      NoBrokerNoSize(rows[..|rows| - 1], topic, broker);
    }
  }

  lemma SumsStart(rows: seq<Replica>, topic: string)
    requires Weigh(rows, TopicCount(topic)) == 0
    ensures Sums(rows, topic, NOTHING)
  {
    NoRowsNoSums(rows, topic);
  }

  // One row adds to its own topic and broker only.
  lemma SumsNext(rows: seq<Replica>, row: Replica, topic: string, r: Record)
    requires Sums(rows, topic, r)
    ensures Sums(rows + [row], topic, if row.topic == topic then Next(r, row.broker, row.size) else r)
  {
    WeighOne(rows, row, TopicSize(topic));
    WeighOne(rows, row, TopicCount(topic));
    WrapSum(Weigh(rows, TopicSize(topic)), row.size);
    var next := if row.topic == topic then Next(r, row.broker, row.size) else r;
    forall b
      ensures BrokerSum(rows + [row], topic, b, next.byBroker)
    {
      assert BrokerSum(rows, topic, b, r.byBroker);
      BrokerSumNext(rows, row, topic, b, r.byBroker, next.byBroker);
    }
  }

  lemma BrokerSumNext(rows: seq<Replica>, row: Replica, topic: string, b: int,
                      byBroker: map<int, int>, next: map<int, int>)
    requires BrokerSum(rows, topic, b, byBroker)
    requires
      if row.topic == topic && row.broker == b then
        b in next && next[b] == Wrap64((if b in byBroker then byBroker[b] else 0) + row.size)
      else (b in next <==> b in byBroker) && (b in next ==> next[b] == byBroker[b])
    ensures BrokerSum(rows + [row], topic, b, next)
  {
    CountsNotNegative(rows, topic, b);
    WeighOne(rows, row, BrokerSize(topic, b));
    WeighOne(rows, row, BrokerCount(topic, b));
    WrapSum(Weigh(rows, BrokerSize(topic, b)), row.size);
    if b !in byBroker { NoBrokerNoSize(rows, topic, b); }
  }

  function Counted(records: map<string, Record>, topic: string, broker: int, size: int): map<string, Record> {
    records[topic := Next(if topic in records then records[topic] else NOTHING, broker, size)]
  }

  lemma RecordsNext(rows: seq<Replica>, records: map<string, Record>, row: Replica)
    requires RecordsOf(rows, records)
    ensures RecordsOf(rows + [row], Counted(records, row.topic, row.broker, row.size))
  {
    var all, next := rows + [row], Counted(records, row.topic, row.broker, row.size);
    forall t
      ensures RecordOf(all, next, t)
    {
      assert RecordOf(rows, records, t);
      WeighOne(rows, row, TopicCount(t));
      CountsNotNegative(rows, t, 0);
      if t in records {
        SumsNext(rows, row, t, records[t]);
      } else if t == row.topic {
        SumsStart(rows, t);
        SumsNext(rows, row, t, NOTHING);
      }
    }
  }

  lemma Overwrite(records: map<string, Record>, topic: string, r: Record, q: Record)
    ensures records[topic := r][topic := q] == records[topic := q]
  {
  }

  // The records by topic, and (ghost) the rows visited so far.
  class Totals {
    var aggs: map<string, TopicAgg>
    ghost var rows: seq<Replica>

    ghost function Records(): map<string, Record>
      reads this`aggs, aggs.Values
    {
      map t | t in aggs :: aggs[t].Value()
    }

    // No two topics share a record.
    ghost predicate Separate()
      reads this`aggs
    {
      forall s, t :: s in aggs && t in aggs && s != t ==> aggs[s] != aggs[t]
    }

    ghost predicate Valid()
      reads this, aggs.Values
    {
      Separate() && RecordsOf(rows, Records())
    }

    constructor ()
      ensures Valid() && rows == [] && aggs == map[]
    {
      aggs, rows := map[], [];
    }

    // aggs[topic], created when missing.
    method AggOf(topic: string) returns (agg: TopicAgg)
      requires Separate()
      modifies this`aggs
      ensures Separate() && aggs == old(aggs)[topic := agg]
      ensures if topic in old(aggs) then agg == old(aggs)[topic] else fresh(agg)
      ensures agg.Value() == if topic in old(aggs) then old(Records())[topic] else NOTHING
      ensures Records() == old(Records())[topic := agg.Value()]
    {
      if topic !in aggs {
        agg := new TopicAgg();
        aggs := aggs[topic := agg];
      } else {
        agg := aggs[topic];
      }
    }

    // agg changed; the other records did not.
    twostate lemma OthersKept(topic: string)
      requires Separate() && topic in aggs && aggs == old(aggs)
      requires forall t :: t in aggs && t != topic ==> aggs[t].Value() == old(aggs[t].Value())
      ensures Records() == old(Records())[topic := aggs[topic].Value()]
    {
    }

    method AddSize(topic: string, broker: int, size: int)
      requires Separate()
      modifies this`aggs, aggs.Values
      ensures Separate() && fresh(aggs.Values - old(aggs.Values))
      ensures Records() == Counted(old(Records()), topic, broker, size)
    {
      var agg := AggOf(topic);
      label Opened:
      ghost var r := agg.Value();
      agg.Add(broker, size);
      OthersKept@Opened(topic);
      Overwrite(old(Records()), topic, r, agg.Value());
    }

    // The body of the innermost loop.
    method AddRow(row: Replica)
      requires Valid()
      modifies this, aggs.Values
      ensures Valid() && rows == old(rows) + [row]
      ensures fresh(aggs.Values - old(aggs.Values))
    {
      RecordsNext(rows, Records(), row);
      AddSize(row.topic, row.broker, row.size);
      rows := rows + [row];
    }
  }

  // ---------------------------------------------------------------- the aggregation

  // The same rows, in some order.
  ghost predicate Same(a: seq<Replica>, b: seq<Replica>) {
    multiset(a) == multiset(b)
  }

  lemma SameThen(before: seq<Replica>, a: seq<Replica>, b: seq<Replica>, after: seq<Replica>)
    requires Same(before, a) && Same(after, before + b)
    ensures Same(after, a + b)
  {
  }

  method AddPartitions(totals: Totals, d: LogDir, topic: string)
    requires totals.Valid() && topic in d.topics
    modifies totals, totals.aggs.Values
    ensures totals.Valid() && fresh(totals.aggs.Values - old(totals.aggs.Values))
    ensures Same(totals.rows, old(totals.rows) + TopicRows(d, topic))
  {
    ghost var before, f := totals.rows, RowOf(d, topic);
    var ps := KeysOf(d.topics[topic]);
    assert AllIn(ps, d.topics[topic]) by { assert forall i :: 0 <= i < |ps| ==> ps[i] in ps; }
    assert before + [] == before;
    var i := 0;
    while i < |ps|
      invariant 0 <= i <= |ps|
      invariant totals.Valid() && fresh(totals.aggs.Values - old(totals.aggs.Values))
      invariant totals.rows == before + FlatMap(ps[..i], f)
    {
      ListedKey(before, ps, f, i);
      totals.AddRow(Replica(d.broker, d.dir, topic, ps[i], d.topics[topic][ps[i]]));
      i := i + 1;
    }
    assert ps[..|ps|] == ps;
    IntLeqIsOrder();
    AnyOrder(ps, d.topics[topic], IntLeq, f);
  }

  method AddTopic(totals: Totals, d: LogDir, topic: string, topics: seq<string>)
    requires totals.Valid() && topic in d.topics
    modifies totals, totals.aggs.Values
    ensures totals.Valid() && fresh(totals.aggs.Values - old(totals.aggs.Values))
    ensures Same(totals.rows, old(totals.rows) + TopicOf(d, topics)(topic))
  {
    if Passes(topics, topic) {
      AddPartitions(totals, d, topic);
    } else {
      assert totals.rows + [] == totals.rows;
    }
  }

  // Ranging over a map in any order visits the rows that sorting its keys first would.
  lemma AnyOrder<K(!new), V>(ks: seq<K>, m: map<K, V>, le: (K, K) -> bool, f: K -> seq<Replica>)
    requires Preorder(le) && Distinct(ks) && forall k :: k in ks <==> k in m
    ensures multiset(FlatMap(ks, f)) == multiset(FlatMap(ListOf(m.Keys, le), f))
  {
    DistinctSameElements(ks, ListOf(m.Keys, le));
    FlatPermuted(ks, ListOf(m.Keys, le), f);
  }

  method AddNames(totals: Totals, d: LogDir, names: seq<string>, topics: seq<string>)
    requires totals.Valid() && AllIn(names, d.topics)
    modifies totals, totals.aggs.Values
    ensures totals.Valid() && fresh(totals.aggs.Values - old(totals.aggs.Values))
    ensures Same(totals.rows, old(totals.rows) + FlatMap(names, TopicOf(d, topics)))
  {
    ghost var before, f := totals.rows, TopicOf(d, topics);
    assert before + [] == before;
    var i := 0;
    while i < |names|
      invariant 0 <= i <= |names|
      invariant totals.Valid() && fresh(totals.aggs.Values - old(totals.aggs.Values))
      invariant Same(totals.rows, before + FlatMap(names[..i], f))
    {
      ghost var rows := totals.rows;
      AddTopic(totals, d, names[i], topics);
      ListedKey(before, names, f, i);
      SameThen(rows, before + FlatMap(names[..i], f), f(names[i]), totals.rows);
      i := i + 1;
    }
    assert names[..|names|] == names;
  }

  method AddTopics(totals: Totals, d: LogDir, topics: seq<string>)
    requires totals.Valid()
    modifies totals, totals.aggs.Values
    ensures totals.Valid() && fresh(totals.aggs.Values - old(totals.aggs.Values))
    ensures Same(totals.rows, old(totals.rows) + DirRows(d, topics))
  {
    var names := KeysOf(d.topics);
    assert AllIn(names, d.topics) by { assert forall i :: 0 <= i < |names| ==> names[i] in names; }
    AddNames(totals, d, names, topics);
    LeqIsOrder();
    AnyOrder(names, d.topics, Leq, TopicOf(d, topics));
  }

  method Aggregate(dirs: seq<LogDir>, topics: seq<string>) returns (totals: Totals)
    ensures fresh(totals) && fresh(totals.aggs.Values) && totals.Valid()
    ensures RecordsOf(Rows(dirs, topics), totals.Records())
  {
    totals := new Totals();
    ghost var f := DirOf(topics);
    var i := 0;
    while i < |dirs|
      invariant 0 <= i <= |dirs|
      invariant fresh(totals) && fresh(totals.aggs.Values) && totals.Valid()
      invariant Same(totals.rows, FlatMap(dirs[..i], f))
    {
      ghost var rows := totals.rows;
      FlatNext(dirs, f, i);
      AddTopics(totals, dirs[i], topics);
      SameThen(rows, FlatMap(dirs[..i], f), f(dirs[i]), totals.rows);
      i := i + 1;
    }
    assert dirs[..|dirs|] == dirs;
    RecordsPermuted(totals.rows, Rows(dirs, topics), totals.Records());
  }

  lemma RecordsPermuted(a: seq<Replica>, b: seq<Replica>, records: map<string, Record>)
    requires multiset(a) == multiset(b) && RecordsOf(a, records)
    ensures RecordsOf(b, records)
  {
    forall t
      ensures RecordOf(b, records, t)
    {
      assert RecordOf(a, records, t);
      WeighPermuted(a, b, TopicCount(t));
      WeighPermuted(a, b, TopicSize(t));
      if t in records {
        forall k
          ensures BrokerSum(b, t, k, records[t].byBroker)
        {
          assert BrokerSum(a, t, k, records[t].byBroker);
          WeighPermuted(a, b, BrokerCount(t, k));
          WeighPermuted(a, b, BrokerSize(t, k));
        }
      }
    }
  }

  // ---------------------------------------------------------------- the report

  datatype TopicTotal = TopicTotal(topic: string, totalSize: int, byBroker: seq<(int, int)>, partitions: int)

  function IdsOf(list: seq<(int, int)>): seq<int> {
    seq(|list|, i requires 0 <= i < |list| => list[i].0)
  }

  function NamesOf(report: seq<TopicTotal>): seq<string> {
    seq(|report|, i requires 0 <= i < |report| => report[i].topic)
  }

  // The entries of a map in the order of its keys.
  ghost predicate IsList(byBroker: map<int, int>, list: seq<(int, int)>) {
    && Lists(IdsOf(list), byBroker.Keys, IntLeq)
    && forall i :: 0 <= i < |list| ==> list[i].0 in byBroker && list[i].1 == byBroker[list[i].0]
  }

  ghost predicate IsTotal(records: map<string, Record>, t: TopicTotal) {
    && t.topic in records
    && t.totalSize == records[t.topic].totalSize && t.partitions == records[t.topic].partitions
    && IsList(records[t.topic].byBroker, t.byBroker)
  }

  // Topics in order, each with its brokers in order.
  ghost predicate IsReport(records: map<string, Record>, report: seq<TopicTotal>) {
    && Lists(NamesOf(report), records.Keys, Leq)
    && forall i :: 0 <= i < |report| ==> IsTotal(records, report[i])
  }

  method Brokers(byBroker: map<int, int>) returns (list: seq<(int, int)>)
    ensures IsList(byBroker, list)
  {
    IntLeqIsOrder();
    var ids := SortedKeys(byBroker, IntLeq);
    list := [];
    var i := 0;
    while i < |ids|
      invariant 0 <= i <= |ids| && |list| == i
      invariant forall j :: 0 <= j < i ==> list[j] == (ids[j], byBroker[ids[j]])
    {
      list := list + [(ids[i], byBroker[ids[i]])];
      i := i + 1;
    }
    assert IdsOf(list) == ids;
  }

  method TotalLine(ghost records: map<string, Record>, name: string, agg: TopicAgg) returns (t: TopicTotal)
    requires name in records && records[name] == agg.Value()
    ensures t.topic == name && IsTotal(records, t)
  {
    var byBroker := Brokers(agg.byBroker);
    t := TopicTotal(name, agg.totalSize, byBroker, agg.partitions);
  }

  method Report(totals: Totals) returns (report: seq<TopicTotal>)
    ensures IsReport(totals.Records(), report)
  {
    ghost var records := totals.Records();
    LeqIsOrder();
    var names := SortedKeys(totals.aggs, Leq);
    assert records.Keys == totals.aggs.Keys;
    report := [];
    var i := 0;
    while i < |names|
      invariant 0 <= i <= |names| && |report| == i
      invariant forall j :: 0 <= j < i ==> report[j].topic == names[j] && IsTotal(records, report[j])
    {
      var line := TotalLine(records, names[i], totals.aggs[names[i]]);
      report := report + [line];
      i := i + 1;
    }
    assert NamesOf(report) == names;
  }

  // The report on these rows.
  ghost predicate Reports(rows: seq<Replica>, report: seq<TopicTotal>) {
    exists records :: RecordsOf(rows, records) && IsReport(records, report)
  }

  // Sums over the rows of a topic, and of a topic on one broker.
  function TopicSum(rows: seq<Replica>, topic: string): int {
    if rows == [] then 0
    else
      var last := rows[|rows| - 1];
      TopicSum(rows[..|rows| - 1], topic) + if last.topic == topic then last.size else 0
  }

  function TopicRowCount(rows: seq<Replica>, topic: string): nat {
    if rows == [] then 0
    else TopicRowCount(rows[..|rows| - 1], topic) + if rows[|rows| - 1].topic == topic then 1 else 0
  }

  function BrokerRowSum(rows: seq<Replica>, topic: string, broker: int): int {
    if rows == [] then 0
    else
      var last := rows[|rows| - 1];
      BrokerRowSum(rows[..|rows| - 1], topic, broker)
        + if last.topic == topic && last.broker == broker then last.size else 0
  }

  lemma {:induction false} SumsAreWeighed(rows: seq<Replica>, topic: string, broker: int)
    ensures Weigh(rows, TopicSize(topic)) == TopicSum(rows, topic)
    ensures Weigh(rows, TopicCount(topic)) == TopicRowCount(rows, topic)
    ensures Weigh(rows, BrokerSize(topic, broker)) == BrokerRowSum(rows, topic, broker)
    ensures Weigh(rows, TopicCount(topic)) > 0 <==> exists k :: 0 <= k < |rows| && rows[k].topic == topic
    ensures Weigh(rows, BrokerCount(topic, broker)) > 0 <==>
            exists k :: 0 <= k < |rows| && rows[k].topic == topic && rows[k].broker == broker
  {
    if rows == [] {
    } else {
      SumsAreWeighed(rows[..|rows| - 1], topic, broker);
      CountsNotNegative(rows[..|rows| - 1], topic, broker);
      var last := rows[|rows| - 1];
      assert rows == rows[..|rows| - 1] + [last];
    }
  }

  // One line: the topic's size, its brokers in order with their sizes, and its number of rows.
  ghost predicate IsLine(rows: seq<Replica>, line: TopicTotal) {
    && line.totalSize == Wrap64(TopicSum(rows, line.topic)) && line.partitions == TopicRowCount(rows, line.topic)
    && (forall i, j :: 0 <= i < j < |line.byBroker| ==> line.byBroker[i].0 < line.byBroker[j].0)
    && (forall i :: 0 <= i < |line.byBroker| ==>
          line.byBroker[i].1 == Wrap64(BrokerRowSum(rows, line.topic, line.byBroker[i].0)))
    && (forall b :: HasBroker(line, b) <==>
                    exists k :: 0 <= k < |rows| && rows[k].topic == line.topic && rows[k].broker == b)
  }

  predicate HasBroker(line: TopicTotal, b: int) {
    exists i :: 0 <= i < |line.byBroker| && line.byBroker[i].0 == b
  }

  predicate HasTopic(report: seq<TopicTotal>, topic: string) {
    exists i :: 0 <= i < |report| && report[i].topic == topic
  }

  // A line for each topic that has a row, in the order of the topics.
  ghost predicate IsReportOn(rows: seq<Replica>, report: seq<TopicTotal>) {
    && (forall i :: 0 <= i < |report| ==> IsLine(rows, report[i]))
    && (forall i, j :: 0 <= i < j < |report| ==>
          report[i].topic != report[j].topic && Leq(report[i].topic, report[j].topic))
    && (forall topic :: HasTopic(report, topic) <==> exists k :: 0 <= k < |rows| && rows[k].topic == topic)
  }

  lemma LineIs(rows: seq<Replica>, records: map<string, Record>, line: TopicTotal)
    requires RecordsOf(rows, records) && IsTotal(records, line)
    ensures IsLine(rows, line)
  {
    assert RecordOf(rows, records, line.topic);
    SumsAreWeighed(rows, line.topic, 0);
    var ids := IdsOf(line.byBroker);
    forall i, j | 0 <= i < j < |line.byBroker|
      ensures line.byBroker[i].0 < line.byBroker[j].0
    {
      assert IntLeq(ids[i], ids[j]) && ids[i] != ids[j];
    }
    forall b
      ensures HasBroker(line, b) <==> b in records[line.topic].byBroker
      ensures b in records[line.topic].byBroker <==>
              exists k :: 0 <= k < |rows| && rows[k].topic == line.topic && rows[k].broker == b
      ensures b in records[line.topic].byBroker ==>
              records[line.topic].byBroker[b] == Wrap64(BrokerRowSum(rows, line.topic, b))
    {
      assert BrokerSum(rows, line.topic, b, records[line.topic].byBroker);
      SumsAreWeighed(rows, line.topic, b);
      HasBrokerIff(line, b);
    }
  }

  lemma HasBrokerIff(line: TopicTotal, b: int)
    ensures HasBroker(line, b) <==> b in IdsOf(line.byBroker)
  {
    if b in IdsOf(line.byBroker) {
      var i :| 0 <= i < |line.byBroker| && IdsOf(line.byBroker)[i] == b;
      assert line.byBroker[i].0 == b;
    }
    if i :| 0 <= i < |line.byBroker| && line.byBroker[i].0 == b {
      assert IdsOf(line.byBroker)[i] == b;
    }
  }

  lemma HasTopicIff(report: seq<TopicTotal>, topic: string)
    ensures HasTopic(report, topic) <==> topic in NamesOf(report)
  {
    if topic in NamesOf(report) {
      var i :| 0 <= i < |report| && NamesOf(report)[i] == topic;
      assert report[i].topic == topic;
    }
    if i :| 0 <= i < |report| && report[i].topic == topic {
      assert NamesOf(report)[i] == topic;
    }
  }

  lemma ReportIs(rows: seq<Replica>, report: seq<TopicTotal>)
    requires Reports(rows, report)
    ensures IsReportOn(rows, report)
  {
    var records :| RecordsOf(rows, records) && IsReport(records, report);
    forall i | 0 <= i < |report|
      ensures IsLine(rows, report[i])
    {
      assert IsTotal(records, report[i]);
      LineIs(rows, records, report[i]);
    }
    var names := NamesOf(report);
    forall i, j | 0 <= i < j < |report|
      ensures report[i].topic != report[j].topic && Leq(report[i].topic, report[j].topic)
    {
      assert Leq(names[i], names[j]) && names[i] != names[j];
    }
    forall topic
      ensures HasTopic(report, topic) <==> exists k :: 0 <= k < |rows| && rows[k].topic == topic
    {
      HasTopicIff(report, topic);
      assert RecordOf(rows, records, topic);
      SumsAreWeighed(rows, topic, 0);
    }
  }

  // The totals of every topic that has rows under the filters.
  method TopicSizes(all: seq<LogDir>, brokers: seq<int>, topics: seq<string>) returns (report: seq<TopicTotal>)
    ensures Reports(Rows(Kept(all, brokers), topics), report)
    ensures exists rows, own :: IsTraversal(all, brokers, topics, rows, own) && IsReportOn(rows, report)
  {
    var dirs := SortedLogDirs(all, brokers);
    var totals := Aggregate(dirs, topics);
    report := Report(totals);
    var own := RowsAreTraversal(all, brokers, topics);
    ReportIs(Rows(Kept(all, brokers), topics), report);
  }

  // So the topics reported are those of the rows the filters let through.
  lemma ReportedIff(all: seq<LogDir>, brokers: seq<int>, topics: seq<string>, rows: seq<Replica>, own: seq<int>,
                    report: seq<TopicTotal>, topic: string)
    requires IsTraversal(all, brokers, topics, rows, own) && IsReportOn(rows, report)
    ensures HasTopic(report, topic) <==>
            exists i, r :: 0 <= i < |all| && IsRow(all[i], brokers, topics, r) && r.topic == topic
  {
    if i, r :| 0 <= i < |all| && IsRow(all[i], brokers, topics, r) && r.topic == topic {
      assert IsAt(rows, own, i, r);
    }
    if k :| 0 <= k < |rows| && rows[k].topic == topic {
      assert IsRow(all[own[k]], brokers, topics, rows[k]);
    }
  }

  // ---------------------------------------------------------------- conservation

  function SumOver<K>(ks: seq<K>, m: map<K, int>): int
    requires AllIn(ks, m)
  {
    if ks == [] then 0 else SumOver(ks[..|ks| - 1], m) + m[ks[|ks| - 1]]
  }

  // Total over keys of the weight of their rows.
  function Split<K(==)>(ks: seq<K>, rows: seq<Replica>, key: Replica -> K, w: Replica -> int): int {
    if ks == [] then 0 else Split(ks[..|ks| - 1], rows, key, w) + Weigh(rows, Only(key, ks[|ks| - 1], w))
  }

  lemma {:induction false} SplitNone<K>(ks: seq<K>, key: Replica -> K, w: Replica -> int)
    ensures Split(ks, [], key, w) == 0
  {
    if ks == [] {
    } else {
      SplitNone(ks[..|ks| - 1], key, w);
    }
  }

  // One row counts for its own key, and for no other.
  lemma {:induction false} SplitOne<K>(ks: seq<K>, rows: seq<Replica>, r: Replica, key: Replica -> K, w: Replica -> int)
    requires Distinct(ks)
    ensures Split(ks, rows + [r], key, w) == Split(ks, rows, key, w) + if key(r) in ks then w(r) else 0
  {
    if ks == [] {
    } else {
      var init, last := ks[..|ks| - 1], ks[|ks| - 1];
      SplitOne(init, rows, r, key, w);
      WeighOne(rows, r, Only(key, last, w));
      assert ks == init + [last];
    }
  }

  // Rows split by key add up to all rows, when every row that weighs anything has one of the keys.
  lemma {:induction false} SplitAddsUp<K>(ks: seq<K>, rows: seq<Replica>, key: Replica -> K, w: Replica -> int)
    requires Distinct(ks) && forall i :: 0 <= i < |rows| ==> key(rows[i]) in ks || w(rows[i]) == 0
    ensures Split(ks, rows, key, w) == Weigh(rows, w)
  {
    if rows == [] {
      SplitNone(ks, key, w);
    } else {
      var init, last := rows[..|rows| - 1], rows[|rows| - 1];
      SplitAddsUp(ks, init, key, w);
      SplitOne(ks, init, last, key, w);
      assert rows == init + [last];
    }
  }

  lemma {:induction false} WrappedSums<K>(ks: seq<K>, m: map<K, int>, rows: seq<Replica>,
                                          key: Replica -> K, w: Replica -> int)
    requires AllIn(ks, m)
    requires forall i :: 0 <= i < |ks| ==> m[ks[i]] == Wrap64(Weigh(rows, Only(key, ks[i], w)))
    ensures Wrap64(SumOver(ks, m)) == Wrap64(Split(ks, rows, key, w))
  {
    if ks == [] {
    } else {
      var init, last := ks[..|ks| - 1], ks[|ks| - 1];
      WrappedSums(init, m, rows, key, w);
      WrapSum(SumOver(init, m), m[last]);
      WrapSum(Split(init, rows, key, w), m[last]);
      WrapSum(Weigh(rows, Only(key, last, w)), Split(init, rows, key, w));
    }
  }

  lemma {:induction false} CountedIffSome(rows: seq<Replica>, topic: string, i: nat)
    requires i < |rows| && rows[i].topic == topic
    ensures Weigh(rows, TopicCount(topic)) > 0
    ensures Weigh(rows, BrokerCount(topic, rows[i].broker)) > 0
  {
    CountsNotNegative(rows[..|rows| - 1], topic, rows[i].broker);
    if i < |rows| - 1 { CountedIffSome(rows[..|rows| - 1], topic, i); }
  }

  // A topic's total is the sum of its per-broker sizes.
  lemma TotalIsSumOfBrokers(rows: seq<Replica>, records: map<string, Record>, topic: string, ids: seq<int>)
    requires RecordsOf(rows, records) && topic in records
    requires Lists(ids, records[topic].byBroker.Keys, IntLeq)
    ensures AllIn(ids, records[topic].byBroker)
    ensures records[topic].totalSize == Wrap64(SumOver(ids, records[topic].byBroker))
  {
    var byBroker := records[topic].byBroker;
    assert RecordOf(rows, records, topic);
    assert forall i :: 0 <= i < |ids| ==> ids[i] in ids;
    forall i | 0 <= i < |ids|
      ensures byBroker[ids[i]] == Wrap64(Weigh(rows, Only(BrokerKey(), ids[i], TopicSize(topic))))
    {
      assert BrokerSum(rows, topic, ids[i], byBroker);
    }
    WrappedSums(ids, byBroker, rows, BrokerKey(), TopicSize(topic));
    forall i | 0 <= i < |rows|
      ensures BrokerKey()(rows[i]) in ids || TopicSize(topic)(rows[i]) == 0
    {
      if rows[i].topic == topic {
        CountedIffSome(rows, topic, i);
        assert BrokerSum(rows, topic, rows[i].broker, byBroker);
      }
    }
    SplitAddsUp(ids, rows, BrokerKey(), TopicSize(topic));
  }

  function TotalSizes(records: map<string, Record>): map<string, int> {
    map t | t in records :: records[t].totalSize
  }

  // Under the same filters a listing that was not cut totals what the topics total together.
  lemma ListingTotalsTopics(rows: seq<Replica>, limit: nat, replicas: seq<Replica>, total: int,
                            records: map<string, Record>, names: seq<string>)
    requires Listed(rows, limit, replicas, total, false) && RecordsOf(rows, records)
    requires Lists(names, records.Keys, Leq)
    ensures AllIn(names, TotalSizes(records))
    ensures total == Wrap64(SumOver(names, TotalSizes(records)))
  {
    assert forall i :: 0 <= i < |names| ==> names[i] in names;
    forall i | 0 <= i < |names|
      ensures TotalSizes(records)[names[i]] == Wrap64(Weigh(rows, Only(TopicKey(), names[i], Size())))
    {
      assert RecordOf(rows, records, names[i]);
    }
    WrappedSums(names, TotalSizes(records), rows, TopicKey(), Size());
    assert Take(rows, limit) == rows;
    forall i | 0 <= i < |rows|
      ensures TopicKey()(rows[i]) in names || Size()(rows[i]) == 0
    {
      CountedIffSome(rows, rows[i].topic, i);
      assert RecordOf(rows, records, rows[i].topic);
    }
    SplitAddsUp(names, rows, TopicKey(), Size());
  }

  // ---------------------------------------------------------------- the two reports together

  function BrokerSizes(list: seq<(int, int)>): int {
    if list == [] then 0 else BrokerSizes(list[..|list| - 1]) + list[|list| - 1].1
  }

  function ReportedSizes(report: seq<TopicTotal>): int {
    if report == [] then 0 else ReportedSizes(report[..|report| - 1]) + report[|report| - 1].totalSize
  }

  lemma {:induction false} BrokerSizesAreSum(list: seq<(int, int)>, byBroker: map<int, int>)
    requires forall i :: 0 <= i < |list| ==> list[i].0 in byBroker && list[i].1 == byBroker[list[i].0]
    ensures AllIn(IdsOf(list), byBroker) && BrokerSizes(list) == SumOver(IdsOf(list), byBroker)
  {
    if list == [] {
    } else {
      BrokerSizesAreSum(list[..|list| - 1], byBroker);
      assert IdsOf(list)[..|list| - 1] == IdsOf(list[..|list| - 1]);
    }
  }

  lemma {:induction false} ReportedSizesAreSum(report: seq<TopicTotal>, sizes: map<string, int>)
    requires forall i :: 0 <= i < |report| ==> report[i].topic in sizes && report[i].totalSize == sizes[report[i].topic]
    ensures AllIn(NamesOf(report), sizes) && ReportedSizes(report) == SumOver(NamesOf(report), sizes)
  {
    if report == [] {
    } else {
      ReportedSizesAreSum(report[..|report| - 1], sizes);
      assert NamesOf(report)[..|report| - 1] == NamesOf(report[..|report| - 1]);
    }
  }

  // What the two reports say of the same directories: a listing that was not cut totals all topic totals, and
  // every topic total is the sum over its brokers.
  lemma ReportsAgree(rows: seq<Replica>, limit: nat, replicas: seq<Replica>, total: int, truncated: bool,
                     report: seq<TopicTotal>)
    requires Listed(rows, limit, replicas, total, truncated) && Reports(rows, report)
    ensures !truncated ==> total == Wrap64(ReportedSizes(report))
    ensures forall i :: 0 <= i < |report| ==> report[i].totalSize == Wrap64(BrokerSizes(report[i].byBroker))
  {
    var records :| RecordsOf(rows, records) && IsReport(records, report);
    if !truncated {
      ListingTotalsTopics(rows, limit, replicas, total, records, NamesOf(report));
      assert forall i :: 0 <= i < |report| ==> IsTotal(records, report[i]);
      ReportedSizesAreSum(report, TotalSizes(records));
    }
    forall i | 0 <= i < |report|
      ensures report[i].totalSize == Wrap64(BrokerSizes(report[i].byBroker))
    {
      assert IsTotal(records, report[i]);
      LineIsSumOfBrokers(rows, records, report[i]);
    }
  }

  lemma LineIsSumOfBrokers(rows: seq<Replica>, records: map<string, Record>, line: TopicTotal)
    requires RecordsOf(rows, records) && IsTotal(records, line)
    ensures line.totalSize == Wrap64(BrokerSizes(line.byBroker))
  {
    TotalIsSumOfBrokers(rows, records, line.topic, IdsOf(line.byBroker));
    BrokerSizesAreSum(line.byBroker, records[line.topic].byBroker);
  }

  // Both operations on the same directories under the same filters.
  method BothReports(all: seq<LogDir>, brokers: seq<int>, topics: seq<string>, limit: nat)
    returns (replicas: seq<Replica>, total: int, truncated: bool, report: seq<TopicTotal>)
    ensures Listed(Rows(Kept(all, brokers), topics), limit, replicas, total, truncated)
    ensures Reports(Rows(Kept(all, brokers), topics), report)
    ensures !truncated ==> total == Wrap64(ReportedSizes(report))
    ensures forall i :: 0 <= i < |report| ==> report[i].totalSize == Wrap64(BrokerSizes(report[i].byBroker))
  {
    replicas, total, truncated := ReplicaSizes(all, brokers, topics, limit);
    report := TopicSizes(all, brokers, topics);
    ReportsAgree(Rows(Kept(all, brokers), topics), limit, replicas, total, truncated, report);
  }

  lemma RecordsAreUnique(rows: seq<Replica>, a: map<string, Record>, b: map<string, Record>)
    requires RecordsOf(rows, a) && RecordsOf(rows, b)
    ensures a == b
  {
    forall t
      ensures t in a <==> t in b
      ensures t in a ==> a[t] == b[t]
    {
      assert RecordOf(rows, a, t) && RecordOf(rows, b, t);
      if t in a { SumsAreUnique(rows, t, a[t], b[t]); }
    }
  }

  lemma SumsAreUnique(rows: seq<Replica>, topic: string, a: Record, b: Record)
    requires Sums(rows, topic, a) && Sums(rows, topic, b)
    ensures a == b
  {
    forall k
      ensures k in a.byBroker <==> k in b.byBroker
      ensures k in a.byBroker ==> a.byBroker[k] == b.byBroker[k]
    {
      assert BrokerSum(rows, topic, k, a.byBroker) && BrokerSum(rows, topic, k, b.byBroker);
    }
    assert a.byBroker == b.byBroker;
  }

  // The rows determine the topic report, whatever order the maps are ranged over in.
  lemma ReportIsUnique(rows: seq<Replica>, a: seq<TopicTotal>, b: seq<TopicTotal>)
    requires Reports(rows, a) && Reports(rows, b)
    ensures a == b
  {
    var records :| RecordsOf(rows, records) && IsReport(records, a);
    var others :| RecordsOf(rows, others) && IsReport(others, b);
    RecordsAreUnique(rows, records, others);
    LeqIsOrder();
    ListIsUnique(NamesOf(a), NamesOf(b), records.Keys, Leq);
    assert |a| == |NamesOf(a)| == |b|;
    forall i | 0 <= i < |a|
      ensures a[i] == b[i]
    {
      assert IsTotal(records, a[i]) && IsTotal(records, b[i]) && NamesOf(a)[i] == NamesOf(b)[i];
      ListsAreUnique(records[a[i].topic].byBroker, a[i].byBroker, b[i].byBroker);
    }
  }

  lemma ListsAreUnique(byBroker: map<int, int>, a: seq<(int, int)>, b: seq<(int, int)>)
    requires IsList(byBroker, a) && IsList(byBroker, b)
    ensures a == b
  {
    IntLeqIsOrder();
    ListIsUnique(IdsOf(a), IdsOf(b), byBroker.Keys, IntLeq);
    assert |a| == |IdsOf(a)| == |b|;
    forall i | 0 <= i < |a|
      ensures a[i] == b[i]
    {
      assert IdsOf(a)[i] == IdsOf(b)[i];
    }
  }

  // The total of a listing and the total of a topic are the true sums exactly when those fit int64.
  lemma ExactWithinRange(rows: seq<Replica>, limit: nat, replicas: seq<Replica>, total: int, truncated: bool,
                         report: seq<TopicTotal>)
    requires Listed(rows, limit, replicas, total, truncated) && Reports(rows, report)
    ensures total == Weigh(replicas, Size()) <==> -TWO_63 <= Weigh(replicas, Size()) < TWO_63
    ensures forall i :: 0 <= i < |report| ==>
              var sum := Weigh(rows, TopicSize(report[i].topic));
              report[i].totalSize == sum <==> -TWO_63 <= sum < TWO_63
  {
    WrapInRange(Weigh(replicas, Size()));
    var records :| RecordsOf(rows, records) && IsReport(records, report);
    forall i | 0 <= i < |report|
      ensures var sum := Weigh(rows, TopicSize(report[i].topic));
              report[i].totalSize == sum <==> -TWO_63 <= sum < TWO_63
    {
      assert IsTotal(records, report[i]) && RecordOf(rows, records, report[i].topic);
      WrapInRange(Weigh(rows, TopicSize(report[i].topic)));
    }
  }
}
