/**
 Configuration differences between brokers and between topics (internal/provider/kafka/broker_config_diff.go
 and topic_config_diff.go).

 The two tasks differ only in what identifies a resource: a broker's number, parsed from its name, or a
 topic's name. Everything below is stated once for any kind of identifier with a total order `le`.
 */
module ConfigDiff {
  import opened Sorting
  import opened Text
  import opened Wrappers

  // ---------------------------------------------------------------- collecting the values

  datatype ConfigEntry = ConfigEntry(key: string, value: Option<string>, sensitive: bool)

  datatype Resource = Resource(name: string, failed: bool, configs: seq<ConfigEntry>)

  // configToEntry(c).Value
  function Shown(c: ConfigEntry): string {
    if c.sensitive then "[REDACTED]" else if c.value.Some? then c.value.value else ""
  }

  datatype Setting<Id> = Setting(key: string, id: Id, value: string)

  type Table<Id> = map<string, map<Id, string>>

  predicate Wanted(keys: seq<string>, key: string) {
    keys == [] || key in keys
  }

  function SettingsOfConfigs<Id>(id: Id, configs: seq<ConfigEntry>, keys: seq<string>): seq<Setting<Id>> {
    if configs == [] then []
    else
      var c := configs[|configs| - 1];
      SettingsOfConfigs(id, configs[..|configs| - 1], keys)
      + if Wanted(keys, c.key) then [Setting(c.key, id, Shown(c))] else []
  }

  function SettingsOfResource<Id>(r: Resource, idOf: string -> Option<Id>, keys: seq<string>): seq<Setting<Id>> {
    if r.failed || idOf(r.name).None? then [] else SettingsOfConfigs(idOf(r.name).value, r.configs, keys)
  }

  // Every setting that is read, in order.
  function Settings<Id>(rs: seq<Resource>, idOf: string -> Option<Id>, keys: seq<string>): seq<Setting<Id>> {
    if rs == [] then []
    else Settings(rs[..|rs| - 1], idOf, keys) + SettingsOfResource(rs[|rs| - 1], idOf, keys)
  }

  // Setting s is in force: no later one has its key and identifier.
  ghost predicate InForce<Id>(ss: seq<Setting<Id>>, s: Setting<Id>) {
    exists i :: 0 <= i < |ss| && ss[i] == s && forall j :: i < j < |ss| ==> ss[j].key != s.key || ss[j].id != s.id
  }

  predicate Holds<Id>(table: Table<Id>, s: Setting<Id>) {
    s.key in table && s.id in table[s.key] && table[s.key][s.id] == s.value
  }

  // The table holds exactly the settings in force, and no empty rows.
  ghost predicate TableOf<Id(!new)>(ss: seq<Setting<Id>>, table: Table<Id>) {
    && (forall s :: Holds(table, s) <==> InForce(ss, s))
    && (forall key :: key in table ==> table[key] != map[])
  }

  function Put<Id>(table: Table<Id>, s: Setting<Id>): Table<Id> {
    table[s.key := (if s.key in table then table[s.key] else map[])[s.id := s.value]]
  }

  lemma PutTable<Id(!new)>(ss: seq<Setting<Id>>, table: Table<Id>, s: Setting<Id>)
    requires TableOf(ss, table)
    ensures TableOf(ss + [s], Put(table, s))
  {
    forall t
      ensures Holds(Put(table, s), t) <==> InForce(ss + [s], t)
    {
      InForceAppend(ss, s, t);
      assert Holds(table, t) <==> InForce(ss, t);
    }
    forall key | key in Put(table, s)
      ensures Put(table, s)[key] != map[]
    {
      if key == s.key { assert s.id in Put(table, s)[key]; }
    }
  }

  lemma InForceAppend<Id>(ss: seq<Setting<Id>>, s: Setting<Id>, t: Setting<Id>)
    ensures InForce(ss + [s], t) <==> t == s || (InForce(ss, t) && (t.key != s.key || t.id != s.id))
  {
    var all := ss + [s];
    if t == s { assert all[|ss|] == s; }
    if InForce(all, t) && t != s {
      var i :| 0 <= i < |all| && all[i] == t && forall j :: i < j < |all| ==> all[j].key != t.key || all[j].id != t.id;
      assert i < |ss| && ss[i] == t && all[|ss|] == s;
      assert forall j :: i < j < |ss| ==> ss[j] == all[j];
    }
    if InForce(ss, t) && (t.key != s.key || t.id != s.id) {
      var i :| 0 <= i < |ss| && ss[i] == t && forall j :: i < j < |ss| ==> ss[j].key != t.key || ss[j].id != t.id;
      assert all[i] == t;
      assert forall j :: i < j < |all| ==> all[j] == if j < |ss| then ss[j] else s;
    }
  }

  // Two tables of the same settings are the same.
  lemma TableIsUnique<Id(!new)>(ss: seq<Setting<Id>>, a: Table<Id>, b: Table<Id>)
    requires TableOf(ss, a) && TableOf(ss, b)
    ensures a == b
  {
    RowsIncluded(ss, a, b);
    RowsIncluded(ss, b, a);
    assert a.Keys == b.Keys;
    forall key | key in a
      ensures a[key] == b[key]
    {
      assert a[key].Keys == b[key].Keys;
    }
  }

  lemma RowsIncluded<Id(!new)>(ss: seq<Setting<Id>>, a: Table<Id>, b: Table<Id>)
    requires TableOf(ss, a) && TableOf(ss, b)
    ensures forall key :: key in a ==>
              key in b && forall id :: id in a[key] ==> id in b[key] && b[key][id] == a[key][id]
  {
    forall key | key in a
      ensures key in b && forall id :: id in a[key] ==> id in b[key] && b[key][id] == a[key][id]
    {
      forall id | id in a[key]
        ensures key in b && id in b[key] && b[key][id] == a[key][id]
      {
        assert Holds(a, Setting(key, id, a[key][id]));
        assert Holds(b, Setting(key, id, a[key][id]));
      }
      var id :| id in a[key];
    }
  }

  // ---------------------------------------------------------------- the settings in force, by resource

  // The resource was read and has an entry for this key.
  predicate Has<Id(==)>(r: Resource, idOf: string -> Option<Id>, keys: seq<string>, key: string, id: Id) {
    && !r.failed && idOf(r.name) == Some(id) && (keys == [] || key in keys)
    && exists j :: 0 <= j < |r.configs| && r.configs[j].key == key
  }

  // Its last entry for the key is shown as this value: hidden if sensitive, empty if there is none.
  predicate LastEntryIs(configs: seq<ConfigEntry>, key: string, value: string) {
    exists j :: 0 <= j < |configs| && IsLast(configs, key, j) && Shows(configs[j], value)
  }

  predicate IsLast(configs: seq<ConfigEntry>, key: string, j: nat)
    requires j < |configs|
  {
    configs[j].key == key && forall k :: j < k < |configs| ==> configs[k].key != key
  }

  predicate Shows(c: ConfigEntry, value: string) {
    if c.sensitive then value == "[REDACTED]" else if c.value == None then value == "" else c.value == Some(value)
  }

  // The last resource with that identifier that has the key gives it this value.
  ghost predicate Read<Id>(rs: seq<Resource>, idOf: string -> Option<Id>, keys: seq<string>, s: Setting<Id>) {
    exists i ::
      && 0 <= i < |rs| && Has(rs[i], idOf, keys, s.key, s.id) && LastEntryIs(rs[i].configs, s.key, s.value)
      && forall k :: i < k < |rs| ==> !Has(rs[k], idOf, keys, s.key, s.id)
  }

  // The table holds exactly what was read.
  ghost predicate TableRead<Id(!new)>(rs: seq<Resource>, idOf: string -> Option<Id>, keys: seq<string>,
                                      table: Table<Id>)
  {
    && (forall s :: Holds(table, s) <==> Read(rs, idOf, keys, s))
    && (forall key :: key in table ==> table[key] != map[])
  }

  predicate Concerns<Id(==)>(ss: seq<Setting<Id>>, key: string, id: Id) {
    exists k :: 0 <= k < |ss| && ss[k].key == key && ss[k].id == id
  }

  lemma {:induction false} InForceConcat<Id(!new)>(a: seq<Setting<Id>>, b: seq<Setting<Id>>, t: Setting<Id>)
    ensures InForce(a + b, t) <==> InForce(b, t) || (InForce(a, t) && !Concerns(b, t.key, t.id))
  {
    if b == [] {
      assert a + b == a;
    } else {
      var init, last := b[..|b| - 1], b[|b| - 1];
      assert a + b == (a + init) + [last] && b == init + [last];
      InForceConcat(a, init, t);
      InForceAppend(a + init, last, t);
      InForceAppend(init, last, t);
      ConcernsAppend(init, last, t.key, t.id);
    }
  }

  lemma ConcernsAppend<Id>(ss: seq<Setting<Id>>, s: Setting<Id>, key: string, id: Id)
    ensures Concerns(ss + [s], key, id) <==> Concerns(ss, key, id) || (s.key == key && s.id == id)
  {
    assert (ss + [s])[|ss|] == s;
    if k :| 0 <= k < |ss| && ss[k].key == key && ss[k].id == id {
      assert (ss + [s])[k] == ss[k];
    }
  }

  lemma IsLastAppend(configs: seq<ConfigEntry>, c: ConfigEntry, key: string, j: nat)
    requires j < |configs|
    ensures IsLast(configs + [c], key, j) <==> c.key != key && IsLast(configs, key, j)
  {
    var all := configs + [c];
    assert all[|configs|] == c && all[j] == configs[j];
    assert forall k :: j < k < |configs| ==> all[k] == configs[k];
  }

  lemma LastEntryAppend(configs: seq<ConfigEntry>, c: ConfigEntry, key: string, value: string)
    ensures LastEntryIs(configs + [c], key, value) <==>
            if c.key == key then value == Shown(c) else LastEntryIs(configs, key, value)
  {
    var all := configs + [c];
    assert all[|configs|] == c;
    assert Shows(c, value) <==> value == Shown(c);
    assert IsLast(all, key, |configs|) <==> c.key == key;
    if j :| 0 <= j < |configs| && IsLast(configs, key, j) && Shows(configs[j], value) {
      IsLastAppend(configs, c, key, j);
    }
    if j :| 0 <= j < |configs| && IsLast(all, key, j) && Shows(all[j], value) {
      IsLastAppend(configs, c, key, j);
    }
  }

  lemma {:induction false} ConfigsAre<Id(!new)>(id: Id, configs: seq<ConfigEntry>, keys: seq<string>, t: Setting<Id>)
    ensures var ss := SettingsOfConfigs(id, configs, keys);
            && (InForce(ss, t) <==>
                t.id == id && (keys == [] || t.key in keys) && LastEntryIs(configs, t.key, t.value))
            && (Concerns(ss, t.key, t.id) <==>
                t.id == id && (keys == [] || t.key in keys)
                && exists j :: 0 <= j < |configs| && configs[j].key == t.key)
  {
    if configs == [] {
    } else {
      var init, c := configs[..|configs| - 1], configs[|configs| - 1];
      assert configs == init + [c];
      ConfigsAre(id, init, keys, t);
      LastEntryAppend(init, c, t.key, t.value);
      var ss := SettingsOfConfigs(id, init, keys);
      InForceAppend(ss, Setting(c.key, id, Shown(c)), t);
      ConcernsAppend(ss, Setting(c.key, id, Shown(c)), t.key, t.id);
      assert ss + [] == ss;
      assert (exists j :: 0 <= j < |configs| && configs[j].key == t.key) <==>
             c.key == t.key || exists j :: 0 <= j < |init| && init[j].key == t.key by {
        if j :| 0 <= j < |init| && init[j].key == t.key { assert configs[j].key == t.key; }
      }
    }
  }

  lemma {:induction false} SettingsAreRead<Id(!new)>(rs: seq<Resource>, idOf: string -> Option<Id>, keys: seq<string>,
                                                     t: Setting<Id>)
    ensures InForce(Settings(rs, idOf, keys), t) <==> Read(rs, idOf, keys, t)
  {
    if rs == [] {
    } else {
      var init, r := rs[..|rs| - 1], rs[|rs| - 1];
      SettingsAreRead(init, idOf, keys, t);
      InForceConcat(Settings(init, idOf, keys), SettingsOfResource(r, idOf, keys), t);
      ResourceIs(r, idOf, keys, t);
      ReadAppend(init, r, idOf, keys, t);
      assert rs == init + [r];
    }
  }

  lemma ResourceIs<Id(!new)>(r: Resource, idOf: string -> Option<Id>, keys: seq<string>, t: Setting<Id>)
    ensures InForce(SettingsOfResource(r, idOf, keys), t) <==>
            Has(r, idOf, keys, t.key, t.id) && LastEntryIs(r.configs, t.key, t.value)
    ensures Concerns(SettingsOfResource(r, idOf, keys), t.key, t.id) <==> Has(r, idOf, keys, t.key, t.id)
  {
    if !r.failed && idOf(r.name).Some? { ConfigsAre(idOf(r.name).value, r.configs, keys, t); }
  }

  lemma ReadAppend<Id(!new)>(rs: seq<Resource>, r: Resource, idOf: string -> Option<Id>, keys: seq<string>,
                             t: Setting<Id>)
    ensures Read(rs + [r], idOf, keys, t) <==>
            if Has(r, idOf, keys, t.key, t.id) then LastEntryIs(r.configs, t.key, t.value) else Read(rs, idOf, keys, t)
  {
    var all := rs + [r];
    assert all[|rs|] == r;
    if Read(rs, idOf, keys, t) && !Has(r, idOf, keys, t.key, t.id) {
      var i :| 0 <= i < |rs| && Has(rs[i], idOf, keys, t.key, t.id) && LastEntryIs(rs[i].configs, t.key, t.value)
               && forall k :: i < k < |rs| ==> !Has(rs[k], idOf, keys, t.key, t.id);
      assert all[i] == rs[i];
      assert forall k :: i < k < |all| ==> all[k] == if k < |rs| then rs[k] else r;
    }
    if Read(all, idOf, keys, t) && !Has(r, idOf, keys, t.key, t.id) {
      var i :| 0 <= i < |all| && Has(all[i], idOf, keys, t.key, t.id) && LastEntryIs(all[i].configs, t.key, t.value)
               && forall k :: i < k < |all| ==> !Has(all[k], idOf, keys, t.key, t.id);
      assert rs[i] == all[i];
      assert forall k :: i < k < |rs| ==> rs[k] == all[k];
    }
  }

  lemma TableIsRead<Id(!new)>(rs: seq<Resource>, idOf: string -> Option<Id>, keys: seq<string>, table: Table<Id>)
    requires TableOf(Settings(rs, idOf, keys), table)
    ensures TableRead(rs, idOf, keys, table)
  {
    forall s
      ensures Holds(table, s) <==> Read(rs, idOf, keys, s)
    {
      SettingsAreRead(rs, idOf, keys, s);
      assert Holds(table, s) <==> InForce(Settings(rs, idOf, keys), s);
    }
  }

  // ---------------------------------------------------------------- the loops

  lemma NextResource<Id>(rs: seq<Resource>, idOf: string -> Option<Id>, keys: seq<string>, i: nat)
    requires i < |rs|
    ensures Settings(rs[..i + 1], idOf, keys) ==
            if rs[i].failed || idOf(rs[i].name).None? then Settings(rs[..i], idOf, keys)
            else Settings(rs[..i], idOf, keys) + SettingsOfConfigs(idOf(rs[i].name).value, rs[i].configs, keys)
  {
    assert rs[..i + 1][..i] == rs[..i];
  }

  method Collect<Id(==,!new)>(rs: seq<Resource>, idOf: string -> Option<Id>, keys: seq<string>)
    returns (table: Table<Id>)
    ensures TableOf(Settings(rs, idOf, keys), table) && TableRead(rs, idOf, keys, table)
  {
    table := map[];
    var i := 0;
    while i < |rs|
      invariant 0 <= i <= |rs|
      invariant TableOf(Settings(rs[..i], idOf, keys), table)
    {
      ghost var before := Settings(rs[..i], idOf, keys);
      NextResource(rs, idOf, keys, i);
      if !rs[i].failed && idOf(rs[i].name).Some? {
        table := CollectResource(table, before, idOf(rs[i].name).value, rs[i].configs, keys);
      }
      i := i + 1;
    }
    assert rs[..|rs|] == rs;
    TableIsRead(rs, idOf, keys, table);
  }

  method CollectResource<Id(==,!new)>(before: Table<Id>, ghost ss: seq<Setting<Id>>, id: Id, configs: seq<ConfigEntry>,
                                      keys: seq<string>)
    returns (table: Table<Id>)
    requires TableOf(ss, before)
    ensures TableOf(ss + SettingsOfConfigs(id, configs, keys), table)
  {
    table := before;
    var i := 0;
    assert ss + [] == ss;
    while i < |configs|
      invariant 0 <= i <= |configs|
      invariant TableOf(ss + SettingsOfConfigs(id, configs[..i], keys), table)
    {
      assert configs[..i + 1][..i] == configs[..i];
      ghost var sofar := SettingsOfConfigs(id, configs[..i], keys);
      var c := configs[i];
      if keys != [] && c.key !in keys {
        assert sofar + [] == sofar;
      } else {
        PutTable(ss + sofar, table, Setting(c.key, id, Shown(c)));
        assert ss + sofar + [Setting(c.key, id, Shown(c))] == ss + (sofar + [Setting(c.key, id, Shown(c))]);
        if c.key !in table {
          table := table[c.key := map[]];
        }
        table := table[c.key := table[c.key][id := Shown(c)]];
      }
      i := i + 1;
    }
    assert configs[..|configs|] == configs;
  }

  // ---------------------------------------------------------------- one key: the reference and the outliers

  function Holders<Id>(values: map<Id, string>, v: string): set<Id> {
    set id | id in values && values[id] == v
  }

  // The most common value; the smallest of them on a tie.
  ghost predicate IsReference<Id>(values: map<Id, string>, v: string) {
    && v in values.Values
    && forall w :: w in values.Values ==>
         |Holders(values, w)| < |Holders(values, v)| || (|Holders(values, w)| == |Holders(values, v)| && Leq(v, w))
  }

  lemma ReferenceIsUnique<Id>(values: map<Id, string>, v: string, w: string)
    requires IsReference(values, v) && IsReference(values, w)
    ensures v == w
  {
    LeqTotal(v, w);
  }

  function Others<Id>(values: map<Id, string>, v: string): set<Id> {
    set id | id in values && values[id] != v
  }

  // No value leaves fewer outliers than the reference.
  lemma ReferenceLeavesFewest<Id>(values: map<Id, string>, v: string, w: string)
    requires IsReference(values, v)
    ensures |Others(values, v)| <= |Others(values, w)|
  {
    OthersAndHolders(values, v);
    OthersAndHolders(values, w);
    if w !in values.Values {
      assert Holders(values, w) == {};
    }
  }

  lemma OthersAndHolders<Id>(values: map<Id, string>, v: string)
    ensures |Others(values, v)| + |Holders(values, v)| == |values.Keys|
  {
    assert Others(values, v) + Holders(values, v) == values.Keys;
    assert Others(values, v) !! Holders(values, v);
  }

  datatype Tally = Tally(value: string, count: nat)

  predicate Before(a: Tally, b: Tally) {
    a.count > b.count || (a.count == b.count && Leq(a.value, b.value))
  }

  lemma BeforeIsPreorder()
    ensures Preorder(Before)
  {
    forall a, b
      ensures Before(a, b) || Before(b, a)
    {
      LeqTotal(a.value, b.value);
    }
    forall a, b, c | Before(a, b) && Before(b, c)
      ensures Before(a, c)
    {
      if a.count == b.count == c.count { LeqTransitive(a.value, b.value, c.value); }
    }
  }

  // How many of the identifiers seen hold v.
  function Votes<Id>(values: map<Id, string>, seen: set<Id>, v: string): nat {
    |set id | id in seen && id in values && values[id] == v|
  }

  lemma OneMoreVote<Id>(values: map<Id, string>, seen: set<Id>, id: Id, v: string)
    requires id in values && id !in seen
    ensures Votes(values, seen + {id}, v) == Votes(values, seen, v) + if values[id] == v then 1 else 0
  {
    var before := set x | x in seen && x in values && values[x] == v;
    var after := set x | x in seen + {id} && x in values && values[x] == v;
    assert after == before + if values[id] == v then {id} else {};
  }

  // The counts of the identifiers seen so far.
  ghost predicate Counted<Id>(values: map<Id, string>, seen: set<Id>, counts: map<string, nat>) {
    forall v :: (v in counts <==> Votes(values, seen, v) > 0) && (v in counts ==> counts[v] == Votes(values, seen, v))
  }

  lemma CountNext<Id(!new)>(values: map<Id, string>, seen: set<Id>, counts: map<string, nat>, id: Id)
    requires Counted(values, seen, counts) && id in values && id !in seen
    ensures var v := values[id];
            Counted(values, seen + {id}, counts[v := (if v in counts then counts[v] else 0) + 1])
  {
    forall w
      ensures Votes(values, seen + {id}, w) == Votes(values, seen, w) + if values[id] == w then 1 else 0
    {
      OneMoreVote(values, seen, id, w);
    }
  }

  method CountVotes<Id(==,!new)>(values: map<Id, string>) returns (counts: map<string, nat>)
    ensures counts.Keys == values.Values
    ensures forall v :: v in counts ==> counts[v] == |Holders(values, v)|
  {
    counts := map[];
    var rest := values.Keys;
    ghost var seen: set<Id> := {};
    while rest != {}
      invariant seen !! rest && seen + rest == values.Keys
      invariant Counted(values, seen, counts)
      decreases |rest|
    {
      var id := AnyOf(rest);
      var v := values[id];
      CountNext(values, seen, counts, id);
      counts := counts[v := (if v in counts then counts[v] else 0) + 1];
      rest := rest - {id};
      seen := seen + {id};
    }
    AllVotesSeen(values, seen);
  }

  lemma AllVotesSeen<Id(!new)>(values: map<Id, string>, seen: set<Id>)
    requires seen == values.Keys
    ensures forall v :: Votes(values, seen, v) == |Holders(values, v)|
    ensures forall v :: Votes(values, seen, v) > 0 <==> v in values.Values
  {
    forall v
      ensures Votes(values, seen, v) == |Holders(values, v)|
      ensures Votes(values, seen, v) > 0 <==> v in values.Values
    {
      assert (set id | id in seen && id in values && values[id] == v) == Holders(values, v);
      if v in values.Values {
        var id :| id in values && values[id] == v;
        assert id in Holders(values, v);
      } else {
        assert Holders(values, v) == {};
      }
    }
  }

  // The value that comes first when the tallies are sorted.
  method MostCommon<Id(==,!new)>(values: map<Id, string>) returns (v: string)
    requires values != map[]
    ensures IsReference(values, v)
  {
    var counts := CountVotes(values);
    var pairs: seq<Tally> := [];
    var rest := counts.Keys;
    while rest != {}
      invariant rest <= counts.Keys
      invariant forall t :: t in pairs <==> t.value in counts && t.value !in rest && t.count == counts[t.value]
      decreases |rest|
    {
      var w := AnyOf(rest);
      pairs := pairs + [Tally(w, counts[w])];
      rest := rest - {w};
    }
    BeforeIsPreorder();
    SortSorts(pairs, Before);
    var sorted := Sort(pairs, Before);
    ghost var id :| id in values;
    assert Tally(values[id], counts[values[id]]) in sorted;
    v := sorted[0].value;
    assert sorted[0] in pairs;
    forall w | w in values.Values
      ensures Before(sorted[0], Tally(w, counts[w]))
    {
      assert Tally(w, counts[w]) in sorted;
      FirstIsLeast(sorted, Tally(w, counts[w]));
    }
  }

  lemma FirstIsLeast(s: seq<Tally>, t: Tally)
    requires SortedBy(s, Before) && t in s
    ensures Before(s[0], t)
  {
    var i :| 0 <= i < |s| && s[i] == t;
    LeqTotal(t.value, t.value);
  }

  method Outliers<Id(==,!new)>(values: map<Id, string>, reference: string, le: (Id, Id) -> bool)
    returns (outliers: seq<Id>)
    requires Preorder(le)
    ensures Lists(outliers, Others(values, reference), le)
  {
    var found: seq<Id> := [];
    var rest := values.Keys;
    while rest != {}
      invariant rest <= values.Keys && Distinct(found)
      invariant forall id :: id in found <==> id in values && id !in rest && values[id] != reference
      decreases |rest|
    {
      var id := AnyOf(rest);
      if values[id] != reference {
        found := found + [id];
      }
      rest := rest - {id};
    }
    SortSorts(found, le);
    SortKeepsDistinct(found, le);
    outliers := Sort(found, le);
  }

  // ---------------------------------------------------------------- the report

  datatype Entry<Id> = Entry(key: string, values: map<Id, string>, outliers: seq<Id>)

  // Two of the values are different.
  ghost predicate Differ<Id>(values: map<Id, string>) {
    exists i, j :: i in values && j in values && values[i] != values[j]
  }

  ghost predicate IsEntry<Id(!new)>(table: Table<Id>, le: (Id, Id) -> bool, e: Entry<Id>) {
    && e.key in table && e.values == table[e.key] && Differ(e.values)
    && exists reference :: IsReference(e.values, reference) && Lists(e.outliers, Others(e.values, reference), le)
  }

  predicate Reported<Id>(report: seq<Entry<Id>>, key: string) {
    exists i :: 0 <= i < |report| && report[i].key == key
  }

  // One entry for each key whose values differ, in the order of the keys.
  ghost predicate IsReport<Id(!new)>(table: Table<Id>, le: (Id, Id) -> bool, report: seq<Entry<Id>>) {
    && (forall i :: 0 <= i < |report| ==> IsEntry(table, le, report[i]))
    && (forall i, j :: 0 <= i < j < |report| ==> report[i].key != report[j].key && Leq(report[i].key, report[j].key))
    && (forall key :: key in table && Differ(table[key]) ==> Reported(report, key))
  }

  predicate KeyLeq<Id>(a: Entry<Id>, b: Entry<Id>) {
    Leq(a.key, b.key)
  }

  method DistinctValues<Id(==,!new)>(values: map<Id, string>) returns (distinct: set<string>)
    ensures distinct == values.Values
  {
    distinct := {};
    var rest := values.Keys;
    while rest != {}
      invariant rest <= values.Keys
      invariant forall v :: v in distinct <==> exists id :: id in values && id !in rest && values[id] == v
      decreases |rest|
    {
      var id := AnyOf(rest);
      distinct := distinct + {values[id]};
      rest := rest - {id};
    }
  }

  lemma DifferIffTwoValues<Id>(values: map<Id, string>)
    ensures Differ(values) <==> |values.Values| > 1
  {
    if Differ(values) {
      var i, j :| i in values && j in values && values[i] != values[j];
      var two := {values[i], values[j]};
      assert two <= values.Values;
      SubsetSize(two, values.Values);
    } else if values != map[] {
      var i :| i in values;
      assert values.Values == {values[i]};
    }
  }

  // One key: an entry if its values differ.
  method Compare<Id(==,!new)>(table: Table<Id>, key: string, le: (Id, Id) -> bool) returns (entry: Option<Entry<Id>>)
    requires Preorder(le) && key in table
    ensures entry.Some? <==> Differ(table[key])
    ensures entry.Some? ==> entry.value.key == key && IsEntry(table, le, entry.value)
  {
    var values := table[key];
    var distinct := DistinctValues(values);
    DifferIffTwoValues(values);
    if |distinct| <= 1 {
      return None;
    }
    var mostCommon := MostCommon(values);
    var outliers := Outliers(values, mostCommon, le);
    return Some(Entry(key, values, outliers));
  }

  lemma ReportedAppend<Id(!new)>(found: seq<Entry<Id>>, e: Entry<Id>)
    ensures forall k :: Reported(found + [e], k) <==> Reported(found, k) || k == e.key
  {
    assert (found + [e])[|found|] == e;
    forall k | Reported(found, k)
      ensures Reported(found + [e], k)
    {
      var i :| 0 <= i < |found| && found[i].key == k;
      assert (found + [e])[i] == found[i];
    }
  }

  // The entries found once only the keys in `rest` are left to look at.
  ghost predicate FoundSoFar<Id(!new)>(table: Table<Id>, le: (Id, Id) -> bool, rest: set<string>,
                                       found: seq<Entry<Id>>)
  {
    && (forall i :: 0 <= i < |found| ==> IsEntry(table, le, found[i]) && found[i].key !in rest)
    && (forall i, j :: 0 <= i < j < |found| ==> found[i].key != found[j].key)
    && (forall key :: key in table && key !in rest && Differ(table[key]) ==> Reported(found, key))
  }

  lemma NextKey<Id(!new)>(table: Table<Id>, le: (Id, Id) -> bool, rest: set<string>, found: seq<Entry<Id>>, key: string,
                          entry: Option<Entry<Id>>)
    requires FoundSoFar(table, le, rest, found) && key in rest && key in table
    requires if entry.Some? then IsEntry(table, le, entry.value) && entry.value.key == key else !Differ(table[key])
    ensures FoundSoFar(table, le, rest - {key}, if entry.Some? then found + [entry.value] else found)
  {
    if entry.Some? { ReportedAppend(found, entry.value); }
  }

  // The loop over the keys; `table` may be ranged over in any order.
  method Diff<Id(==,!new)>(table: Table<Id>, le: (Id, Id) -> bool) returns (report: seq<Entry<Id>>)
    requires Preorder(le)
    ensures IsReport(table, le, report)
  {
    var found: seq<Entry<Id>> := [];
    var rest := table.Keys;
    while rest != {}
      invariant rest <= table.Keys && FoundSoFar(table, le, rest, found)
      decreases |rest|
    {
      var key := AnyOf(rest);
      var entry := Compare(table, key, le);
      NextKey(table, le, rest, found, key, entry);
      rest := rest - {key};
      if entry.Some? {
        found := found + [entry.value];
      }
    }
    report := SortReport(table, le, found);
  }

  method SortReport<Id(==,!new)>(ghost table: Table<Id>, ghost le: (Id, Id) -> bool, found: seq<Entry<Id>>)
    returns (report: seq<Entry<Id>>)
    requires FoundSoFar(table, le, {}, found)
    ensures IsReport(table, le, report)
  {
    KeyLeqIsPreorder<Id>();
    SortSorts(found, KeyLeq<Id>);
    SortKeepsDistinct(found, KeyLeq<Id>);
    report := Sort(found, KeyLeq<Id>);
    SortedIsReport(table, le, found, report);
  }

  lemma SortedIsReport<Id(!new)>(table: Table<Id>, le: (Id, Id) -> bool, found: seq<Entry<Id>>, report: seq<Entry<Id>>)
    requires FoundSoFar(table, le, {}, found)
    requires SortedBy(report, KeyLeq<Id>) && Distinct(report) && forall e :: e in report <==> e in found
    ensures IsReport(table, le, report)
  {
    forall i | 0 <= i < |report|
      ensures IsEntry(table, le, report[i])
    {
      assert report[i] in found;
    }
    forall i, j | 0 <= i < j < |report|
      ensures report[i].key != report[j].key && Leq(report[i].key, report[j].key)
    {
      assert report[i] in found && report[j] in found;
      assert KeyLeq(report[i], report[j]);
    }
    forall key | key in table && Differ(table[key])
      ensures Reported(report, key)
    {
      var i :| 0 <= i < |found| && found[i].key == key;
      assert found[i] in report;
    }
  }

  lemma KeyLeqIsPreorder<Id(!new)>()
    ensures Preorder(KeyLeq<Id>)
  {
    LeqIsOrder();
  }

  // ---------------------------------------------------------------- properties of the report

  // A key is reported iff two of its values are different.
  lemma ReportedIffDiffer<Id(!new)>(table: Table<Id>, le: (Id, Id) -> bool, report: seq<Entry<Id>>, key: string)
    requires IsReport(table, le, report)
    ensures Reported(report, key) <==> key in table && Differ(table[key])
  {
    if Reported(report, key) {
      var i :| 0 <= i < |report| && report[i].key == key;
      assert IsEntry(table, le, report[i]);
    }
  }

  // No other reference value leaves fewer outliers than an entry lists.
  lemma FewestOutliers<Id(!new)>(table: Table<Id>, le: (Id, Id) -> bool, report: seq<Entry<Id>>, i: nat, w: string)
    requires IsReport(table, le, report) && i < |report|
    ensures |report[i].outliers| <= |Others(report[i].values, w)|
  {
    var e := report[i];
    assert IsEntry(table, le, e);
    var v :| IsReference(e.values, v) && Lists(e.outliers, Others(e.values, v), le);
    ReferenceLeavesFewest(e.values, v, w);
    ListSize(e.outliers, Others(e.values, v), le);
  }

  // The report is determined by the table: no order in which maps are ranged over shows in it.
  lemma ReportIsUnique<Id(!new)>(table: Table<Id>, le: (Id, Id) -> bool, a: seq<Entry<Id>>, b: seq<Entry<Id>>)
    requires Preorder(le) && Antisymmetric(le)
    requires IsReport(table, le, a) && IsReport(table, le, b)
    ensures a == b
  {
    SameKeys(table, le, a, b);
    forall i | 0 <= i < |a|
      ensures a[i] == b[i]
    {
      assert KeysOf(a)[i] == KeysOf(b)[i];
      EntryIsUnique(table, le, a[i], b[i]);
    }
  }

  function KeysOf<Id>(report: seq<Entry<Id>>): seq<string> {
    seq(|report|, i requires 0 <= i < |report| => report[i].key)
  }

  lemma SameKeys<Id(!new)>(table: Table<Id>, le: (Id, Id) -> bool, a: seq<Entry<Id>>, b: seq<Entry<Id>>)
    requires IsReport(table, le, a) && IsReport(table, le, b)
    ensures |a| == |b| && KeysOf(a) == KeysOf(b)
  {
    LeqIsOrder();
    forall key
      ensures key in KeysOf(a) <==> key in KeysOf(b)
    {
      KeyListed(table, le, a, key);
      KeyListed(table, le, b, key);
    }
    DistinctSameElements(KeysOf(a), KeysOf(b));
    SortedUnique(KeysOf(a), KeysOf(b), Leq);
  }

  lemma KeyListed<Id(!new)>(table: Table<Id>, le: (Id, Id) -> bool, report: seq<Entry<Id>>, key: string)
    requires IsReport(table, le, report)
    ensures key in KeysOf(report) <==> key in table && Differ(table[key])
  {
    ReportedIffDiffer(table, le, report, key);
    if Reported(report, key) {
      var i :| 0 <= i < |report| && report[i].key == key;
      assert KeysOf(report)[i] == key;
    }
    if key in KeysOf(report) {
      var i :| 0 <= i < |KeysOf(report)| && KeysOf(report)[i] == key;
      assert report[i].key == key;
    }
  }

  lemma EntryIsUnique<Id(!new)>(table: Table<Id>, le: (Id, Id) -> bool, a: Entry<Id>, b: Entry<Id>)
    requires Preorder(le) && Antisymmetric(le)
    requires IsEntry(table, le, a) && IsEntry(table, le, b) && a.key == b.key
    ensures a == b
  {
    var v :| IsReference(a.values, v) && Lists(a.outliers, Others(a.values, v), le);
    var w :| IsReference(b.values, w) && Lists(b.outliers, Others(b.values, w), le);
    ReferenceIsUnique(a.values, v, w);
    ListIsUnique(a.outliers, b.outliers, Others(a.values, v), le);
  }

  // ---------------------------------------------------------------- the two tasks

  function NamedTopic(name: string): Option<string> {
    Some(name)
  }

  // `parse` is fmt.Sscanf(name, "%d", &id).
  method BrokerConfigDiff(configs: seq<Resource>, parse: string -> Option<int>, keys: seq<string>)
    returns (report: seq<Entry<int>>)
    ensures exists table :: TableOf(Settings(configs, parse, keys), table) && TableRead(configs, parse, keys, table)
                            && IsReport(table, IntLeq, report)
  {
    IntLeqIsOrder();
    var valuesByKey := Collect(configs, parse, keys);
    report := Diff(valuesByKey, IntLeq);
  }

  method TopicConfigDiff(configs: seq<Resource>, keys: seq<string>) returns (report: seq<Entry<string>>)
    ensures exists table :: TableOf(Settings(configs, NamedTopic, keys), table)
                            && TableRead(configs, NamedTopic, keys, table) && IsReport(table, Leq, report)
    ensures forall name :: NamedTopic(name) == Some(name)
  {
    LeqIsOrder();
    var valuesByKey := Collect(configs, NamedTopic, keys);
    report := Diff(valuesByKey, Leq);
  }

  // What either task reports is determined by the settings it read.
  lemma OutcomeIsUnique<Id(!new)>(ss: seq<Setting<Id>>, le: (Id, Id) -> bool, t: Table<Id>, u: Table<Id>,
                                  a: seq<Entry<Id>>, b: seq<Entry<Id>>)
    requires Preorder(le) && Antisymmetric(le)
    requires TableOf(ss, t) && IsReport(t, le, a)
    requires TableOf(ss, u) && IsReport(u, le, b)
    ensures a == b
  {
    TableIsUnique(ss, t, u);
    ReportIsUnique(t, le, a, b);
  }
}
