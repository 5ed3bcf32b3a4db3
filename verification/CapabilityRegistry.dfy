/**
 Capability registry (internal/registry/registry.go).

 The registry keeps three maps. A provider's own configuration, which UpdateConfig changes and
 IsConfigured reads, is the registry's `states` here. Go's map iteration order is an arbitrary choice in
 each loop; the contracts fix the outcome for all of them.
 */
module CapabilityRegistry {
  import opened Wrappers
  import opened Sorting
  import opened Text

  type TaskRef = nat

  // Provider configuration, and a manifest's config struct; how it is read is up to the provider.
  type Settings = map<string, string>

  datatype Capability = Capability(name: string, provider: string, details: string, enabled: bool)

  // provider.Provider: `update` is UpdateConfig on the provider's own state, `configured` IsConfigured.
  datatype Provider = Provider(
    name: string,
    caps: seq<Capability>,
    tasks: map<string, TaskRef>,
    switchedOn: bool,
    update: (Settings, string, Settings) -> Settings,
    configured: Settings -> bool)

  datatype Manifest = Manifest(name: string, config: Option<Settings>)

  // cfg["enabled"] as parseEnabledFilter sees it; an entry that is no string is None.
  datatype EnabledValue = Absent | Strings(values: seq<string>) | Anys(items: seq<Option<string>>) | NotAList

  // None is the nil slice: no change of the filter.
  function ParseEnabledFilter(v: EnabledValue): Result<Option<seq<string>>, string> {
    match v
    case Absent => Ok(None)
    case Strings(values) => Ok(if values == [] then None else Some(values))
    case Anys(items) =>
      if exists i :: 0 <= i < |items| && items[i] == None then Err("entries must be strings")
      else if items == [] then Ok(None)
      else Ok(Some(seq(|items|, i requires 0 <= i < |items| => if items[i].Some? then items[i].value else "")))
    case NotAList => Err("must be a string list")
  }

  predicate LowerCase(c: char) {
    'a' <= c <= 'z'
  }

  // capability.ValidateName: at least two dot-separated parts, letters first, then letters and underscores.
  predicate ValidName(name: string) {
    var parts := Split(name, '.');
    && |parts| >= 2
    && (forall i :: 0 <= i < |parts| ==> parts[i] != "")
    && (forall c :: c in parts[0] ==> LowerCase(c))
    && (forall i, c :: 1 <= i < |parts| && c in parts[i] ==> LowerCase(c) || c == '_')
  }

  // The regular expression of capability names: [a-z]+(\.[a-z_]+)+
  predicate PartChar(c: char) {
    'a' <= c <= 'z' || c == '_'
  }

  // A dot and at least one more character, up to k.
  predicate PartUpTo(s: string, k: int) {
    1 < k <= |s| && s[0] == '.' && forall i :: 1 <= i < k ==> PartChar(s[i])
  }

  ghost predicate DottedParts(s: string)
    decreases |s|
  {
    exists k :: PartUpTo(s, k) && (k == |s| || DottedParts(s[k..]))
  }

  predicate HeadUpTo(name: string, k: int) {
    0 < k < |name| && forall i :: 0 <= i < k ==> 'a' <= name[i] <= 'z'
  }

  ghost predicate MatchesNamePattern(name: string) {
    exists k :: HeadUpTo(name, k) && DottedParts(name[k..])
  }

  predicate GoodParts(parts: seq<string>) {
    forall i :: 0 <= i < |parts| ==> parts[i] != "" && forall c :: c in parts[i] ==> PartChar(c)
  }

  lemma StartsWithDot(s: string, k: nat)
    requires k < |s| && DottedParts(s[k..])
    ensures s[k] == '.'
  {
    var t := s[k..];
    var e :| PartUpTo(t, e) && (e == |t| || DottedParts(t[e..]));
    assert t[0] == s[k];
  }

  // The first part after a dot ends at the next dot.
  lemma CutAtDot(s: string, e: nat)
    requires 1 <= e <= |s| && s[0] == '.' && (forall i :: 1 <= i < e ==> s[i] != '.') && (e < |s| ==> s[e] == '.')
    ensures DottedParts(s) <==>
            e > 1 && (forall i :: 1 <= i < e ==> PartChar(s[i])) && (e == |s| || DottedParts(s[e..]))
  {
    if DottedParts(s) {
      var k :| PartUpTo(s, k) && (k == |s| || DottedParts(s[k..]));
      if k < |s| { StartsWithDot(s, k); }
      assert k == e;
    }
    if e > 1 && (forall i :: 1 <= i < e ==> PartChar(s[i])) && (e == |s| || DottedParts(s[e..])) {
      assert PartUpTo(s, e);
    }
  }

  lemma {:induction false} DottedPartsAre(s: string)
    requires s != "" && s[0] == '.'
    ensures DottedParts(s) <==> GoodParts(Split(s[1..], '.'))
    decreases |s|
  {
    var t := s[1..];
    var i := FirstIndex(t, '.');
    if i < 0 {
      SplitWhole(t, '.');
      CutAtDot(s, |s|);
      OnePartGood(s, |s|);
      assert s[1..|s|] == t && [t] + [] == [t];
      FirstPartGood(t, []);
    } else {
      assert t == t[..i] + ['.'] + t[i + 1..];
      SplitFirst(t[..i], '.', t[i + 1..]);
      NoDotBefore(s, i);
      CutAtDot(s, i + 1);
      assert s[i + 1..][1..] == t[i + 1..] && s[1..i + 1] == t[..i];
      DottedPartsAre(s[i + 1..]);
      FirstPartGood(t[..i], Split(t[i + 1..], '.'));
      OnePartGood(s, i + 1);
    }
  }

  lemma NoDotBefore(s: string, i: nat)
    requires s != "" && i < |s| - 1 && s[1..][i] == '.' && '.' !in s[1..][..i]
    ensures (forall j :: 1 <= j < i + 1 ==> s[j] != '.') && s[i + 1] == '.'
  {
    forall j | 1 <= j < i + 1
      ensures s[j] != '.'
    {
      assert s[j] == s[1..][..i][j - 1];
    }
  }

  lemma OnePartGood(s: string, e: nat)
    requires 1 <= e <= |s|
    ensures (forall j :: 1 <= j < e ==> PartChar(s[j])) <==> forall c :: c in s[1..e] ==> PartChar(c)
  {
    forall j | 1 <= j < e
      ensures s[j] in s[1..e]
    {
      assert s[j] == s[1..e][j - 1];
    }
  }

  lemma FirstPartGood(k: string, rest: seq<string>)
    ensures GoodParts([k] + rest) <==> k != "" && (forall c :: c in k ==> PartChar(c)) && GoodParts(rest)
  {
    var all := [k] + rest;
    assert all[0] == k;
    assert forall i :: 0 <= i < |rest| ==> all[i + 1] == rest[i];
  }

  lemma NoDotNoMatch(name: string)
    requires '.' !in name
    ensures !MatchesNamePattern(name) && !ValidName(name)
  {
    SplitWhole(name, '.');
    if k :| HeadUpTo(name, k) && DottedParts(name[k..]) { StartsWithDot(name, k); }
  }

  lemma HeadEndsAtDot(name: string, i: nat)
    requires i < |name| && name[i] == '.' && '.' !in name[..i]
    ensures MatchesNamePattern(name) <==> HeadUpTo(name, i) && DottedParts(name[i..])
  {
    forall j | 0 <= j < i
      ensures name[j] != '.'
    {
      assert name[..i][j] == name[j];
    }
    if k :| HeadUpTo(name, k) && DottedParts(name[k..]) {
      StartsWithDot(name, k);
      assert k == i;
    }
  }

  lemma HeadIsLower(name: string, i: nat)
    requires i < |name|
    ensures HeadUpTo(name, i) <==> name[..i] != "" && forall c :: c in name[..i] ==> LowerCase(c)
  {
    forall j | 0 <= j < i
      ensures name[j] in name[..i]
    {
      assert name[j] == name[..i][j];
    }
  }

  lemma ValidByParts(name: string, first: string, rest: seq<string>)
    requires Split(name, '.') == [first] + rest && rest != []
    ensures ValidName(name) <==> first != "" && (forall c :: c in first ==> LowerCase(c)) && GoodParts(rest)
  {
    var parts := [first] + rest;
    assert parts[0] == first;
    if ValidName(name) {
      forall i | 0 <= i < |rest|
        ensures rest[i] != "" && forall c :: c in rest[i] ==> PartChar(c)
      {
        assert parts[i + 1] == rest[i];
        forall c | c in rest[i]
          ensures PartChar(c)
        {
          assert c in parts[i + 1];
          assert LowerCase(c) || c == '_';
        }
      }
    }
    if first != "" && (forall c :: c in first ==> LowerCase(c)) && GoodParts(rest) {
      forall i | 0 <= i < |parts|
        ensures parts[i] != ""
        ensures i >= 1 ==> forall c :: c in parts[i] ==> LowerCase(c) || c == '_'
      {
        if i >= 1 {
          assert parts[i] == rest[i - 1];
          assert forall c :: c in rest[i - 1] ==> PartChar(c);
        }
      }
    }
  }

  lemma ValidNameIff(name: string)
    ensures ValidName(name) <==> MatchesNamePattern(name)
  {
    var i := FirstIndex(name, '.');
    if i < 0 {
      NoDotNoMatch(name);
    } else {
      assert name == name[..i] + ['.'] + name[i + 1..];
      SplitFirst(name[..i], '.', name[i + 1..]);
      ValidByParts(name, name[..i], Split(name[i + 1..], '.'));
      assert name[i..][1..] == name[i + 1..];
      DottedPartsAre(name[i..]);
      HeadEndsAtDot(name, i);
      HeadIsLower(name, i);
    }
  }

  // A list of strings is the same filter in either form; an empty one changes nothing.
  lemma FilterFromEitherForm(items: seq<Option<string>>)
    ensures ParseEnabledFilter(Anys(items)).Ok? <==> forall i :: 0 <= i < |items| ==> items[i].Some?
    ensures forall values: seq<string> ::
              |values| == |items| && (forall i :: 0 <= i < |items| ==> items[i] == Some(values[i])) ==>
                && ParseEnabledFilter(Anys(items)) == ParseEnabledFilter(Strings(values))
                && ParseEnabledFilter(Strings(values)) == Ok(if values == [] then None else Some(values))
    ensures ParseEnabledFilter(Absent) == Ok(None) && ParseEnabledFilter(NotAList).Err?
  {
    forall values: seq<string> | |values| == |items| && forall i :: 0 <= i < |items| ==> items[i] == Some(values[i])
      ensures ParseEnabledFilter(Anys(items)) == ParseEnabledFilter(Strings(values))
    {
      if items != [] {
        assert seq(|items|, i requires 0 <= i < |items| => if items[i].Some? then items[i].value else "") == values;
      }
    }
  }

  // ---------------------------------------------------------------- what a provider contributes

  function Owned(cap: Capability, provider: string): Capability {
    if cap.provider == "" then cap.(provider := provider) else cap
  }

  // The first n capabilities of p as registry entries.
  function CapsUpTo(p: Provider, n: nat): map<string, Capability>
    requires n <= |p.caps|
  {
    if n == 0 then map[]
    else CapsUpTo(p, n - 1)[p.caps[n - 1].name := Owned(p.caps[n - 1], p.name)]
  }

  function CapsOf(p: Provider): map<string, Capability> {
    CapsUpTo(p, |p.caps|)
  }

  function TasksUpTo(p: Provider, n: nat): map<string, TaskRef>
    requires n <= |p.caps|
  {
    map k | k in CapsUpTo(p, n) && k in p.tasks :: p.tasks[k]
  }

  function TasksOf(p: Provider): map<string, TaskRef> {
    TasksUpTo(p, |p.caps|)
  }

  // What a provider offers: an entry for each of its capability names, marked with a provider, from the last
  // capability of that name; and the task of that name, if it has one.
  lemma OffersExactly(p: Provider, n: string)
    ensures n in CapsOf(p) <==> exists i :: 0 <= i < |p.caps| && p.caps[i].name == n
    ensures n in TasksOf(p) <==> n in p.tasks && exists i :: 0 <= i < |p.caps| && p.caps[i].name == n
    ensures n in TasksOf(p) ==> TasksOf(p)[n] == p.tasks[n]
    ensures n in CapsOf(p) ==> exists i :: IsEntryOf(p, i, CapsOf(p)[n]) && p.caps[i].name == n
                                        && forall j :: i < j < |p.caps| ==> p.caps[j].name != n
  {
    OffersUpTo(p, |p.caps|, n);
  }

  predicate IsEntryOf(p: Provider, i: int, entry: Capability) {
    && 0 <= i < |p.caps|
    && entry == p.caps[i].(provider := if p.caps[i].provider == "" then p.name else p.caps[i].provider)
  }

  lemma {:induction false} OffersUpTo(p: Provider, m: nat, n: string)
    requires m <= |p.caps|
    ensures n in CapsUpTo(p, m) <==> exists i :: 0 <= i < m && p.caps[i].name == n
    ensures n in CapsUpTo(p, m) ==> exists i :: i < m && IsEntryOf(p, i, CapsUpTo(p, m)[n]) && p.caps[i].name == n
                                             && forall j :: i < j < m ==> p.caps[j].name != n
  {
    if m == 0 {
    } else {
      OffersUpTo(p, m - 1, n);
      if p.caps[m - 1].name == n {
        assert IsEntryOf(p, m - 1, CapsUpTo(p, m)[n]);
      }
    }
  }

  // Name k continues name j after a dot.
  predicate Extends(j: string, k: string) {
    HasPrefix(k, j + ".")
  }

  // No provider's name continues another's.
  ghost predicate NamesApart(ps: Providers) {
    forall j, k :: j in ps && k in ps ==> !Extends(j, k)
  }

  // A provider with a name, its capabilities marked with no provider or with its own.
  ghost predicate WellFormed(p: Provider) {
    && p.name != ""
    && (forall i :: 0 <= i < |p.caps| ==> p.caps[i].provider == "" || p.caps[i].provider == p.name)
  }

  type Providers = map<string, Provider>

  ghost predicate Apart(ps: Providers, j: string, k: string) {
    j in ps && k in ps && j != k ==> CapsOf(ps[j]).Keys !! CapsOf(ps[k]).Keys
  }

  ghost predicate Listed(ps: Providers, k: string) {
    k in ps ==> ps[k].name == k && WellFormed(ps[k])
  }

  ghost predicate ProvidersOk(ps: Providers) {
    && (forall k :: Listed(ps, k))
    && (forall j, k :: Apart(ps, j, k))
  }

  // The provider that offers capability n, "" if none does.
  ghost function Owner(ps: Providers, n: string): string {
    if k :| k in ps && n in CapsOf(ps[k]) then k else ""
  }

  lemma OwnerIs(ps: Providers, k: string, n: string)
    requires ProvidersOk(ps) && k in ps
    ensures n in CapsOf(ps[k]) <==> Owner(ps, n) == k
  {
    var j := Owner(ps, n);
    assert Apart(ps, j, k) && Listed(ps, k);
    assert j in ps && n in CapsOf(ps[j]) && n in CapsOf(ps[k]) ==> n in CapsOf(ps[j]).Keys * CapsOf(ps[k]).Keys;
  }

  // Both maps have, under n, what its owner offers if the owner is in `on`, and nothing otherwise.
  ghost predicate Fits(ps: Providers, on: set<string>, caps: map<string, Capability>, tasks: map<string, TaskRef>,
                       n: string)
  {
    var k := Owner(ps, n);
    if k in on && k in ps && n in CapsOf(ps[k]) then
      && n in caps && caps[n] == CapsOf(ps[k])[n]
      && (n in tasks <==> n in TasksOf(ps[k]))
      && (n in tasks ==> tasks[n] == TasksOf(ps[k])[n])
    else
      n !in caps && n !in tasks
  }

  // The maps hold exactly what the providers in `on` offer.
  ghost predicate Union(ps: Providers, on: set<string>, caps: map<string, Capability>, tasks: map<string, TaskRef>) {
    on <= ps.Keys && forall n :: Fits(ps, on, caps, tasks, n)
  }

  lemma SameMap<V>(m: map<string, V>, m': map<string, V>)
    requires forall n :: n in m <==> n in m'
    requires forall n :: n in m && n in m' ==> m[n] == m'[n]
    ensures m == m'
  {
    assert m.Keys == m'.Keys;
  }

  // Which leaves no freedom: the order in which a map was iterated cannot show.
  lemma UnionIsUnique(ps: Providers, on: set<string>,
                      caps: map<string, Capability>, tasks: map<string, TaskRef>,
                      caps': map<string, Capability>, tasks': map<string, TaskRef>)
    requires Union(ps, on, caps, tasks) && Union(ps, on, caps', tasks')
    ensures caps == caps' && tasks == tasks'
  {
    forall n
      ensures (n in caps <==> n in caps') && (n in caps ==> caps[n] == caps'[n])
      ensures (n in tasks <==> n in tasks') && (n in tasks ==> tasks[n] == tasks'[n])
    {
      assert Fits(ps, on, caps, tasks, n) && Fits(ps, on, caps', tasks', n);
    }
    SameMap(caps, caps');
    SameMap(tasks, tasks');
  }

  lemma AddEntry<V>(m: map<string, V>, a: map<string, V>, k: string, v: V)
    ensures (m + a)[k := v] == m + a[k := v]
  {
  }

  lemma DropEntry<V>(m: map<string, V>, names: set<string>, k: string)
    ensures m - names - {k} == m - (names + {k})
  {
  }

  lemma TasksUpToStep(p: Provider, i: nat)
    requires i < |p.caps|
    ensures var n := p.caps[i].name;
            TasksUpTo(p, i + 1) == if n in p.tasks then TasksUpTo(p, i)[n := p.tasks[n]] else TasksUpTo(p, i)
    ensures CapsUpTo(p, i + 1).Keys == CapsUpTo(p, i).Keys + {p.caps[i].name}
  {
  }

  // One more capability, in both maps.
  lemma OneMoreCapability(caps: map<string, Capability>, tasks: map<string, TaskRef>, p: Provider, i: nat)
    requires i < |p.caps|
    ensures var c := p.caps[i];
            && caps + CapsUpTo(p, i + 1) == (caps + CapsUpTo(p, i))[c.name := Owned(c, p.name)]
            && tasks + TasksUpTo(p, i + 1) ==
               if c.name in p.tasks then (tasks + TasksUpTo(p, i))[c.name := p.tasks[c.name]]
               else tasks + TasksUpTo(p, i)
  {
    var c := p.caps[i];
    AddEntry(caps, CapsUpTo(p, i), c.name, Owned(c, p.name));
    if c.name in p.tasks { AddEntry(tasks, TasksUpTo(p, i), c.name, p.tasks[c.name]); }
  }

  lemma {:induction false} CapsUpToEntries(p: Provider, m: nat)
    requires m <= |p.caps|
    ensures forall i :: 0 <= i < m ==> p.caps[i].name in CapsUpTo(p, m)
    ensures WellFormed(p) ==>
      forall n :: n in CapsUpTo(p, m) ==> CapsUpTo(p, m)[n].name == n && CapsUpTo(p, m)[n].provider == p.name
  {
    if m == 0 {
    } else {
      CapsUpToEntries(p, m - 1);
    }
  }

  lemma AddProvider(ps: Providers, on: set<string>,
                    caps: map<string, Capability>, tasks: map<string, TaskRef>, k: string)
    requires ProvidersOk(ps) && k in ps && Union(ps, on, caps, tasks)
    ensures Union(ps, on + {k}, caps + CapsOf(ps[k]), tasks + TasksOf(ps[k]))
  {
    forall n
      ensures Fits(ps, on + {k}, caps + CapsOf(ps[k]), tasks + TasksOf(ps[k]), n)
    {
      OwnerIs(ps, k, n);
      assert Fits(ps, on, caps, tasks, n);
    }
  }

  lemma RemoveProvider(ps: Providers, on: set<string>,
                       caps: map<string, Capability>, tasks: map<string, TaskRef>, k: string)
    requires ProvidersOk(ps) && k in ps && Union(ps, on, caps, tasks)
    ensures Union(ps, on - {k}, caps - CapsOf(ps[k]).Keys, tasks - CapsOf(ps[k]).Keys)
  {
    forall n
      ensures Fits(ps, on - {k}, caps - CapsOf(ps[k]).Keys, tasks - CapsOf(ps[k]).Keys, n)
    {
      OwnerIs(ps, k, n);
      assert Fits(ps, on, caps, tasks, n);
    }
  }

  // An entry of the capability map is marked with its own name and its owner's.
  lemma EntryIsMarked(ps: Providers, on: set<string>,
                      caps: map<string, Capability>, tasks: map<string, TaskRef>, n: string)
    requires ProvidersOk(ps) && Union(ps, on, caps, tasks) && n in caps
    ensures caps[n].name == n && caps[n].provider == Owner(ps, n)
    ensures Owner(ps, n) in on && n in CapsOf(ps[Owner(ps, n)])
  {
    var k := Owner(ps, n);
    assert Fits(ps, on, caps, tasks, n) && Listed(ps, k);
    CapsUpToEntries(ps[k], |ps[k].caps|);
  }

  // The first capability of a provider is in the map exactly when the provider is in.
  lemma FirstCapability(ps: Providers, on: set<string>,
                        caps: map<string, Capability>, tasks: map<string, TaskRef>, k: string)
    requires ProvidersOk(ps) && Union(ps, on, caps, tasks) && k in ps && ps[k].caps != []
    ensures Owner(ps, ps[k].caps[0].name) == k
    ensures ps[k].caps[0].name in caps <==> k in on
  {
    var n := ps[k].caps[0].name;
    CapsUpToEntries(ps[k], |ps[k].caps|);
    OwnerIs(ps, k, n);
    assert Fits(ps, on, caps, tasks, n);
  }

  // hasAnyCapabilityLocked finds a capability of k exactly when k is in and has one.
  lemma HasAnyMeansOn(ps: Providers, on: set<string>,
                      caps: map<string, Capability>, tasks: map<string, TaskRef>, k: string)
    requires ProvidersOk(ps) && k in ps && Union(ps, on, caps, tasks)
    ensures (exists n :: n in caps && caps[n].provider == k) <==> k in on && ps[k].caps != []
  {
    if n :| n in caps && caps[n].provider == k {
      EntryIsMarked(ps, on, caps, tasks, n);
    }
    if k in on && ps[k].caps != [] {
      FirstCapability(ps, on, caps, tasks, k);
      EntryIsMarked(ps, on, caps, tasks, ps[k].caps[0].name);
    }
  }

  // ---------------------------------------------------------------- provider lookup and config updates

  // findProviderByCapability may answer k.
  predicate MayAnswer(ps: Providers, name: string, k: string) {
    if name in ps then k == name
    else k in ps && k != "" && HasPrefix(name, k + ".")
  }

  lemma LookupUnambiguous(ps: Providers, name: string, j: string, k: string)
    requires NamesApart(ps) && MayAnswer(ps, name, j) && MayAnswer(ps, name, k)
    ensures j == k
  {
    if name !in ps {
      OneExtendsOther(name, j, k);
    }
  }

  // Of two names that both lead to a dot in a third, one continues the other, unless they are the same.
  lemma OneExtendsOther(name: string, j: string, k: string)
    requires Extends(j, name) && Extends(k, name)
    ensures j == k || Extends(j, k) || Extends(k, j)
  {
    if |j| < |k| {
      ShorterExtends(name, j, k);
    } else if |k| < |j| {
      ShorterExtends(name, k, j);
    } else {
      assert j == name[..|j + "."|][..|j|] && k == name[..|k + "."|][..|k|];
    }
  }

  lemma ShorterExtends(name: string, j: string, k: string)
    requires Extends(j, name) && Extends(k, name) && |j| < |k|
    ensures Extends(j, k)
  {
    assert k == name[..|k + "."|][..|k|] == name[..|k|];
    assert j + "." == name[..|j| + 1] == k[..|j| + 1];
  }

  // The answer never depends on which provider is looked at first iff no name continues another after a dot.
  lemma LookupUnambiguousIff(ps: Providers)
    requires "" !in ps
    ensures (forall name, j, k :: MayAnswer(ps, name, j) && MayAnswer(ps, name, k) ==> j == k) <==> NamesApart(ps)
  {
    if NamesApart(ps) {
      forall name, j, k | MayAnswer(ps, name, j) && MayAnswer(ps, name, k)
        ensures j == k
      {
        LookupUnambiguous(ps, name, j, k);
      }
    } else {
      var j, k :| j in ps && k in ps && Extends(j, k);
      var name := NameBelow(ps, k);
      assert HasPrefix(name, j + ".") by { assert name[..|j| + 1] == k[..|j| + 1]; }
      assert MayAnswer(ps, name, j) && MayAnswer(ps, name, k);
    }
  }

  // There is always a capability name below k that no provider has.
  lemma NameBelow(ps: Providers, k: string) returns (name: string)
    ensures name !in ps && HasPrefix(name, k + ".") && name[..|k|] == k
  {
    var n := LongerThanAll(ps.Keys);
    name := k + "." + seq(n, _ => 'x');
    assert name[..|k + "."|] == k + ".";
  }

  lemma {:induction false} LongerThanAll(names: set<string>) returns (n: nat)
    ensures forall x :: x in names ==> |x| < n
  {
    if names == {} {
      n := 0;
    } else {
      var x :| x in names;
      n := LongerThanAll(names - {x});
      n := n + |x| + 1;
    }
  }

  // Two providers for which it does: either can be given the manifest "a.b.c".
  lemma DottedNamesAreAmbiguous(p: Provider, q: Provider)
    requires p.name == "a" && q.name == "a.b"
    ensures var ps: Providers := map[p.name := p, q.name := q];
            MayAnswer(ps, "a.b.c", p.name) && MayAnswer(ps, "a.b.c", q.name)
  {
    assert "a.b.c"[..2] == "a" + "." && "a.b.c"[..4] == "a.b" + ".";
    assert |"a.b.c"| == 5 && |"a.b"| == 3 && |"a"| == 1;
  }

  // The provider whose UpdateConfig a manifest reaches.
  ghost predicate Receives(ps: Providers, caps: map<string, Capability>, name: string, k: string) {
    if name in caps then caps[name].provider == k && k != "" && k in ps
    else MayAnswer(ps, name, k) && k != ""
  }

  // What routing a name comes to: a provider it may reach, or "" when there is none.
  ghost predicate Reached(ps: Providers, caps: map<string, Capability>, name: string, target: string) {
    if target == "" then forall k :: !Receives(ps, caps, name, k)
    else target in ps && Receives(ps, caps, name, target)
  }

  // One provider's state after one manifest handed to the target, and after several in order.
  ghost function UpdatedBy1(ps: Providers, k: string, s: Settings, m: Manifest, target: string): Settings
    requires k in ps
  {
    if m.config.Some? && target == k && k != "" then ps[k].update(s, m.name, m.config.value) else s
  }

  ghost function UpdatedBy(ps: Providers, k: string, s: Settings, ms: seq<Manifest>, targets: seq<string>): Settings
    requires k in ps && |targets| == |ms|
  {
    if ms == [] then s
    else
      var n := |ms| - 1;
      UpdatedBy1(ps, k, UpdatedBy(ps, k, s, ms[..n], targets[..n]), ms[n], targets[n])
  }

  // One manifest hands its name and config to the target; more are handed on in their order.
  lemma {:induction false} UpdatesInOrder(ps: Providers, k: string, s: Settings, a: seq<Manifest>, b: seq<Manifest>,
                                          ta: seq<string>, tb: seq<string>)
    requires k in ps && k != "" && |ta| == |a| && |tb| == |b|
    ensures UpdatedBy(ps, k, s, a + b, ta + tb) == UpdatedBy(ps, k, UpdatedBy(ps, k, s, a, ta), b, tb)
    ensures |a| == 1 && a[0].config.Some? && ta[0] == k ==>
              UpdatedBy(ps, k, s, a, ta) == ps[k].update(s, a[0].name, a[0].config.value)
    ensures |a| == 1 && (a[0].config.None? || ta[0] != k) ==> UpdatedBy(ps, k, s, a, ta) == s
  {
    if |a| == 1 { assert a[..0] == [] && ta[..0] == []; }
    if b == [] {
      assert a + b == a && ta + tb == ta;
    } else {
      var n := |b| - 1;
      assert (a + b)[..|a + b| - 1] == a + b[..n] && (ta + tb)[..|a + b| - 1] == ta + tb[..n];
      UpdatesInOrder(ps, k, s, a, b[..n], ta, tb[..n]);
    }
  }

  // Every manifest went to one of the providers it may reach.
  ghost predicate AllReached(ps: Providers, caps: map<string, Capability>, ms: seq<Manifest>, targets: seq<string>) {
    |targets| == |ms| && forall i :: 0 <= i < |ms| ==> Reached(ps, caps, ms[i].name, targets[i])
  }

  // The same, when every manifest goes to each provider it may reach.
  ghost function Updated1(ps: Providers, caps: map<string, Capability>, k: string, s: Settings, m: Manifest): Settings
    requires k in ps
  {
    if m.config.Some? && Receives(ps, caps, m.name, k) then ps[k].update(s, m.name, m.config.value) else s
  }

  ghost function Updated(ps: Providers, caps: map<string, Capability>, k: string, s: Settings,
                         ms: seq<Manifest>): Settings
    requires k in ps
  {
    if ms == [] then s
    else Updated1(ps, caps, k, Updated(ps, caps, k, s, ms[..|ms| - 1]), ms[|ms| - 1])
  }

  lemma OnlyOneReached(ps: Providers, caps: map<string, Capability>, name: string, target: string, k: string)
    requires NamesApart(ps) && Reached(ps, caps, name, target) && Receives(ps, caps, name, k)
    ensures k == target
  {
    if name !in caps { LookupUnambiguous(ps, name, target, k); }
  }

  // When no name continues another after a dot there is no choice, so the iteration order does not show.
  lemma {:induction false} RoutingIsDetermined(ps: Providers, caps: map<string, Capability>, k: string, s: Settings,
                                               ms: seq<Manifest>, targets: seq<string>)
    requires NamesApart(ps) && k in ps && AllReached(ps, caps, ms, targets)
    ensures UpdatedBy(ps, k, s, ms, targets) == Updated(ps, caps, k, s, ms)
  {
    if ms == [] {
    } else {
      var n := |ms| - 1;
      RoutingIsDetermined(ps, caps, k, s, ms[..n], targets[..n]);
      assert Reached(ps, caps, ms[n].name, targets[n]);
      if Receives(ps, caps, ms[n].name, k) { OnlyOneReached(ps, caps, ms[n].name, targets[n], k); }
    }
  }

  lemma AllDetermined(ps: Providers, caps: map<string, Capability>, before: map<string, Settings>,
                      after: map<string, Settings>, ms: seq<Manifest>, targets: seq<string>)
    requires before.Keys == after.Keys == ps.Keys && AllReached(ps, caps, ms, targets)
    requires forall k :: k in ps ==> after[k] == UpdatedBy(ps, k, before[k], ms, targets)
    ensures NamesApart(ps) ==> forall k :: k in ps ==> after[k] == Updated(ps, caps, k, before[k], ms)
  {
    if NamesApart(ps) {
      forall k | k in ps
        ensures after[k] == Updated(ps, caps, k, before[k], ms)
      {
        RoutingIsDetermined(ps, caps, k, before[k], ms, targets);
      }
    }
  }

  lemma OneMoreReached(ps: Providers, caps: map<string, Capability>, ms: seq<Manifest>, targets: seq<string>,
                       target: string)
    requires |targets| < |ms| && AllReached(ps, caps, ms[..|targets|], targets)
    requires Reached(ps, caps, ms[|targets|].name, target)
    ensures AllReached(ps, caps, ms[..|targets| + 1], targets + [target])
  {
    forall i | 0 <= i < |targets| + 1
      ensures Reached(ps, caps, ms[..|targets| + 1][i].name, (targets + [target])[i])
    {
      if i < |targets| { assert ms[..|targets|][i] == ms[i]; }
    }
  }

  lemma OneMoreUpdate(ps: Providers, k: string, s: Settings, ms: seq<Manifest>, targets: seq<string>, target: string)
    requires |targets| < |ms| && k in ps
    ensures UpdatedBy(ps, k, s, ms[..|targets| + 1], targets + [target]) ==
            UpdatedBy1(ps, k, UpdatedBy(ps, k, s, ms[..|targets|], targets), ms[|targets|], target)
  {
    var n := |targets|;
    assert ms[..n + 1][..n] == ms[..n] && (targets + [target])[..n] == targets;
  }

  // ---------------------------------------------------------------- the enabled list

  predicate IsPattern(s: string) {
    '*' in s
  }

  // One entry of the filter; `glob` is path.Match, None for a malformed pattern.
  predicate Admits(glob: (string, string) -> Option<bool>, pattern: string, name: string) {
    if IsPattern(pattern) then glob(pattern, name) == Some(true) else pattern == name
  }

  predicate SwitchedOn(glob: (string, string) -> Option<bool>, patterns: seq<string>, name: string) {
    patterns == [] || exists i :: 0 <= i < |patterns| && Admits(glob, patterns[i], name)
  }

  predicate NameLeq(a: Capability, b: Capability) {
    Leq(a.name, b.name)
  }

  ghost predicate StrictlyByName(l: seq<Capability>) {
    forall i, j :: 0 <= i < j < |l| ==> Leq(l[i].name, l[j].name) && l[i].name != l[j].name
  }

  // The enabled capabilities, each once, in name order, marked enabled.
  ghost predicate EnabledList(caps: map<string, Capability>, glob: (string, string) -> Option<bool>,
                              patterns: seq<string>, l: seq<Capability>)
  {
    && StrictlyByName(l)
    && (forall c :: c in l ==>
          c.name in caps && SwitchedOn(glob, patterns, c.name) && c == caps[c.name].(enabled := true))
    && (forall n :: n in caps && SwitchedOn(glob, patterns, n) ==> caps[n].(enabled := true) in l)
  }

  // A name is on iff there is no filter, or the filter has it as an entry that is no pattern, or has a pattern
  // that matches it without error.
  ghost predicate InFilter(glob: (string, string) -> Option<bool>, patterns: seq<string>, name: string) {
    || patterns == []
    || (name in patterns && '*' !in name)
    || exists i :: 0 <= i < |patterns| && '*' in patterns[i] && glob(patterns[i], name) == Some(true)
  }

  lemma SwitchedOnIff(glob: (string, string) -> Option<bool>, patterns: seq<string>, name: string)
    ensures SwitchedOn(glob, patterns, name) <==> InFilter(glob, patterns, name)
  {
    if name in patterns && '*' !in name {
      var i :| 0 <= i < |patterns| && patterns[i] == name;
      assert Admits(glob, patterns[i], name);
    }
    if i :| 0 <= i < |patterns| && '*' in patterns[i] && glob(patterns[i], name) == Some(true) {
      assert Admits(glob, patterns[i], name);
    }
  }

  function NamesOf(l: seq<Capability>): set<string> {
    set c | c in l :: c.name
  }

  // The names on an enabled list: without a filter all of them, with one free of patterns those it names.
  lemma EnabledNames(caps: map<string, Capability>, glob: (string, string) -> Option<bool>, patterns: seq<string>,
                     l: seq<Capability>)
    requires EnabledList(caps, glob, patterns, l) && forall n :: n in caps ==> caps[n].name == n
    ensures forall n :: n in NamesOf(l) <==> n in caps && InFilter(glob, patterns, n)
    ensures patterns == [] ==> NamesOf(l) == caps.Keys
    ensures patterns != [] && (forall i :: 0 <= i < |patterns| ==> '*' !in patterns[i]) ==>
              NamesOf(l) == set n | n in caps && n in patterns
    ensures forall c :: c in l ==> c.name in caps && c == caps[c.name].(enabled := true)
  {
    forall n
      ensures n in NamesOf(l) <==> n in caps && InFilter(glob, patterns, n)
    {
      SwitchedOnIff(glob, patterns, n);
      if n in caps && SwitchedOn(glob, patterns, n) {
        assert caps[n].(enabled := true) in l && caps[n].(enabled := true).name == n;
      }
    }
  }

  lemma EnabledListIsUnique(caps: map<string, Capability>, glob: (string, string) -> Option<bool>,
                            patterns: seq<string>, l: seq<Capability>, l': seq<Capability>)
    requires EnabledList(caps, glob, patterns, l) && EnabledList(caps, glob, patterns, l')
    ensures l == l'
  {
    assert forall c :: c in l ==> c in l';
    assert forall c :: c in l' ==> c in l;
    StrictlySortedUnique(l, l');
  }

  lemma {:induction false} StrictlySortedUnique(l: seq<Capability>, l': seq<Capability>)
    requires StrictlyByName(l) && StrictlyByName(l') && (forall c :: c in l <==> c in l')
    ensures l == l'
  {
    assert l != [] ==> l[0] in l';
    assert l' != [] ==> l'[0] in l;
    if l == [] {
    } else {
      LeqTotal(l[0].name, l'[0].name);
      assert l[0].name == l'[0].name;
      assert l[0] == l'[0];
      forall c
        ensures c in l[1..] <==> c in l'[1..]
      {
        assert c in l <==> c == l[0] || c in l[1..];
        assert c in l' <==> c == l'[0] || c in l'[1..];
      }
      StrictlySortedUnique(l[1..], l'[1..]);
    }
  }

  lemma SortedListIsEnabledList(caps: map<string, Capability>, glob: (string, string) -> Option<bool>,
                                patterns: seq<string>, out: seq<Capability>)
    requires forall n :: n in caps ==> caps[n].name == n
    requires forall i, j :: 0 <= i < j < |out| ==> out[i].name != out[j].name
    requires forall c :: c in out ==>
               c.name in caps && SwitchedOn(glob, patterns, c.name) && c == caps[c.name].(enabled := true)
    requires forall n :: n in caps && SwitchedOn(glob, patterns, n) ==> caps[n].(enabled := true) in out
    ensures EnabledList(caps, glob, patterns, Sort(out, NameLeq))
  {
    LeqIsOrder();
    assert Preorder(NameLeq);
    SortSorts(out, NameLeq);
    assert Distinct(out);
    SortKeepsDistinct(out, NameLeq);
    var l := Sort(out, NameLeq);
    forall i, j | 0 <= i < j < |l|
      ensures l[i].name != l[j].name
    {
      assert l[i] in out && l[j] in out;
    }
  }

  // ---------------------------------------------------------------- registration

  // How many capabilities of p are accepted before one is invalid or already present.
  function Accepted(caps: map<string, Capability>, p: Provider, i: nat): (n: nat)
    requires i <= |p.caps|
    ensures i <= n <= |p.caps|
    decreases |p.caps| - i
  {
    if i == |p.caps| || !ValidName(p.caps[i].name) || p.caps[i].name in caps + CapsUpTo(p, i) then i
    else Accepted(caps, p, i + 1)
  }

  lemma AcceptsNext(caps: map<string, Capability>, p: Provider, i: nat)
    requires i < |p.caps|
    ensures Accepted(caps, p, i) ==
            if ValidName(p.caps[i].name) && p.caps[i].name !in caps + CapsUpTo(p, i) then Accepted(caps, p, i + 1)
            else i
  {
  }

  // Capability i can be taken: valid, not registered, and the first of its name.
  predicate Acceptable(caps: map<string, Capability>, p: Provider, i: int)
    requires 0 <= i < |p.caps|
  {
    && ValidName(p.caps[i].name) && p.caps[i].name !in caps
    && forall j :: 0 <= j < i ==> p.caps[j].name != p.caps[i].name
  }

  // Accepted up to the first that cannot be taken.
  lemma AcceptedIs(caps: map<string, Capability>, p: Provider)
    ensures var n := Accepted(caps, p, 0);
            && (forall i :: 0 <= i < n ==> Acceptable(caps, p, i))
            && (n < |p.caps| ==> !Acceptable(caps, p, n))
  {
    AcceptedFrom(caps, p, 0);
  }

  lemma {:induction false} AcceptedFrom(caps: map<string, Capability>, p: Provider, i: nat)
    requires i <= |p.caps|
    ensures var n := Accepted(caps, p, i);
            && (forall j :: i <= j < n ==> Acceptable(caps, p, j))
            && (n < |p.caps| ==> !Acceptable(caps, p, n))
    decreases |p.caps| - i
  {
    if i == |p.caps| {
    } else {
      OffersUpTo(p, i, p.caps[i].name);
      if Acceptable(caps, p, i) { AcceptedFrom(caps, p, i + 1); }
    }
  }

  lemma {:induction false} EntryNames(p: Provider, m: nat)
    requires m <= |p.caps|
    ensures forall n :: n in CapsUpTo(p, m) ==> CapsUpTo(p, m)[n].name == n
  {
    if m == 0 {
    } else {
      EntryNames(p, m - 1);
    }
  }

  lemma NamesStay(caps: map<string, Capability>, p: Provider, m: nat)
    requires m <= |p.caps| && forall n :: n in caps ==> caps[n].name == n
    ensures var all := caps + CapsUpTo(p, m); forall n :: n in all ==> all[n].name == n
  {
    EntryNames(p, m);
  }

  lemma {:induction false} AcceptedNamesAreNew(caps: map<string, Capability>, p: Provider, i: nat)
    requires i <= |p.caps| && CapsUpTo(p, i).Keys !! caps.Keys
    ensures CapsUpTo(p, Accepted(caps, p, i)).Keys !! caps.Keys
    decreases |p.caps| - i
  {
    if Accepted(caps, p, i) != i {
      assert CapsUpTo(p, i + 1).Keys == CapsUpTo(p, i).Keys + {p.caps[i].name};
      AcceptedNamesAreNew(caps, p, i + 1);
    }
  }

  // While every provider is in, an accepted registration keeps the providers apart and the maps their union.
  lemma RegistrationKeepsUnion(ps: Providers, caps: map<string, Capability>, tasks: map<string, TaskRef>, p: Provider)
    requires ProvidersOk(ps) && Union(ps, ps.Keys, caps, tasks)
    requires WellFormed(p) && p.name !in ps && Accepted(caps, p, 0) == |p.caps|
    ensures ProvidersOk(ps[p.name := p])
    ensures Union(ps[p.name := p], ps.Keys + {p.name}, caps + CapsOf(p), tasks + TasksOf(p))
  {
    AcceptedNamesAreNew(caps, p, 0);
    var ps' := ps[p.name := p];
    forall k, n | k in ps && n in CapsOf(ps[k])
      ensures n !in CapsOf(p)
    {
      OwnerIs(ps, k, n);
      assert Fits(ps, ps.Keys, caps, tasks, n);
    }
    forall j, k
      ensures Apart(ps', j, k)
    {
      assert Apart(ps, j, k);
    }
    forall k
      ensures Listed(ps', k)
    {
      assert Listed(ps, k);
    }
    forall n
      ensures Fits(ps', ps.Keys, caps, tasks, n)
    {
      assert Fits(ps, ps.Keys, caps, tasks, n);
      OwnerIs(ps', p.name, n);
      if Owner(ps, n) in ps { OwnerIs(ps', Owner(ps, n), n); }
      if Owner(ps', n) in ps { OwnerIs(ps, Owner(ps', n), n); }
    }
    AddProvider(ps', ps.Keys, caps, tasks, p.name);
  }

  // Whether a provider's presence differs from whether it is configured.
  ghost predicate Differs(ps: Providers, on: set<string>, want: set<string>, k: string)
    requires k in ps
  {
    (k in on && ps[k].caps != []) != (k in want)
  }

  ghost function Due(ps: Providers, on: set<string>, want: set<string>): set<string> {
    set k | k in ps && Differs(ps, on, want, k)
  }

  // Who is in while the providers in `rest` are still to be looked at.
  ghost function Mixed(on: set<string>, want: set<string>, rest: set<string>): set<string> {
    on * rest + (want - rest)
  }

  lemma Partly(on: set<string>, want: set<string>, rest: set<string>, k: string)
    ensures on <= rest && want <= rest ==> Mixed(on, want, rest) == on
    ensures rest == {} ==> Mixed(on, want, rest) == want
    ensures k in rest ==>
      && (k in Mixed(on, want, rest) <==> k in on)
      && Mixed(on, want, rest - {k})
         == if k in want then Mixed(on, want, rest) + {k} else Mixed(on, want, rest) - {k}
  {
  }

  lemma OneLessDue(due: set<string>, rest: set<string>, k: string)
    requires k in rest
    ensures !(due <= rest - {k}) <==> !(due <= rest) || k in due
  {
  }

  // ---------------------------------------------------------------- the registry object

  class Registry {
    var providers: Providers
    var states: map<string, Settings>
    var capabilities: map<string, Capability>
    var tasks: map<string, TaskRef>
    var enabledPatterns: seq<string>
    var hasCallback: bool
    ghost var emitted: seq<seq<Capability>>  // arguments of the calls of onChanged
    const glob: (string, string) -> Option<bool>

    constructor (glob: (string, string) -> Option<bool>)
      ensures this.glob == glob && providers == map[] && states == map[] && !hasCallback && emitted == []
      ensures Valid({}) && enabledPatterns == []
    {
      this.glob := glob;
      providers, states, capabilities, tasks := map[], map[], map[], map[];
      enabledPatterns, hasCallback, emitted := [], false, [];
    }

    // The providers are well formed and the maps hold what those in `on` offer.
    ghost predicate Valid(on: set<string>)
      reads this
    {
      && ProvidersOk(providers)
      && states.Keys == providers.Keys
      && Union(providers, on, capabilities, tasks)
    }

    ghost function Configured(): set<string>
      reads this
      requires states.Keys == providers.Keys
    {
      set k | k in providers && providers[k].configured(states[k])
    }

    // The maps hold exactly what the configured providers offer.
    ghost predicate Settled()
      reads this
    {
      states.Keys == providers.Keys && Valid(Configured())
    }

    // Some configured provider offers no capability.
    ghost predicate Idle()
      reads this
      requires states.Keys == providers.Keys
    {
      exists k :: k in Configured() && providers[k].caps == []
    }

    // One more call of onChanged, with the list ListEnabled would give now.
    ghost predicate EmittedOnce(before: seq<seq<Capability>>)
      reads this
    {
      && |emitted| == |before| + 1 && emitted[..|before|] == before
      && EnabledList(capabilities, glob, enabledPatterns, emitted[|before|])
    }

    method SetOnCapabilitiesChanged()
      modifies this`hasCallback
      ensures hasCallback
    {
      hasCallback := true;
    }

    method IsEnabledLocked(name: string) returns (b: bool)
      ensures b == SwitchedOn(glob, enabledPatterns, name)
      ensures b <==> InFilter(glob, enabledPatterns, name)
    {
      SwitchedOnIff(glob, enabledPatterns, name);
      if |enabledPatterns| == 0 {
        return true;
      }
      var i := 0;
      while i < |enabledPatterns|
        invariant 0 <= i <= |enabledPatterns|
        invariant forall j :: 0 <= j < i ==> !Admits(glob, enabledPatterns[j], name)
      {
        var pattern := enabledPatterns[i];
        if IsPattern(pattern) {
          if glob(pattern, name) == Some(true) {
            return true;
          }
        } else if pattern == name {
          return true;
        }
        i := i + 1;
      }
      return false;
    }

    method ListEnabled() returns (l: seq<Capability>)
      requires forall n :: n in capabilities ==> capabilities[n].name == n
      ensures EnabledList(capabilities, glob, enabledPatterns, l)
      ensures forall n :: n in NamesOf(l) <==> n in capabilities && InFilter(glob, enabledPatterns, n)
    {
      var out: seq<Capability> := [];
      var rest := capabilities.Keys;
      while rest != {}
        invariant rest <= capabilities.Keys
        invariant forall i, j :: 0 <= i < j < |out| ==> out[i].name != out[j].name
        invariant forall c :: c in out ==>
                    c.name in capabilities && c.name !in rest && SwitchedOn(glob, enabledPatterns, c.name)
                    && c == capabilities[c.name].(enabled := true)
        invariant forall n :: n in capabilities && n !in rest && SwitchedOn(glob, enabledPatterns, n) ==>
                    capabilities[n].(enabled := true) in out
        decreases |rest|
      {
        var name := AnyOf(rest);
        var b := IsEnabledLocked(name);
        if b {
          out := out + [capabilities[name].(enabled := true)];
        }
        rest := rest - {name};
      }
      SortedListIsEnabledList(capabilities, glob, enabledPatterns, out);
      l := Sort(out, NameLeq);
      EnabledNames(capabilities, glob, enabledPatterns, l);
    }

    // onChanged runs outside the lock with the list just built.
    method EmitChangedLocked()
      requires forall n :: n in capabilities ==> capabilities[n].name == n
      modifies this`emitted
      ensures if hasCallback
              then EmittedOnce(old(emitted))
              else emitted == old(emitted)
    {
      if !hasCallback {
        return;
      }
      var l := ListEnabled();
      emitted := emitted + [l];
    }

    // The filter and the provider, before its capabilities.
    method Store(p: Provider, initial: Settings, patterns: Option<seq<string>>)
      modifies this`enabledPatterns, this`providers, this`states
      ensures enabledPatterns == (if patterns.Some? then patterns.value else old(enabledPatterns))
      ensures providers == (if p.name in old(providers) then old(providers) else old(providers)[p.name := p])
      ensures states == (if p.name in old(providers) then old(states) else old(states)[p.name := initial])
    {
      if patterns.Some? {
        enabledPatterns := patterns.value;
      }
      if p.name !in providers {
        providers := providers[p.name := p];
        states := states[p.name := initial];
      }
    }

    method RegisterProvider(p: Provider, initial: Settings, filter: EnabledValue) returns (r: Result<(), string>)
      requires forall n :: n in capabilities ==> capabilities[n].name == n
      modifies this
      ensures hasCallback == old(hasCallback)
      ensures !p.switchedOn || ParseEnabledFilter(filter).Err? ==>
                unchanged(this) && r.Ok? == !p.switchedOn
      ensures p.switchedOn && ParseEnabledFilter(filter).Ok? ==>
                var n := Accepted(old(capabilities), p, 0);
                var parsed := ParseEnabledFilter(filter).value;
                && providers == (if p.name in old(providers) then old(providers) else old(providers)[p.name := p])
                && states == (if p.name in old(providers) then old(states) else old(states)[p.name := initial])
                && enabledPatterns == (if parsed.Some? then parsed.value else old(enabledPatterns))
                && capabilities == old(capabilities) + CapsUpTo(p, n)
                && tasks == old(tasks) + TasksUpTo(p, n)
                && r.Ok? == (n == |p.caps|)
      ensures if r.Ok? && p.switchedOn && hasCallback then EmittedOnce(old(emitted)) else emitted == old(emitted)
    {
      if !p.switchedOn {
        return Ok(());
      }
      var parsed := ParseEnabledFilter(filter);
      if parsed.Err? {
        return Err(parsed.error);
      }
      Store(p, initial, parsed.value);
      r := RegisterCapabilities(p);
      NamesStay(old(capabilities), p, Accepted(old(capabilities), p, 0));
      if r.Ok? {
        EmitChangedLocked();
      }
    }

    // The loop of RegisterProvider: stops at the first invalid or duplicate capability, keeping the earlier ones.
    method RegisterCapabilities(p: Provider) returns (r: Result<(), string>)
      modifies this`capabilities, this`tasks
      ensures var n := Accepted(old(capabilities), p, 0);
              && capabilities == old(capabilities) + CapsUpTo(p, n)
              && tasks == old(tasks) + TasksUpTo(p, n)
              && r.Ok? == (n == |p.caps|)
    {
      var i := 0;
      while i < |p.caps|
        invariant 0 <= i <= |p.caps|
        invariant capabilities == old(capabilities) + CapsUpTo(p, i)
        invariant tasks == old(tasks) + TasksUpTo(p, i)
        invariant Accepted(old(capabilities), p, 0) == Accepted(old(capabilities), p, i)
      {
        var cap := p.caps[i];
        AcceptsNext(old(capabilities), p, i);
        if !ValidName(cap.name) {
          return Err("invalid capability name");
        }
        if cap.name in capabilities {
          return Err("duplicate capability");
        }
        OneMoreCapability(old(capabilities), old(tasks), p, i);
        capabilities := capabilities[cap.name := Owned(cap, p.name)];
        if cap.name in p.tasks {
          tasks := tasks[cap.name := p.tasks[cap.name]];
        }
        i := i + 1;
      }
      return Ok(());
    }

    method FindProviderByCapability(name: string) returns (r: string)
      ensures r != "" ==> MayAnswer(providers, name, r)
      ensures r == "" ==> forall k :: MayAnswer(providers, name, k) ==> k == ""
      ensures name in providers ==> r == name
      ensures name !in providers ==>
                if r == "" then forall k :: k in providers && k != "" ==> !Text.HasPrefix(name, k + ".")
                else r in providers && Text.HasPrefix(name, r + ".")
    {
      if name in providers {
        return name;
      }
      var rest := providers.Keys;
      while rest != {}
        invariant rest <= providers.Keys
        invariant forall k :: k in providers && k !in rest ==> !MayAnswer(providers, name, k)
        decreases |rest|
      {
        var k := AnyOf(rest);
        if k != "" && Text.HasPrefix(name, k + ".") {
          return k;
        }
        rest := rest - {k};
      }
      return "";
    }

    method HasAnyCapabilityLocked(provider: string) returns (b: bool)
      ensures b <==> exists n :: n in capabilities && capabilities[n].provider == provider
    {
      var rest := capabilities.Keys;
      while rest != {}
        invariant rest <= capabilities.Keys
        invariant forall n :: n in capabilities && n !in rest ==> capabilities[n].provider != provider
        decreases |rest|
      {
        var n := AnyOf(rest);
        if capabilities[n].provider == provider {
          return true;
        }
        rest := rest - {n};
      }
      return false;
    }

    // The provider a manifest is handed to, "" if none: the owner of a known capability, else by prefix.
    method Route(name: string) returns (target: string)
      ensures Reached(providers, capabilities, name, target)
      ensures name in capabilities ==>
                target == if capabilities[name].provider in providers then capabilities[name].provider else ""
      ensures name !in capabilities && name in providers ==> target == name
      ensures name !in capabilities && name !in providers ==>
                if target == "" then forall k :: k in providers && k != "" ==> !Text.HasPrefix(name, k + ".")
                else target in providers && Text.HasPrefix(name, target + ".")
    {
      target := "";
      if name in capabilities {
        var owner := capabilities[name].provider;
        if owner != "" && owner in providers {
          target := owner;
        }
      } else {
        target := FindProviderByCapability(name);
      }
    }

    method UpdateProvider(m: Manifest) returns (ghost target: string)
      requires states.Keys == providers.Keys
      modifies this`states
      ensures states.Keys == providers.Keys && Reached(providers, capabilities, m.name, target)
      ensures forall k :: k in providers ==> states[k] == UpdatedBy1(providers, k, old(states)[k], m, target)
      ensures if target in providers && target != "" && m.config.Some?
              then states == old(states)[target :=
                                           providers[target].update(old(states)[target], m.name, m.config.value)]
              else states == old(states)
    {
      var found := Route(m.name);
      if found != "" && m.config.Some? {
        states := states[found := providers[found].update(states[found], m.name, m.config.value)];
      }
      target := found;
    }

    // The loop over the manifests, in order.
    method UpdateProviders(ms: seq<Manifest>) returns (ghost targets: seq<string>)
      requires states.Keys == providers.Keys
      modifies this`states
      ensures states.Keys == providers.Keys && AllReached(providers, capabilities, ms, targets)
      ensures forall k :: k in providers ==> states[k] == UpdatedBy(providers, k, old(states)[k], ms, targets)
      ensures NamesApart(providers) ==>
                forall k :: k in providers ==> states[k] == Updated(providers, capabilities, k, old(states)[k], ms)
    {
      targets := [];
      var i := 0;
      while i < |ms|
        invariant 0 <= i <= |ms|
        invariant states.Keys == providers.Keys && AllReached(providers, capabilities, ms[..i], targets)
        invariant forall k :: k in providers ==>
          states[k] == UpdatedBy(providers, k, old(states)[k], ms[..i], targets)
      {
        ghost var target := UpdateProvider(ms[i]);
        OneMoreReached(providers, capabilities, ms, targets, target);
        forall k | k in providers
          ensures states[k] == UpdatedBy(providers, k, old(states)[k], ms[..i + 1], targets + [target])
        {
          OneMoreUpdate(providers, k, old(states)[k], ms, targets, target);
        }
        targets := targets + [target];
        i := i + 1;
      }
      assert ms[..|ms|] == ms;
      AllDetermined(providers, capabilities, old(states), states, ms, targets);
    }

    method AddCapabilities(p: Provider)
      modifies this`capabilities, this`tasks
      ensures capabilities == old(capabilities) + CapsOf(p)
      ensures tasks == old(tasks) + TasksOf(p)
    {
      var i := 0;
      while i < |p.caps|
        invariant 0 <= i <= |p.caps|
        invariant capabilities == old(capabilities) + CapsUpTo(p, i)
        invariant tasks == old(tasks) + TasksUpTo(p, i)
      {
        var cap := p.caps[i];
        OneMoreCapability(old(capabilities), old(tasks), p, i);
        capabilities := capabilities[cap.name := Owned(cap, p.name)];
        if cap.name in p.tasks {
          tasks := tasks[cap.name := p.tasks[cap.name]];
        }
        i := i + 1;
      }
    }

    method RemoveCapabilities(p: Provider)
      modifies this`capabilities, this`tasks
      ensures capabilities == old(capabilities) - CapsOf(p).Keys
      ensures tasks == old(tasks) - CapsOf(p).Keys
    {
      var i := 0;
      while i < |p.caps|
        invariant 0 <= i <= |p.caps|
        invariant capabilities == old(capabilities) - CapsUpTo(p, i).Keys
        invariant tasks == old(tasks) - CapsUpTo(p, i).Keys
      {
        var name := p.caps[i].name;
        TasksUpToStep(p, i);
        DropEntry(old(capabilities), CapsUpTo(p, i).Keys, name);
        DropEntry(old(tasks), CapsUpTo(p, i).Keys, name);
        capabilities := capabilities - {name};
        tasks := tasks - {name};
        i := i + 1;
      }
    }

    // One provider's turn in the second loop of ApplyOnlineConfig.
    method ReconcileProvider(k: string, ghost on: set<string>) returns (changed: bool)
      requires Valid(on) && k in providers
      modifies this`capabilities, this`tasks
      ensures Valid(if providers[k].configured(states[k]) then on + {k} else on - {k})
      ensures changed <==> Differs(providers, on, Configured(), k)
    {
      var p := providers[k];
      assert Listed(providers, k);
      HasAnyMeansOn(providers, on, capabilities, tasks, k);
      var wasConfigured := HasAnyCapabilityLocked(p.name);
      var isConfigured := p.configured(states[k]);
      changed := wasConfigured != isConfigured;
      if changed {
        if isConfigured {
          AddProvider(providers, on, capabilities, tasks, k);
          AddCapabilities(p);
        } else {
          RemoveProvider(providers, on, capabilities, tasks, k);
          RemoveCapabilities(p);
        }
      } else if isConfigured {
        assert on + {k} == on;
      } else if k !in on {
        assert on - {k} == on;
      } else {
        assert p.caps == [] && CapsOf(p) == map[];
        assert capabilities - CapsOf(p).Keys == capabilities && tasks - CapsOf(p).Keys == tasks;
        RemoveProvider(providers, on, capabilities, tasks, k);
      }
    }

    // The turn of whichever provider comes next.
    method NextTurn(rest: set<string>, ghost on: set<string>, ghost want: set<string>)
      returns (k: string, changed: bool)
      requires rest != {} && rest <= providers.Keys && Valid(Mixed(on, want, rest)) && want == Configured()
      modifies this`capabilities, this`tasks
      ensures k in rest && Valid(Mixed(on, want, rest - {k}))
      ensures changed <==> k in Due(providers, on, want)
    {
      k := AnyOf(rest);
      Partly(on, want, rest, k);
      changed := ReconcileProvider(k, Mixed(on, want, rest));
    }

    // The second loop of ApplyOnlineConfig, in any order of the providers.
    method Reconcile(ghost on: set<string>) returns (changed: bool)
      requires Valid(on)
      modifies this`capabilities, this`tasks
      ensures Settled()
      ensures changed <==> exists k :: k in providers && Differs(providers, on, Configured(), k)
    {
      changed := false;
      var rest := providers.Keys;
      ghost var want := Configured();
      Partly(on, want, providers.Keys, "");
      while rest != {}
        invariant rest <= providers.Keys
        invariant Valid(Mixed(on, want, rest))
        invariant changed <==> !(Due(providers, on, want) <= rest)
        decreases |rest|
      {
        var k, c := NextTurn(rest, on, want);
        OneLessDue(Due(providers, on, want), rest, k);
        changed := changed || c;
        rest := rest - {k};
      }
      Partly(on, want, {}, "");
      assert forall k :: k in Due(providers, on, want) <==> k in providers && Differs(providers, on, want, k);
    }

    // After the call the maps are the union of what the configured providers offer, whatever the order of
    // iteration, and the callback has been called once if the capability map changed or a configured provider
    // offers nothing.
    method ApplyOnlineConfig(ms: seq<Manifest>, ghost on: set<string>) returns (ghost targets: seq<string>)
      requires Valid(on)
      modifies this`states, this`capabilities, this`tasks, this`emitted
      ensures Settled() && AllReached(providers, old(capabilities), ms, targets)
      ensures forall k :: k in providers ==> states[k] == UpdatedBy(providers, k, old(states)[k], ms, targets)
      ensures NamesApart(providers) ==>
                forall k :: k in providers ==> states[k] == Updated(providers, old(capabilities), k, old(states)[k], ms)
      ensures if hasCallback && (capabilities != old(capabilities) || Idle())
              then EmittedOnce(old(emitted))
              else emitted == old(emitted)
    {
      targets := UpdateProviders(ms);
      var changed := Reconcile(on);
      NamesMatch(Configured());
      FiresIffChangedOrEmptyProvider(providers, on, Configured(), old(capabilities), old(tasks), capabilities, tasks);
      if changed {
        EmitChangedLocked();
      }
    }

    lemma NamesMatch(on: set<string>)
      requires Valid(on)
      ensures forall n :: n in capabilities ==> capabilities[n].name == n
    {
      forall n | n in capabilities
        ensures capabilities[n].name == n
      {
        EntryIsMarked(providers, on, capabilities, tasks, n);
      }
    }
  }

  // What the callback condition amounts to: the capability map is about to change, or some configured
  // provider offers nothing at all (then the callback fires on every update).
  lemma FiresIffChangedOrEmptyProvider(ps: Providers, on: set<string>, want: set<string>,
                                       caps: map<string, Capability>, tasks: map<string, TaskRef>,
                                       caps': map<string, Capability>, tasks': map<string, TaskRef>)
    requires ProvidersOk(ps) && want <= ps.Keys
    requires Union(ps, on, caps, tasks) && Union(ps, want, caps', tasks')
    ensures (exists k :: k in ps && Differs(ps, on, want, k))
       <==> caps != caps' || exists k :: k in want && ps[k].caps == []
  {
    forall k | k in ps && ps[k].caps != []
      ensures (k in on <==> ps[k].caps[0].name in caps) && (k in want <==> ps[k].caps[0].name in caps')
    {
      FirstCapability(ps, on, caps, tasks, k);
      FirstCapability(ps, want, caps', tasks', k);
    }
    if forall k :: k in ps ==> !Differs(ps, on, want, k) {
      forall n
        ensures n in caps <==> n in caps'
        ensures n in caps && n in caps' ==> caps[n] == caps'[n]
      {
        assert Fits(ps, on, caps, tasks, n) && Fits(ps, want, caps', tasks', n);
      }
      SameMap(caps, caps');
    }
  }

  // Registering one more provider while all of them are in.
  method RegisterNext(reg: Registry, p: Provider, initial: Settings, filter: EnabledValue) returns (ok: bool)
    requires reg.Valid(reg.providers.Keys) && WellFormed(p) && p.switchedOn && p.name !in reg.providers
    modifies reg
    ensures ok ==> reg.Valid(reg.providers.Keys) && reg.providers.Keys == old(reg.providers.Keys) + {p.name}
    ensures reg.hasCallback == old(reg.hasCallback)
    ensures !reg.hasCallback ==> reg.emitted == old(reg.emitted)
  {
    ghost var before, caps, tasks := reg.providers, reg.capabilities, reg.tasks;
    reg.NamesMatch(reg.providers.Keys);
    var r := reg.RegisterProvider(p, initial, filter);
    ok := r.Ok? && ParseEnabledFilter(filter).Ok?;
    if ok {
      RegistrationKeepsUnion(before, caps, tasks, p);
      assert reg.providers.Keys == before.Keys + {p.name};
    }
  }

  function Names(ps: seq<Provider>, n: nat): set<string>
    requires n <= |ps|
  {
    if n == 0 then {} else Names(ps, n - 1) + {ps[n - 1].name}
  }

  // Providers that can be registered one after the other.
  ghost predicate Registrable(ps: seq<Provider>) {
    && (forall i :: 0 <= i < |ps| ==> WellFormed(ps[i]) && ps[i].switchedOn)
    && (forall i, j :: 0 <= i < j < |ps| ==> ps[i].name != ps[j].name)
  }

  lemma {:induction false} NextIsNew(ps: seq<Provider>, n: nat, i: nat)
    requires n <= i < |ps| && Registrable(ps)
    ensures ps[i].name !in Names(ps, n)
  {
    if n == 0 {
    } else {
      NextIsNew(ps, n - 1, i);
    }
  }

  method RegisterAll(reg: Registry, ps: seq<Provider>, initial: seq<Settings>, filter: EnabledValue) returns (ok: bool)
    requires |initial| == |ps| && reg.Valid({}) && reg.providers == map[]
    requires Registrable(ps)
    modifies reg
    ensures ok ==> reg.Valid(reg.providers.Keys) && reg.providers.Keys == Names(ps, |ps|)
    ensures reg.hasCallback == old(reg.hasCallback)
    ensures !reg.hasCallback ==> reg.emitted == old(reg.emitted)
  {
    ok := true;
    assert reg.providers.Keys == {};
    var i := 0;
    while i < |ps|
      invariant 0 <= i <= |ps|
      invariant reg.Valid(reg.providers.Keys)
      invariant reg.providers.Keys == Names(ps, i)
      invariant reg.hasCallback == old(reg.hasCallback)
      invariant !reg.hasCallback ==> reg.emitted == old(reg.emitted)
    {
      NextIsNew(ps, i, i);
      ok := RegisterNext(reg, ps[i], initial[i], filter);
      if !ok {
        return;
      }
      i := i + 1;
    }
  }

  // One update: the capability map before and after, whether a configured provider offers nothing, and the
  // argument of the callback if it was called.
  datatype Turn = Turn(before: map<string, Capability>, after: map<string, Capability>, idle: bool,
                       called: Option<seq<Capability>>)

  // The callback is called iff the map changed or a configured provider offers nothing, with the enabled list.
  ghost predicate Answered(glob: (string, string) -> Option<bool>, patterns: seq<string>, t: Turn) {
    && (t.called.Some? <==> t.before != t.after || t.idle)
    && (t.called.Some? ==> EnabledList(t.after, glob, patterns, t.called.value))
  }

  function Calls(history: seq<Turn>): seq<seq<Capability>> {
    if history == [] then []
    else
      var t := history[|history| - 1];
      Calls(history[..|history| - 1]) + if t.called.Some? then [t.called.value] else []
  }

  // A history from map `first` to map `last`: each turn starts from what the last one left and is answered.
  ghost predicate Chained(glob: (string, string) -> Option<bool>, patterns: seq<string>, history: seq<Turn>,
                          first: map<string, Capability>, last: map<string, Capability>)
  {
    && (if history == [] then first == last else history[0].before == first && history[|history| - 1].after == last)
    && (forall u :: 0 <= u < |history| - 1 ==> history[u].after == history[u + 1].before)
    && forall u :: 0 <= u < |history| ==> Answered(glob, patterns, history[u])
  }

  lemma OneMoreTurn(glob: (string, string) -> Option<bool>, patterns: seq<string>, history: seq<Turn>,
                    first: map<string, Capability>, t: Turn)
    requires Chained(glob, patterns, history, first, t.before) && Answered(glob, patterns, t)
    ensures Chained(glob, patterns, history + [t], first, t.after)
  {
  }

  lemma OneMoreCall(before: seq<seq<Capability>>, history: seq<Turn>, t: Turn)
    ensures before + Calls(history + [t]) ==
            before + Calls(history) + if t.called.Some? then [t.called.value] else []
  {
    assert (history + [t])[..|history|] == history;
  }

  // One update, once the callback is set.
  method TakeTurn(reg: Registry, ms: seq<Manifest>, ghost on: set<string>) returns (ghost t: Turn)
    requires reg.Valid(on) && reg.hasCallback
    modifies reg`states, reg`capabilities, reg`tasks, reg`emitted
    ensures reg.Settled()
    ensures t.before == old(reg.capabilities) && t.after == reg.capabilities && t.idle == reg.Idle()
    ensures Answered(reg.glob, reg.enabledPatterns, t)
    ensures reg.emitted == old(reg.emitted) + if t.called.Some? then [t.called.value] else []
  {
    ghost var before, calls := reg.capabilities, reg.emitted;
    ghost var targets := reg.ApplyOnlineConfig(ms, on);
    ghost var called := if |reg.emitted| > |calls| then Some(reg.emitted[|calls|]) else None;
    t := Turn(before, reg.capabilities, reg.Idle(), called);
    assert reg.emitted == calls + if called.Some? then [called.value] else [];
  }

  // Any number of updates.
  method TakeTurns(reg: Registry, updates: seq<seq<Manifest>>, ghost first: set<string>)
    returns (ghost history: seq<Turn>)
    requires reg.Valid(first) && reg.hasCallback
    modifies reg`states, reg`capabilities, reg`tasks, reg`emitted
    ensures if updates == [] then reg.Valid(first) else reg.Settled()
    ensures |history| == |updates|
    ensures Chained(reg.glob, reg.enabledPatterns, history, old(reg.capabilities), reg.capabilities)
    ensures reg.emitted == old(reg.emitted) + Calls(history)
    decreases |updates|
  {
    history := [];
    if |updates| > 0 {
      var n := |updates| - 1;
      history := TakeTurns(reg, updates[..n], first);
      ghost var t: Turn;
      if n == 0 {
        t := TakeTurn(reg, updates[n], first);
      } else {
        t := TakeTurn(reg, updates[n], reg.Configured());
      }
      OneMoreTurn(reg.glob, reg.enabledPatterns, history, old(reg.capabilities), t);
      OneMoreCall(old(reg.emitted), history, t);
      history := history + [t];
    }
  }

  // The whole life of a registry: providers registered one by one, then any number of updates. Before the
  // first update every provider is in, configured or not; after any update exactly the configured ones. The
  // calls of the callback are those of the updates that change the map or find an idle provider.
  method Lifetime(reg: Registry, ps: seq<Provider>, initial: seq<Settings>, filter: EnabledValue,
                  updates: seq<seq<Manifest>>)
    returns (ok: bool, ghost registered: map<string, Capability>, ghost history: seq<Turn>)
    requires |initial| == |ps| && reg.Valid({}) && reg.providers == map[] && !reg.hasCallback
    requires Registrable(ps)
    modifies reg
    ensures ok ==> reg.providers.Keys == Names(ps, |ps|)
    ensures ok ==> if updates == [] then reg.Valid(reg.providers.Keys) else reg.Settled()
    ensures ok ==> exists tasks :: Union(reg.providers, reg.providers.Keys, registered, tasks)
    ensures ok ==> |history| == |updates|
    ensures ok ==> Chained(reg.glob, reg.enabledPatterns, history, registered, reg.capabilities)
    ensures ok ==> reg.emitted == old(reg.emitted) + Calls(history)
  {
    ok := RegisterAll(reg, ps, initial, filter);
    registered, history := reg.capabilities, [];
    if !ok {
      return;
    }
    reg.SetOnCapabilitiesChanged();
    history := TakeTurns(reg, updates, reg.providers.Keys);
  }
}
