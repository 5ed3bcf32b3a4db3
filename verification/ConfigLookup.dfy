/**
 Reading runtime configuration (internal/provider/autoconfig/extract.go) and the Graylog provider's use of it
 (internal/provider/log/provider.go): a configuration may arrive nested or flattened to dotted keys.

 A nil map reads as an empty one. Float arithmetic and time.ParseDuration are supplied from outside.
 */
module ConfigLookup {
  import opened Int64
  import opened Text
  import opened Wrappers

  // ---------------------------------------------------------------- values

  // What an `any` of a configuration may hold; Int stands for every integer type.
  datatype Value =
    | Nil
    | Bool(b: bool)
    | Str(s: string)
    | Int(i: int)
    | Float(f: real)
    | NotFinite
    | Duration(ns: int)
    | Strings(ss: seq<string>)
    | List(vs: seq<Value>)
    | Obj(fields: map<string, Value>)

  type Config = map<string, Value>

  function Walk(v: Value, parts: seq<string>): Option<Value>
    decreases |parts|
  {
    if parts == [] then Some(v)
    else if v.Obj? && parts[0] in v.fields then Walk(v.fields[parts[0]], parts[1..])
    else None
  }

  // A key present as such wins over the path it spells.
  function Find(raw: Config, key: string): Option<Value> {
    if key in raw then Some(raw[key])
    else
      var parts := Split(key, '.');
      if |parts| == 1 then None else Walk(Obj(raw), parts)
  }

  method Lookup(raw: Config, key: string) returns (v: Option<Value>)
    ensures v == Find(raw, key)
  {
    if key in raw {
      return Some(raw[key]);
    }
    var parts := Split(key, '.');
    if |parts| == 1 {
      return None;
    }
    var cur := Obj(raw);
    var i := 0;
    while i < |parts|
      invariant 0 <= i <= |parts|
      invariant Walk(Obj(raw), parts) == Walk(cur, parts[i..])
    {
      assert parts[i..][1..] == parts[i + 1..];
      if !cur.Obj? || parts[i] !in cur.fields {
        return None;
      }
      cur := cur.fields[parts[i]];
      i := i + 1;
    }
    return Some(cur);
  }

  predicate HasSection(raw: Config, prefix: string) {
    exists k :: k in raw && (k == prefix || HasPrefix(k, prefix + "."))
  }

  method HasSectionPrefix(raw: Config, prefix: string) returns (b: bool)
    ensures b <==> HasSection(raw, prefix)
  {
    var rest := raw.Keys;
    while rest != {}
      invariant rest <= raw.Keys
      invariant forall k :: k in raw && k !in rest ==> k != prefix && !HasPrefix(k, prefix + ".")
      decreases |rest|
    {
      var k := AnyOf(rest);
      if k == prefix || HasPrefix(k, prefix + ".") {
        return true;
      }
      rest := rest - {k};
    }
    return false;
  }

  // ---------------------------------------------------------------- typed readers

  // Conversions of floats and duration strings, which are not part of this model.
  datatype Host = Host(parseDuration: string -> Option<int>, intOf: real -> Option<int>, nanosOf: real -> Option<int>)

  function AsString(v: Value): Option<string> {
    if v.Str? then Some(v.s) else None
  }

  function AsInt64(v: Value, host: Host): Option<int> {
    match v
    case Int(i) => if i > MAX_INT64 then None else Some(i)
    case Float(f) => host.intOf(f)
    case _ => None
  }

  const SECOND := 1_000_000_000

  function AsDuration(v: Value, host: Host): Option<int> {
    match v
    case Duration(ns) => Some(ns)
    case Str(s) => host.parseDuration(s)
    case Float(f) => host.nanosOf(f)
    case NotFinite => None
    case _ =>
      match AsInt64(v, host)
      case None => None
      case Some(seconds) => if seconds < 0 || seconds > MAX_INT64 / SECOND then None else Some(seconds * SECOND)
  }

  function AsStrings(v: Value): Option<seq<string>> {
    match v
    case Strings(ss) => Some(ss)
    case List(vs) =>
      if forall i :: 0 <= i < |vs| ==> vs[i].Str? then
        Some(seq(|vs|, i requires 0 <= i < |vs| && vs[i].Str? => vs[i].s))
      else None
    case _ => None
  }

  // The values are these strings, in this order.
  predicate AreStrings(vs: seq<Value>, ss: seq<string>) {
    |vs| == |ss| && forall i :: 0 <= i < |vs| ==> vs[i] == Str(ss[i])
  }

  lemma AsStringsAre(v: Value, ss: seq<string>)
    ensures AsStrings(v) == Some(ss) <==> v == Strings(ss) || (v.List? && AreStrings(v.vs, ss))
  {
    if v.List? && AreStrings(v.vs, ss) { assert AsStrings(v).value == ss; }
  }

  method AsStringSlice(v: Value) returns (out: Option<seq<string>>)
    ensures out == AsStrings(v)
    ensures forall ss :: out == Some(ss) <==> v == Strings(ss) || (v.List? && AreStrings(v.vs, ss))
  {
    forall ss
      ensures AsStrings(v) == Some(ss) <==> v == Strings(ss) || (v.List? && AreStrings(v.vs, ss))
    {
      AsStringsAre(v, ss);
    }
    match v {
      case Strings(ss) => return Some(ss);
      case List(vs) =>
        var found: seq<string> := [];
        var i := 0;
        while i < |vs|
          invariant 0 <= i <= |vs| && |found| == i
          invariant forall j :: 0 <= j < i ==> vs[j].Str? && found[j] == vs[j].s
        {
          if !vs[i].Str? {
            return None;
          }
          found := found + [vs[i].s];
          i := i + 1;
        }
        assert found == seq(|vs|, j requires 0 <= j < |vs| && vs[j].Str? => vs[j].s);
        return Some(found);
      case _ => return None;
    }
  }

  function StringAt(raw: Config, key: string): Option<string> {
    match Find(raw, key) case None => None case Some(v) => AsString(v)
  }

  function BoolAt(raw: Config, key: string): Option<bool> {
    match Find(raw, key) case None => None case Some(v) => if v.Bool? then Some(v.b) else None
  }

  function IntAt(raw: Config, key: string, host: Host): Option<int> {
    match Find(raw, key) case None => None case Some(v) => AsInt64(v, host)
  }

  function DurationAt(raw: Config, key: string, host: Host): Option<int> {
    match Find(raw, key) case None => None case Some(v) => AsDuration(v, host)
  }

  function StringsAt(raw: Config, key: string): Option<seq<string>> {
    match Find(raw, key) case None => None case Some(v) => AsStrings(v)
  }

  // ---------------------------------------------------------------- nested and flattened

  // Nested: no key contains a dot.
  predicate Nested(m: Config) {
    forall k :: k in m ==> '.' !in k && DotFree(m[k])
  }

  predicate DotFree(v: Value) {
    v.Obj? ==> forall k :: k in v.fields ==> '.' !in k && DotFree(v.fields[k])
  }

  // v is a leaf of m, and key is the path to it with dots in between.
  ghost predicate Leaf(m: Config, key: string, v: Value)
    decreases |key|
  {
    || (key in m && m[key] == v && !v.Obj?)
    || exists k, q :: k in m && m[k].Obj? && key == k + "." + q && Leaf(m[k].fields, q, v)
  }

  ghost predicate Flattening(m: Config, flat: Config) {
    forall key, v :: Leaf(m, key, v) <==> key in flat && flat[key] == v
  }

  // A key with a dot is its first part, the dot and a rest.
  lemma FirstPart(key: string) returns (k: string, q: string)
    requires '.' in key
    ensures '.' !in k && key == k + "." + q && Split(key, '.') == [k] + Split(q, '.')
  {
    var i := FirstIndex(key, '.');
    k, q := key[..i], key[i + 1..];
    assert key == k + "." + q;
    SplitFirst(k, '.', q);
  }

  // In a nested map the leaves are what the dotted path walks to.
  lemma {:induction false} LeafIffWalk(m: Config, key: string, v: Value)
    requires Nested(m)
    ensures Leaf(m, key, v) <==> !v.Obj? && Walk(Obj(m), Split(key, '.')) == Some(v)
    decreases |key|
  {
    if '.' !in key {
      SplitWhole(key, '.');
      assert [key][1..] == [];
    } else {
      var k, q := FirstPart(key);
      var parts := Split(key, '.');
      assert parts[0] == k && parts[1..] == Split(q, '.');
      if k in m && m[k].Obj? {
        LeafIffWalk(m[k].fields, q, v);
      }
      if Leaf(m, key, v) {
        var k2, q2 :| k2 in m && m[k2].Obj? && key == k2 + "." + q2 && Leaf(m[k2].fields, q2, v);
        SplitFirst(k2, '.', q2);
        FirstPartUnique(k, q, k2, q2);
      }
    }
  }

  lemma FirstPartUnique(k: string, q: string, k2: string, q2: string)
    requires '.' !in k && '.' !in k2 && k + "." + q == k2 + "." + q2
    ensures k == k2 && q == q2
  {
    var s := k + "." + q;
    assert s[|k|] == '.' && s[..|k|] == k;
    assert s[|k2|] == '.' && s[..|k2|] == k2 by { assert s == k2 + "." + q2; }
    FirstIndexIs(s, '.', |k|);
    FirstIndexIs(s, '.', |k2|);
    assert s[|k| + 1..] == q && s[|k2| + 1..] == q2 by { assert s == k2 + "." + q2; }
  }

  lemma FindIsWalk(m: Config, key: string)
    requires Nested(m)
    ensures Find(m, key) == Walk(Obj(m), Split(key, '.'))
  {
    if '.' !in key {
      SplitWhole(key, '.');
      assert [key][1..] == [];
    } else {
      var k, q := FirstPart(key);
      assert key !in m;
    }
  }

  // A lookup gives the same on the nested map and on its flattening, for every key, except that the
  // flattening does not have the sections themselves.
  lemma LookupAgreesIff(m: Config, flat: Config, key: string)
    requires Nested(m) && Flattening(m, flat)
    ensures Find(flat, key) == (if Find(m, key).Some? && Find(m, key).value.Obj? then None else Find(m, key))
    ensures Find(flat, key) == Find(m, key) <==> !(Find(m, key).Some? && Find(m, key).value.Obj?)
  {
    FindIsWalk(m, key);
    var found := Find(m, key);
    if key in flat {
      LeafIffWalk(m, key, flat[key]);
    } else {
      if found.Some? && !found.value.Obj? {
        LeafIffWalk(m, key, found.value);
      }
      NoPathInFlat(m, flat, key);
    }
  }

  // No path leads through a flattening: its values are leaves.
  lemma NoPathInFlat(m: Config, flat: Config, key: string)
    requires Flattening(m, flat) && key !in flat
    ensures Find(flat, key) == None
  {
    var parts := Split(key, '.');
    if |parts| > 1 && parts[0] in flat {
      assert Walk(Obj(flat), parts) == Walk(flat[parts[0]], parts[1..]);
      assert Leaf(m, parts[0], flat[parts[0]]);
      LeafIsNoSection(m, parts[0], flat[parts[0]]);
    }
  }

  lemma {:induction false} LeafIsNoSection(m: Config, key: string, v: Value)
    requires Leaf(m, key, v)
    ensures !v.Obj?
    decreases |key|
  {
    if !(key in m && m[key] == v && !v.Obj?) {
      var k, q :| k in m && m[k].Obj? && key == k + "." + q && Leaf(m[k].fields, q, v);
      LeafIsNoSection(m[k].fields, q, v);
    }
  }

  // Every typed reader gives the same for every key.
  lemma ReadersAgree(m: Config, flat: Config, key: string, host: Host)
    requires Nested(m) && Flattening(m, flat)
    ensures StringAt(flat, key) == StringAt(m, key)
    ensures BoolAt(flat, key) == BoolAt(m, key)
    ensures IntAt(flat, key, host) == IntAt(m, key, host)
    ensures DurationAt(flat, key, host) == DurationAt(m, key, host)
    ensures StringsAt(flat, key) == StringsAt(m, key)
  {
    LookupAgreesIff(m, flat, key);
  }

  // ---------------------------------------------------------------- every nested map has a flattening

  ghost function LeafKeys(v: Value): set<string>
    requires v.Obj?
    decreases v
  {
    (set k | k in v.fields && !v.fields[k].Obj?)
    + (set k, q | k in v.fields && v.fields[k].Obj? && q in LeafKeys(v.fields[k]) :: k + "." + q)
  }

  ghost function Flatten(m: Config): Config {
    map key | key in LeafKeys(Obj(m)) && Walk(Obj(m), Split(key, '.')).Some? :: Walk(Obj(m), Split(key, '.')).value
  }

  lemma {:induction false} KeyHasLeaf(m: Config, key: string) returns (v: Value)
    requires key in LeafKeys(Obj(m))
    ensures Leaf(m, key, v)
    decreases |key|
  {
    if key in m && !m[key].Obj? {
      v := m[key];
    } else {
      var k, q :| k in m && m[k].Obj? && q in LeafKeys(m[k]) && key == k + "." + q;
      v := KeyHasLeaf(m[k].fields, q);
    }
  }

  lemma {:induction false} LeafHasKey(m: Config, key: string, v: Value)
    requires Leaf(m, key, v)
    ensures key in LeafKeys(Obj(m))
    decreases |key|
  {
    if !(key in m && m[key] == v && !v.Obj?) {
      var k, q :| k in m && m[k].Obj? && key == k + "." + q && Leaf(m[k].fields, q, v);
      LeafHasKey(m[k].fields, q, v);
      KeyBelow(m, k, q);
    }
  }

  lemma KeyBelow(m: Config, k: string, q: string)
    requires k in m && m[k].Obj? && q in LeafKeys(m[k])
    ensures k + "." + q in LeafKeys(Obj(m))
  {
    assert k in Obj(m).fields && Obj(m).fields[k] == m[k];
  }

  lemma FlattenIsFlattening(m: Config)
    requires Nested(m)
    ensures Flattening(m, Flatten(m))
  {
    forall key, v
      ensures Leaf(m, key, v) <==> key in Flatten(m) && Flatten(m)[key] == v
    {
      LeafIffWalk(m, key, v);
      if Leaf(m, key, v) { LeafHasKey(m, key, v); }
      if key in LeafKeys(Obj(m)) {
        var w := KeyHasLeaf(m, key);
        LeafIffWalk(m, key, w);
      }
    }
  }

  // ---------------------------------------------------------------- sections

  // The section test agrees unless the section is there without a single leaf.
  lemma SectionAgreesIff(m: Config, flat: Config, prefix: string)
    requires Nested(m) && Flattening(m, flat) && '.' !in prefix
    ensures HasSection(m, prefix) <==> prefix in m
    ensures HasSection(flat, prefix) == HasSection(m, prefix)
            <==> !(prefix in m && m[prefix].Obj? && forall q, v :: !Leaf(m[prefix].fields, q, v))
  {
    forall k | HasPrefix(k, prefix + ".")
      ensures '.' in k
    {
      PrefixHasDot(k, prefix);
    }
    FlatSection(m, flat, prefix);
  }

  lemma PrefixHasDot(k: string, prefix: string)
    requires HasPrefix(k, prefix + ".")
    ensures '.' in k
  {
    assert k[|prefix|] == k[..|prefix + "."|][|prefix|] == '.';
  }

  lemma DotInside(k: string, q: string)
    ensures '.' in k + "." + q
  {
    assert (k + "." + q)[|k|] == '.';
  }

  lemma FlatSection(m: Config, flat: Config, prefix: string)
    requires Nested(m) && Flattening(m, flat) && '.' !in prefix
    ensures HasSection(flat, prefix) <==>
            prefix in m && (m[prefix].Obj? ==> exists q, v :: Leaf(m[prefix].fields, q, v))
  {
    if prefix in m && !m[prefix].Obj? {
      assert Leaf(m, prefix, m[prefix]);
    } else if prefix in m && exists q, v :: Leaf(m[prefix].fields, q, v) {
      var q, v :| Leaf(m[prefix].fields, q, v);
      assert Leaf(m, prefix + "." + q, v);
      assert HasPrefix(prefix + "." + q, prefix + ".");
    }
    if HasSection(flat, prefix) {
      var key :| key in flat && (key == prefix || HasPrefix(key, prefix + "."));
      assert Leaf(m, key, flat[key]);
      LeafInSection(m, key, flat[key], prefix);
    }
  }

  lemma LeafInSection(m: Config, key: string, v: Value, prefix: string)
    requires Nested(m) && Leaf(m, key, v) && '.' !in prefix && (key == prefix || HasPrefix(key, prefix + "."))
    ensures prefix in m && (m[prefix].Obj? ==> exists q, w :: Leaf(m[prefix].fields, q, w))
  {
    if key in m && m[key] == v && !v.Obj? {
      if key != prefix { PrefixHasDot(key, prefix); }
    } else {
      var k, q :| k in m && m[k].Obj? && key == k + "." + q && Leaf(m[k].fields, q, v);
      if key == prefix {
        DotInside(k, q);
      } else {
        var rest := key[|prefix| + 1..];
        assert key[..|prefix + "."|] == prefix + ".";
        assert key == prefix + "." + rest;
        FirstPartUnique(k, q, prefix, rest);
      }
    }
  }

  // Without the section there is nothing to read below it.
  lemma NoSectionNothingBelow(raw: Config, prefix: string, name: string)
    requires '.' !in prefix && !HasSection(raw, prefix)
    ensures Find(raw, Dotted(prefix, name)) == None
  {
    var key := prefix + "." + name;
    assert HasPrefix(key, prefix + ".");
    SplitFirst(prefix, '.', name);
  }

  // ---------------------------------------------------------------- the Graylog provider

  datatype Auth = Auth(kind: string, token: string, username: string, password: string)

  datatype Guardrails = Guardrails(maxQueryRange: int, maxResults: int, maxHistogramBuckets: int, queryTimeout: int)

  datatype Graylog = Graylog(url: string, timeout: int, auth: Auth, guardrails: Guardrails)

  function Dotted(section: string, name: string): string {
    section + "." + name
  }

  function Or<T>(found: Option<T>, base: T): T {
    if found.Some? then found.value else base
  }

  function ParseAuth(base: Auth, cfg: Config): Auth {
    Auth(Or(StringAt(cfg, Dotted("auth", "type")), base.kind), Or(StringAt(cfg, Dotted("auth", "token")), base.token),
         Or(StringAt(cfg, Dotted("auth", "username")), base.username),
         Or(StringAt(cfg, Dotted("auth", "password")), base.password))
  }

  function ParseGuardrails(base: Guardrails, cfg: Config, host: Host): Guardrails {
    Guardrails(Or(DurationAt(cfg, Dotted("guardrails", "max_query_range"), host), base.maxQueryRange),
               Or(IntAt(cfg, Dotted("guardrails", "max_results"), host), base.maxResults),
               Or(IntAt(cfg, Dotted("guardrails", "max_histogram_buckets"), host), base.maxHistogramBuckets),
               Or(DurationAt(cfg, Dotted("guardrails", "query_timeout"), host), base.queryTimeout))
  }

  function ParseGraylog(base: Graylog, cfg: Config, host: Host): Graylog {
    Graylog(Or(StringAt(cfg, "url"), base.url), Or(DurationAt(cfg, "timeout", host), base.timeout),
            if HasSection(cfg, "auth") then ParseAuth(base.auth, cfg) else base.auth,
            if HasSection(cfg, "guardrails") then ParseGuardrails(base.guardrails, cfg, host) else base.guardrails)
  }

  lemma AuthOfNoSection(base: Auth, cfg: Config)
    requires !HasSection(cfg, "auth")
    ensures ParseAuth(base, cfg) == base
  {
    NoSectionNothingBelow(cfg, "auth", "type");
    NoSectionNothingBelow(cfg, "auth", "token");
    NoSectionNothingBelow(cfg, "auth", "username");
    NoSectionNothingBelow(cfg, "auth", "password");
  }

  lemma GuardrailsOfNoSection(base: Guardrails, cfg: Config, host: Host)
    requires !HasSection(cfg, "guardrails")
    ensures ParseGuardrails(base, cfg, host) == base
  {
    NoSectionNothingBelow(cfg, "guardrails", "max_query_range");
    NoSectionNothingBelow(cfg, "guardrails", "max_results");
    NoSectionNothingBelow(cfg, "guardrails", "max_histogram_buckets");
    NoSectionNothingBelow(cfg, "guardrails", "query_timeout");
  }

  // The section tests never change the outcome.
  lemma SectionTestsAreRedundant(base: Graylog, cfg: Config, host: Host)
    ensures ParseGraylog(base, cfg, host).auth == ParseAuth(base.auth, cfg)
    ensures ParseGraylog(base, cfg, host).guardrails == ParseGuardrails(base.guardrails, cfg, host)
  {
    if !HasSection(cfg, "auth") { AuthOfNoSection(base.auth, cfg); }
    if !HasSection(cfg, "guardrails") { GuardrailsOfNoSection(base.guardrails, cfg, host); }
  }

  // A configuration parses to the same whether it arrives nested or flattened, even with empty sections.
  lemma SameFromEitherForm(base: Graylog, m: Config, flat: Config, host: Host)
    requires Nested(m) && Flattening(m, flat)
    ensures ParseGraylog(base, flat, host) == ParseGraylog(base, m, host)
  {
    SectionTestsAreRedundant(base, m, host);
    SectionTestsAreRedundant(base, flat, host);
    ReadersAgree(m, flat, "url", host);
    ReadersAgree(m, flat, "timeout", host);
    SameAuth(base.auth, m, flat, host);
    SameGuardrails(base.guardrails, m, flat, host);
  }

  lemma SameAuth(base: Auth, m: Config, flat: Config, host: Host)
    requires Nested(m) && Flattening(m, flat)
    ensures ParseAuth(base, flat) == ParseAuth(base, m)
  {
    ReadersAgree(m, flat, Dotted("auth", "type"), host);
    ReadersAgree(m, flat, Dotted("auth", "token"), host);
    ReadersAgree(m, flat, Dotted("auth", "username"), host);
    ReadersAgree(m, flat, Dotted("auth", "password"), host);
  }

  lemma SameGuardrails(base: Guardrails, m: Config, flat: Config, host: Host)
    requires Nested(m) && Flattening(m, flat)
    ensures ParseGuardrails(base, flat, host) == ParseGuardrails(base, m, host)
  {
    ReadersAgree(m, flat, Dotted("guardrails", "max_query_range"), host);
    ReadersAgree(m, flat, Dotted("guardrails", "max_results"), host);
    ReadersAgree(m, flat, Dotted("guardrails", "max_histogram_buckets"), host);
    ReadersAgree(m, flat, Dotted("guardrails", "query_timeout"), host);
  }

  // In an update of one dotted key, that key and no other is found.
  lemma FindOnlyKey(section: string, name: string, v: Value, section2: string, name2: string)
    requires '.' !in section && '.' !in section2
    ensures Find(map[Dotted(section, name) := v], Dotted(section2, name2)) ==
            if section == section2 && name == name2 then Some(v) else None
  {
    DotInside(section, name);
    SplitFirst(section2, '.', name2);
    if Dotted(section, name) == Dotted(section2, name2) {
      FirstPartUnique(section, name, section2, name2);
    }
  }

  lemma FindNoPlainKey(section: string, name: string, v: Value, key: string)
    requires '.' !in key
    ensures Find(map[Dotted(section, name) := v], key) == None
  {
    DotInside(section, name);
    SplitWhole(key, '.');
  }

  // An update of one key of a section sets the field of that name and leaves every other field as it was.
  lemma OneAuthKeySetsOneField(base: Graylog, name: string, v: string, host: Host)
    ensures ParseGraylog(base, map[Dotted("auth", name) := Str(v)], host) ==
            base.(auth := Auth(if name == "type" then v else base.auth.kind,
                               if name == "token" then v else base.auth.token,
                               if name == "username" then v else base.auth.username,
                               if name == "password" then v else base.auth.password))
  {
    var cfg := map[Dotted("auth", name) := Str(v)];
    SectionTestsAreRedundant(base, cfg, host);
    FindNoPlainKey("auth", name, Str(v), "url");
    FindNoPlainKey("auth", name, Str(v), "timeout");
    FindOnlyKey("auth", name, Str(v), "auth", "type");
    FindOnlyKey("auth", name, Str(v), "auth", "token");
    FindOnlyKey("auth", name, Str(v), "auth", "username");
    FindOnlyKey("auth", name, Str(v), "auth", "password");
    NoGuardrails("auth", name, Str(v), base.guardrails, host);
  }

  lemma NoGuardrails(section: string, name: string, v: Value, base: Guardrails, host: Host)
    requires '.' !in section && section != "guardrails"
    ensures ParseGuardrails(base, map[Dotted(section, name) := v], host) == base
  {
    FindOnlyKey(section, name, v, "guardrails", "max_query_range");
    FindOnlyKey(section, name, v, "guardrails", "max_results");
    FindOnlyKey(section, name, v, "guardrails", "max_histogram_buckets");
    FindOnlyKey(section, name, v, "guardrails", "query_timeout");
  }

  // A number of seconds is read as a duration exactly when it is not negative and fits one.
  lemma SecondsAreRead(i: int, host: Host)
    ensures AsDuration(Int(i), host) == if 0 <= i && i * SECOND <= MAX_INT64 then Some(i * SECOND) else None
    ensures AsInt64(Int(i), host) == if i <= MAX_INT64 then Some(i) else None
    ensures AsDuration(Duration(i), host) == Some(i)
  {
  }

  lemma FindOnlyPlainKey(name: string, v: Value, key: string)
    requires '.' !in name && '.' !in key
    ensures Find(map[name := v], key) == if key == name then Some(v) else None
  {
    SplitWhole(key, '.');
  }

  // Text, a truth value and lists of text are read from nothing but what holds them.
  lemma ReadOnlyTheirKind(name: string, v: Value, s: string, b: bool, ss: seq<string>)
    requires '.' !in name
    ensures StringAt(map[name := v], name) == Some(s) <==> v == Str(s)
    ensures BoolAt(map[name := v], name) == Some(b) <==> v == Bool(b)
    ensures StringsAt(map[name := v], name) == Some(ss) <==> v == Strings(ss) || (v.List? && AreStrings(v.vs, ss))
  {
    FindOnlyPlainKey(name, v, name);
    AsStringsAre(v, ss);
  }

  lemma NumberRead(section: string, name: string, n: int, section2: string, name2: string, host: Host)
    requires '.' !in section && '.' !in section2 && 0 <= n && n * SECOND <= MAX_INT64
    ensures var cfg, found := map[Dotted(section, name) := Int(n)], section == section2 && name == name2;
            && IntAt(cfg, Dotted(section2, name2), host) == (if found then Some(n) else None)
            && DurationAt(cfg, Dotted(section2, name2), host) == (if found then Some(n * SECOND) else None)
            && StringAt(cfg, Dotted(section2, name2)) == None
  {
    FindOnlyKey(section, name, Int(n), section2, name2);
    SecondsAreRead(n, host);
  }

  lemma NumberGuardrails(base: Guardrails, name: string, n: int, host: Host)
    requires 0 <= n && n * SECOND <= MAX_INT64
    ensures ParseGuardrails(base, map[Dotted("guardrails", name) := Int(n)], host) ==
            Guardrails(if name == "max_query_range" then n * SECOND else base.maxQueryRange,
                       if name == "max_results" then n else base.maxResults,
                       if name == "max_histogram_buckets" then n else base.maxHistogramBuckets,
                       if name == "query_timeout" then n * SECOND else base.queryTimeout)
  {
    NumberRead("guardrails", name, n, "guardrails", "max_query_range", host);
    NumberRead("guardrails", name, n, "guardrails", "max_results", host);
    NumberRead("guardrails", name, n, "guardrails", "max_histogram_buckets", host);
    NumberRead("guardrails", name, n, "guardrails", "query_timeout", host);
  }

  lemma NumberNoAuth(base: Auth, name: string, n: int, host: Host)
    requires 0 <= n && n * SECOND <= MAX_INT64
    ensures ParseAuth(base, map[Dotted("guardrails", name) := Int(n)]) == base
  {
    NumberRead("guardrails", name, n, "auth", "type", host);
    NumberRead("guardrails", name, n, "auth", "token", host);
    NumberRead("guardrails", name, n, "auth", "username", host);
    NumberRead("guardrails", name, n, "auth", "password", host);
  }

  // The same of the guardrails, given as a number: durations are in seconds.
  lemma OneGuardrailSetsOneField(base: Graylog, name: string, n: int, host: Host)
    requires 0 <= n && n * SECOND <= MAX_INT64
    ensures ParseGraylog(base, map[Dotted("guardrails", name) := Int(n)], host) ==
            base.(guardrails := Guardrails(
                    if name == "max_query_range" then n * SECOND else base.guardrails.maxQueryRange,
                    if name == "max_results" then n else base.guardrails.maxResults,
                    if name == "max_histogram_buckets" then n else base.guardrails.maxHistogramBuckets,
                    if name == "query_timeout" then n * SECOND else base.guardrails.queryTimeout))
  {
    SectionTestsAreRedundant(base, map[Dotted("guardrails", name) := Int(n)], host);
    FindNoPlainKey("guardrails", name, Int(n), "url");
    FindNoPlainKey("guardrails", name, Int(n), "timeout");
    NumberGuardrails(base.guardrails, name, n, host);
    NumberNoAuth(base.auth, name, n, host);
  }

  // And of the keys outside the sections.
  lemma PlainKeysSetTheirField(base: Graylog, url: string, ns: int, host: Host)
    ensures ParseGraylog(base, map["url" := Str(url)], host) == base.(url := url)
    ensures ParseGraylog(base, map["timeout" := Duration(ns)], host) == base.(timeout := ns)
  {
    PlainKeyOnly(base, "url", Str(url), host);
    PlainKeyOnly(base, "timeout", Duration(ns), host);
  }

  lemma PlainKeyOnly(base: Graylog, name: string, v: Value, host: Host)
    requires name == "url" || name == "timeout"
    ensures var parsed := ParseGraylog(base, map[name := v], host);
            && parsed.auth == base.auth && parsed.guardrails == base.guardrails
            && parsed.url == (if name == "url" && v.Str? then v.s else base.url)
            && parsed.timeout == (if name == "timeout" then Or(AsDuration(v, host), base.timeout) else base.timeout)
  {
    var cfg := map[name := v];
    FindOnlyPlainKey(name, v, "url");
    FindOnlyPlainKey(name, v, "timeout");
    NoSectionIn(name, v, "auth");
    NoSectionIn(name, v, "guardrails");
  }

  lemma NoSectionIn(name: string, v: Value, section: string)
    requires '.' !in name && name != section
    ensures !HasSection(map[name := v], section)
  {
    if HasPrefix(name, section + ".") { PrefixHasDot(name, section); }
  }

  // Parsing the same update again changes nothing.
  lemma ParseTwiceIsOnce(base: Graylog, cfg: Config, host: Host)
    ensures ParseGraylog(ParseGraylog(base, cfg, host), cfg, host) == ParseGraylog(base, cfg, host)
  {
  }
}
