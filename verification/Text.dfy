/** Strings as the Go library treats them where the modules need it: order, splitting, prefixes. */
module Text {
  import opened Sorting

  // strings.Compare: byte order, which for UTF-8 is the order of code points.
  predicate Leq(a: string, b: string) {
    a == "" || (b != "" && (a[0] < b[0] || (a[0] == b[0] && Leq(a[1..], b[1..]))))
  }

  lemma {:induction false} LeqTotal(a: string, b: string)
    ensures Leq(a, b) || Leq(b, a)
    ensures Leq(a, b) && Leq(b, a) ==> a == b
  {
    if a != "" && b != "" {
      LeqTotal(a[1..], b[1..]);
      assert a == [a[0]] + a[1..] && b == [b[0]] + b[1..];
    }
  }

  lemma {:induction false} LeqTransitive(a: string, b: string, c: string)
    requires Leq(a, b) && Leq(b, c)
    ensures Leq(a, c)
  {
    if a != "" && b != "" && c != "" && a[0] == b[0] == c[0] {
      LeqTransitive(a[1..], b[1..], c[1..]);
    }
  }

  // The characters at i decide: those before are the same.
  predicate SmallerAt(a: string, b: string, i: nat) {
    i < |a| && i < |b| && a[..i] == b[..i] && a[i] < b[i]
  }

  // That order: a is the beginning of b, or the first character that differs is the smaller one.
  lemma {:induction false} LeqIs(a: string, b: string)
    ensures Leq(a, b) <==> a <= b || exists i: nat :: SmallerAt(a, b, i)
  {
    if a == "" || b == "" {
    } else if a[0] == b[0] {
      LeqIs(a[1..], b[1..]);
      assert a <= b <==> a[1..] <= b[1..];
      if i: nat :| SmallerAt(a[1..], b[1..], i) {
        assert a[..i + 1] == [a[0]] + a[1..][..i] && b[..i + 1] == [b[0]] + b[1..][..i];
        assert SmallerAt(a, b, i + 1);
      }
      if i: nat :| SmallerAt(a, b, i) {
        assert a[1..][..i - 1] == a[..i][1..] && b[1..][..i - 1] == b[..i][1..];
        assert SmallerAt(a[1..], b[1..], i - 1);
      }
    } else {
      assert a[0] < b[0] ==> SmallerAt(a, b, 0);
      if i: nat :| SmallerAt(a, b, i) {
        assert i > 0 ==> a[..i][0] == b[..i][0];
      }
    }
  }

  lemma LeqIsOrder()
    ensures Preorder(Leq) && Antisymmetric(Leq)
  {
    forall a, b
      ensures Leq(a, b) || Leq(b, a)
      ensures Leq(a, b) && Leq(b, a) ==> a == b
    {
      LeqTotal(a, b);
    }
    forall a, b, c | Leq(a, b) && Leq(b, c)
      ensures Leq(a, c)
    {
      LeqTransitive(a, b, c);
    }
  }

  // strings.IndexByte
  function FirstIndex(s: string, c: char): (i: int)
    ensures -1 <= i < |s|
    ensures i >= 0 ==> s[i] == c && c !in s[..i]
    ensures i < 0 ==> c !in s
  {
    if s == "" then -1
    else if s[0] == c then 0
    else
      var i := FirstIndex(s[1..], c);
      assert i >= 0 ==> s[..i + 1] == [s[0]] + s[1..][..i];
      assert s == [s[0]] + s[1..];
      if i < 0 then -1 else i + 1
  }

  lemma {:induction false} FirstIndexIs(s: string, c: char, i: nat)
    requires i < |s| && s[i] == c && c !in s[..i]
    ensures FirstIndex(s, c) == i
  {
    if i == 0 {
    } else {
      assert s[0] == s[..i][0];
      assert s[1..][..i - 1] == s[..i][1..];
      FirstIndexIs(s[1..], c, i - 1);
    }
  }

  // strings.Split with a one-character separator: never empty.
  function Split(s: string, sep: char): (parts: seq<string>)
    ensures |parts| > 0
  {
    if s == "" then [""]
    else if s[0] == sep then [""] + Split(s[1..], sep)
    else
      var rest := Split(s[1..], sep);
      [[s[0]] + rest[0]] + rest[1..]
  }

  lemma {:induction false} SplitWhole(k: string, sep: char)
    requires sep !in k
    ensures Split(k, sep) == [k]
  {
    if k == "" {
    } else {
      SplitWhole(k[1..], sep);
      assert [k[0]] + k[1..] == k;
    }
  }

  // Splitting takes off what stands before the first separator.
  lemma {:induction false} SplitFirst(k: string, sep: char, q: string)
    requires sep !in k
    ensures Split(k + [sep] + q, sep) == [k] + Split(q, sep)
  {
    var s := k + [sep] + q;
    if k == "" {
      assert s[1..] == q;
    } else {
      assert s[1..] == k[1..] + [sep] + q;
      SplitFirst(k[1..], sep, q);
      assert [k[0]] + k[1..] == k;
    }
  }

  function Join(parts: seq<string>, sep: string): string {
    if parts == [] then ""
    else if |parts| == 1 then parts[0]
    else parts[0] + sep + Join(parts[1..], sep)
  }

  lemma {:induction false} JoinAppend(parts: seq<string>, sep: string, last: string)
    ensures Join(parts + [last], sep) == if parts == [] then last else Join(parts, sep) + sep + last
  {
    if parts == [] {
    } else {
      assert (parts + [last])[1..] == parts[1..] + [last];
      JoinAppend(parts[1..], sep, last);
    }
  }

  predicate HasPrefix(s: string, prefix: string) {
    |prefix| <= |s| && s[..|prefix|] == prefix
  }

  lemma HasPrefixIs(s: string, prefix: string)
    ensures HasPrefix(s, prefix) <==> exists rest :: s == prefix + rest
  {
    if HasPrefix(s, prefix) { assert s == prefix + s[|prefix|..]; }
  }

  // unicode.IsSpace
  predicate IsSpace(c: char) {
    var u := c as int;
    || 9 <= u <= 13 || u == 0x20 || u == 0x85 || u == 0xA0 || u == 0x1680 || 0x2000 <= u <= 0x200A
    || u == 0x2028 || u == 0x2029 || u == 0x202F || u == 0x205F || u == 0x3000
  }

  function TrimLeft(s: string): string {
    if s != "" && IsSpace(s[0]) then TrimLeft(s[1..]) else s
  }

  function TrimRight(s: string): string {
    if s != "" && IsSpace(s[|s| - 1]) then TrimRight(s[..|s| - 1]) else s
  }

  // strings.TrimSpace
  function TrimSpace(s: string): string {
    TrimRight(TrimLeft(s))
  }

  // Length of the word a text starts with.
  function WordRun(s: string): (n: nat)
    ensures n <= |s| && (n < |s| ==> IsSpace(s[n])) && forall i :: 0 <= i < n ==> !IsSpace(s[i])
    ensures s != "" && !IsSpace(s[0]) ==> n > 0
  {
    if s == "" || IsSpace(s[0]) then 0
    else
      var n := WordRun(s[1..]);
      assert forall i :: 0 < i < n + 1 ==> s[i] == s[1..][i - 1];
      n + 1
  }

  // strings.Fields: the words between white space.
  function Fields(s: string): seq<string>
    decreases |s|
  {
    if s == "" then []
    else if IsSpace(s[0]) then Fields(s[1..])
    else [s[..WordRun(s)]] + Fields(s[WordRun(s)..])
  }

  lemma {:induction false} WordsNotEmpty(s: string)
    ensures forall i :: 0 <= i < |Fields(s)| ==> Fields(s)[i] != ""
    decreases |s|
  {
    if s == "" {
    } else {
      WordsNotEmpty(if IsSpace(s[0]) then s[1..] else s[WordRun(s)..]);
    }
  }

  lemma {:induction false} WordRunIs(s: string, n: nat)
    requires n <= |s| && (n < |s| ==> IsSpace(s[n])) && forall i :: 0 <= i < n ==> !IsSpace(s[i])
    ensures WordRun(s) == n
  {
    if n == 0 {
    } else {
      assert forall i :: 0 <= i < n - 1 ==> s[1..][i] == s[i + 1];
      assert n < |s| ==> s[1..][n - 1] == s[n];
      WordRunIs(s[1..], n - 1);
    }
  }

  lemma FieldsStart(s: string, n: nat)
    requires 0 < n <= |s| && (n < |s| ==> IsSpace(s[n])) && forall i :: 0 <= i < n ==> !IsSpace(s[i])
    ensures Fields(s) == [s[..n]] + Fields(s[n..])
  {
    WordRunIs(s, n);
  }

  // White space separates words.
  lemma {:induction false} FieldsAround(a: string, space: char, b: string)
    requires IsSpace(space)
    ensures Fields(a + [space] + b) == Fields(a) + Fields(b)
    decreases |a|
  {
    if a == "" {
      assert (a + [space] + b)[1..] == b;
    } else if IsSpace(a[0]) {
      SpaceAround(a, space, b);
      FieldsAround(a[1..], space, b);
    } else {
      var n := WordRun(a);
      FieldsAround(a[n..], space, b);
      WordAround(a, space, b, n);
    }
  }

  lemma WordAround(a: string, space: char, b: string, n: nat)
    requires IsSpace(space)
    requires 0 < n <= |a| && (n < |a| ==> IsSpace(a[n])) && forall i :: 0 <= i < n ==> !IsSpace(a[i])
    requires Fields(a[n..] + [space] + b) == Fields(a[n..]) + Fields(b)
    ensures Fields(a + [space] + b) == Fields(a) + Fields(b)
  {
    FieldsStart(a, n);
    StartAround(a, space, b, n);
    Concat3([a[..n]], Fields(a[n..]), Fields(b));
  }

  lemma Concat3<T>(a: seq<T>, b: seq<T>, c: seq<T>)
    ensures a + (b + c) == a + b + c
  {
  }

  lemma SpaceAround(a: string, space: char, b: string)
    requires a != "" && IsSpace(a[0])
    ensures Fields(a + [space] + b) == Fields(a[1..] + [space] + b)
  {
    var s := a + [space] + b;
    assert s[0] == a[0] && s[1..] == a[1..] + [space] + b;
  }

  lemma StartAround(a: string, space: char, b: string, n: nat)
    requires IsSpace(space)
    requires 0 < n <= |a| && (n < |a| ==> IsSpace(a[n])) && forall i :: 0 <= i < n ==> !IsSpace(a[i])
    ensures Fields(a + [space] + b) == [a[..n]] + Fields(a[n..] + [space] + b)
  {
    var s := a + [space] + b;
    assert forall i :: 0 <= i < |a| ==> s[i] == a[i];
    FieldsStart(s, n);
    assert s[..n] == a[..n] && s[n..] == a[n..] + [space] + b;
  }
}
