/**
 The continuation rule in the doc comment of parseUnitFile (internal/provider/linux/systemd_helpers.go), and where
 the code keeps to it: lines ending in a backslash are to be joined with the next.
 */
module UnitContinuation {
  import opened Text
  import opened UnitFile
  import opened Wrappers

  // ---------------------------------------------------------------- lines with their text

  datatype Line = Line(kind: LineKind, text: string)

  function LineOf(raw: string): Line {
    Line(KindOf(raw), TrimSpace(raw))
  }

  function FileLines(content: string): (ls: seq<Line>) {
    var raws := Split(content, '\n');
    seq(|raws|, i requires 0 <= i < |raws| => LineOf(raws[i]))
  }

  function KindsIn(ls: seq<Line>): (kinds: seq<LineKind>)
    ensures |kinds| == |ls|
  {
    seq(|ls|, i requires 0 <= i < |ls| => ls[i].kind)
  }

  lemma FileLinesAre(content: string)
    ensures KindsIn(FileLines(content)) == LinesOf(content)
    ensures WholeLines(FileLines(content))
  {
    var raws := Split(content, '\n');
    forall i | 0 <= i < |raws|
      ensures KindOf(raws[i]).Other? ==> KindOf(raws[i]).text == TrimSpace(raws[i])
    {
      OtherIsWholeLine(raws[i]);
    }
  }

  lemma OtherIsWholeLine(raw: string)
    ensures KindOf(raw).Other? ==> KindOf(raw).text == TrimSpace(raw)
  {
  }

  predicate Whole(line: Line) {
    line.kind.Other? ==> line.kind.text == line.text
  }

  predicate WholeLines(ls: seq<Line>) {
    forall i :: 0 <= i < |ls| ==> Whole(ls[i])
  }

  // ---------------------------------------------------------------- the documented reading

  // goesOn is the key of the value that the next line continues, if there is one.
  datatype Documented = Documented(found: Fragments, section: string, goesOn: Option<string>)

  const BLANK := Documented(map[], "", None)

  predicate Slashed(text: string) {
    text != "" && text[|text| - 1] == '\\'
  }

  function AfterLine(text: string, key: string): Option<string> {
    if Slashed(text) then Some(key) else None
  }

  function Append(found: Fragments, section: string, key: string, text: string): Fragments {
    if section in found && key in found[section] then
      found[section := found[section][key := found[section][key] + [text]]]
    else found
  }

  // Blank lines and comments are skipped. While a value goes on, any other line belongs to it; after that, headers
  // and assignments act as in the code and other lines mean nothing.
  function ReadDocumented(d: Documented, line: Line): Documented {
    if line.kind.Skip? then d
    else
      match d.goesOn
      case Some(key) => Documented(Append(d.found, d.section, key, line.text), d.section, AfterLine(line.text, key))
      case None =>
        var r := Read(Reading(d.found, d.section, ""), line.kind);
        Documented(r.found, r.section,
                   if line.kind.Assign? && d.section != "" then AfterLine(line.text, line.kind.key) else None)
  }

  function ReadAllDocumented(ls: seq<Line>): Documented {
    if ls == [] then BLANK else ReadDocumented(ReadAllDocumented(ls[..|ls| - 1]), ls[|ls| - 1])
  }

  function DocumentedFragments(content: string): Fragments {
    ReadAllDocumented(FileLines(content)).found
  }

  // ---------------------------------------------------------------- one line

  // The two readings have found the same.
  predicate SameFound(r: Reading, d: Documented) {
    r.found == d.found && r.section == d.section
  }

  // And if a value goes on by the rule, the code has its key pending.
  predicate InStep(r: Reading, d: Documented) {
    && Sound(r) && SameFound(r, d)
    && (d.goesOn.Some? ==>
          && d.goesOn.value == r.pending && d.section != ""
          && d.section in d.found && r.pending in d.found[d.section])
  }

  // With a key pending the line is one to join exactly when the value goes on; without one, no value goes on.
  predicate Follows(r: Reading, d: Documented, line: LineKind) {
    || line.Skip?
    || if r.pending != "" then line.Other? <==> d.goesOn.Some? else d.goesOn.None?
  }

  // On one line the code keeps to its documented rule exactly when the line follows.
  lemma StepFollowsIff(r: Reading, d: Documented, line: Line)
    requires InStep(r, d) && Whole(line)
    ensures SameFound(Read(r, line.kind), ReadDocumented(d, line)) <==> Follows(r, d, line.kind)
    ensures Follows(r, d, line.kind) ==> InStep(Read(r, line.kind), ReadDocumented(d, line))
  {
    var r', d' := Read(r, line.kind), ReadDocumented(d, line);
    if line.kind.Skip? {
    } else if d.goesOn.Some? {
      assert d'.found[d.section][r.pending] == r.found[r.section][r.pending] + [line.text];
    } else if line.kind.Other? && r.pending != "" {
      assert r'.found[d.section][r.pending] == d.found[d.section][r.pending] + [line.text];
    }
  }

  // ---------------------------------------------------------------- the same, said of the lines

  // The last header or assignment before line n, or -1.
  function Governing(ls: seq<Line>, n: nat): (g: int)
    requires n <= |ls|
    ensures -1 <= g < n
  {
    if n == 0 then -1
    else if ls[n - 1].kind.Header? || ls[n - 1].kind.Assign? then n - 1
    else Governing(ls, n - 1)
  }

  // The last line before line n that is not skipped, or -1.
  function LastLine(ls: seq<Line>, n: nat): (p: int)
    requires n <= |ls|
    ensures -1 <= p < n
  {
    if n == 0 then -1
    else if !ls[n - 1].kind.Skip? then n - 1
    else LastLine(ls, n - 1)
  }

  // Line i gives a key of some section a value.
  predicate Gives(ls: seq<Line>, i: int) {
    0 <= i < |ls| && ls[i].kind.Assign? && SectionAt(KindsIn(ls), i) != ""
  }

  // A line to join would go to a key that has a name.
  predicate KeyPends(ls: seq<Line>, n: nat)
    requires n <= |ls|
  {
    var g := Governing(ls, n);
    Gives(ls, g) && ls[g].kind.key != ""
  }

  predicate EndsInSlash(ls: seq<Line>, n: nat)
    requires n <= |ls|
  {
    var p := LastLine(ls, n);
    p >= 0 && Slashed(ls[p].text)
  }

  // The last line gives a value to the key without a name, to which the code joins nothing.
  predicate NamelessBefore(ls: seq<Line>, n: nat)
    requires n <= |ls|
  {
    var p := LastLine(ls, n);
    Gives(ls, p) && ls[p].kind.key == ""
  }

  // With a key pending, the line is none of header and assignment exactly when the line before it, skipped ones
  // aside, ends in a backslash.
  predicate LineFollows(ls: seq<Line>, n: nat)
    requires n < |ls|
  {
    || ls[n].kind.Skip?
    || if KeyPends(ls, n) then ls[n].kind.Other? <==> EndsInSlash(ls, n)
       else !(NamelessBefore(ls, n) && EndsInSlash(ls, n))
  }

  predicate AllFollow(ls: seq<Line>, n: nat)
    requires n <= |ls|
  {
    forall m :: 0 <= m < n ==> LineFollows(ls, m)
  }

  function CodeAt(ls: seq<Line>, n: nat): Reading
    requires n <= |ls|
  {
    ReadAll(KindsIn(ls)[..n])
  }

  function RuleAt(ls: seq<Line>, n: nat): Documented
    requires n <= |ls|
  {
    ReadAllDocumented(ls[..n])
  }

  lemma ReadOneMore(ls: seq<Line>, n: nat)
    requires n < |ls|
    ensures CodeAt(ls, n + 1) == Read(CodeAt(ls, n), ls[n].kind)
    ensures RuleAt(ls, n + 1) == ReadDocumented(RuleAt(ls, n), ls[n])
  {
    assert ls[..n + 1][..n] == ls[..n];
    assert KindsIn(ls)[..n + 1][..n] == KindsIn(ls)[..n];
  }

  // What the lines say of the two states.
  predicate Tracks(ls: seq<Line>, n: nat, r: Reading, d: Documented)
    requires n <= |ls|
  {
    && r.section == SectionAt(KindsIn(ls), n)
    && (r.pending != "" <==> KeyPends(ls, n))
    && (d.goesOn.Some? <==> EndsInSlash(ls, n) && (KeyPends(ls, n) || NamelessBefore(ls, n)))
  }

  lemma TracksStep(ls: seq<Line>, n: nat, r: Reading, d: Documented)
    requires n < |ls| && InStep(r, d) && Tracks(ls, n, r, d) && Follows(r, d, ls[n].kind)
    ensures Tracks(ls, n + 1, Read(r, ls[n].kind), ReadDocumented(d, ls[n]))
  {
  }

  lemma TracksFollows(ls: seq<Line>, n: nat, r: Reading, d: Documented)
    requires n < |ls| && Tracks(ls, n, r, d)
    ensures Follows(r, d, ls[n].kind) <==> LineFollows(ls, n)
  {
  }

  predicate SameUpTo(ls: seq<Line>, n: nat)
    requires n <= |ls|
  {
    SameFound(CodeAt(ls, n), RuleAt(ls, n))
  }

  lemma {:induction false} InStepWhileFollowing(ls: seq<Line>, n: nat)
    requires n <= |ls| && WholeLines(ls) && AllFollow(ls, n)
    ensures InStep(CodeAt(ls, n), RuleAt(ls, n)) && Tracks(ls, n, CodeAt(ls, n), RuleAt(ls, n))
  {
    if n == 0 {
      NothingAtFirst(ls);
    } else {
      var r, d := CodeAt(ls, n - 1), RuleAt(ls, n - 1);
      InStepWhileFollowing(ls, n - 1);
      assert LineFollows(ls, n - 1);
      TracksFollows(ls, n - 1, r, d);
      ReadOneMore(ls, n - 1);
      StepFollowsIff(r, d, ls[n - 1]);
      TracksStep(ls, n - 1, r, d);
    }
  }

  // The first line that does not follow sets the two readings apart.
  lemma ApartAfterFirst(ls: seq<Line>, n: nat)
    requires n < |ls| && WholeLines(ls) && AllFollow(ls, n) && !LineFollows(ls, n)
    ensures InStep(CodeAt(ls, n), RuleAt(ls, n)) && !Follows(CodeAt(ls, n), RuleAt(ls, n), ls[n].kind)
    ensures !SameUpTo(ls, n + 1)
  {
    InStepWhileFollowing(ls, n);
    TracksFollows(ls, n, CodeAt(ls, n), RuleAt(ls, n));
    ReadOneMore(ls, n);
    StepFollowsIff(CodeAt(ls, n), RuleAt(ls, n), ls[n]);
  }

  lemma AgreeIffAllFollow(ls: seq<Line>)
    requires WholeLines(ls)
    ensures (forall n :: 0 <= n <= |ls| ==> SameUpTo(ls, n)) <==> AllFollow(ls, |ls|)
  {
    if AllFollow(ls, |ls|) {
      forall n | 0 <= n <= |ls|
        ensures SameUpTo(ls, n)
      {
        InStepWhileFollowing(ls, n);
      }
    } else {
      var n := FirstNotFollowing(ls, |ls|);
      ApartAfterFirst(ls, n);
    }
  }

  // Over a file: code and rule agree after every line exactly when every line follows.
  lemma DocumentedIffEveryLineFollows(content: string)
    ensures var ls := FileLines(content);
            (forall n :: 0 <= n <= |ls| ==> SameUpTo(ls, n)) <==> AllFollow(ls, |ls|)
  {
    FileLinesAre(content);
    AgreeIffAllFollow(FileLines(content));
  }

  lemma {:induction false} FirstNotFollowing(ls: seq<Line>, n: nat) returns (first: nat)
    requires n <= |ls| && !AllFollow(ls, n)
    ensures first < n && AllFollow(ls, first) && !LineFollows(ls, first)
  {
    if AllFollow(ls, n - 1) {
      first := n - 1;
    } else {
      first := FirstNotFollowing(ls, n - 1);
    }
  }

  // So a file whose lines all follow has the values the rule gives.
  lemma DocumentedWhenFollowing(content: string)
    requires AllFollow(FileLines(content), |FileLines(content)|)
    ensures FragmentsOf(content) == DocumentedFragments(content)
  {
    var ls := FileLines(content);
    FileLinesAre(content);
    InStepWhileFollowing(ls, |ls|);
    assert ls[..|ls|] == ls && KindsIn(ls)[..|ls|] == KindsIn(ls);
  }

  // ---------------------------------------------------------------- the values in the end

  // Number of fragments of a key of a section.
  function Size(found: Fragments, section: string, key: string): nat {
    if section in found && key in found[section] then |found[section][key]| else 0
  }

  // No line from n on gives the key a value, in whatever section.
  predicate NotAgain(ls: seq<Line>, n: nat, key: string) {
    forall i :: n <= i < |ls| && ls[i].kind.Assign? ==> ls[i].kind.key != key
  }

  predicate Pends(r: Reading, section: string, key: string) {
    key != "" && r.section == section && r.pending == key
  }

  // A key not given again only grows, and in the code only while it is pending.
  lemma CodeGrows(r: Reading, line: LineKind, section: string, key: string)
    requires Sound(r) && (line.Assign? ==> line.key != key)
    ensures Size(Read(r, line).found, section, key) >= Size(r.found, section, key)
    ensures !Pends(r, section, key) ==>
              && !Pends(Read(r, line), section, key)
              && Size(Read(r, line).found, section, key) == Size(r.found, section, key)
  {
  }

  // By the rule only while it goes on.
  lemma RuleGrows(d: Documented, line: Line, section: string, key: string)
    requires line.kind.Assign? ==> line.kind.key != key
    ensures Size(ReadDocumented(d, line).found, section, key) >= Size(d.found, section, key)
    ensures d.goesOn != Some(key) ==>
              && ReadDocumented(d, line).goesOn != Some(key)
              && Size(ReadDocumented(d, line).found, section, key) == Size(d.found, section, key)
  {
  }

  lemma {:induction false} CodeLater(ls: seq<Line>, n: nat, m: nat, section: string, key: string)
    requires n <= m <= |ls| && NotAgain(ls, n, key)
    ensures Size(CodeAt(ls, m).found, section, key) >= Size(CodeAt(ls, n).found, section, key)
    ensures !Pends(CodeAt(ls, n), section, key) ==>
              && !Pends(CodeAt(ls, m), section, key)
              && Size(CodeAt(ls, m).found, section, key) == Size(CodeAt(ls, n).found, section, key)
  {
    if n == m {
    } else {
      CodeLater(ls, n, m - 1, section, key);
      ReadOneMore(ls, m - 1);
      ReadingIsSound(KindsIn(ls)[..m - 1]);
      CodeGrows(CodeAt(ls, m - 1), ls[m - 1].kind, section, key);
    }
  }

  lemma {:induction false} RuleLater(ls: seq<Line>, n: nat, m: nat, section: string, key: string)
    requires n <= m <= |ls| && NotAgain(ls, n, key)
    ensures Size(RuleAt(ls, m).found, section, key) >= Size(RuleAt(ls, n).found, section, key)
    ensures RuleAt(ls, n).goesOn != Some(key) ==>
              && RuleAt(ls, m).goesOn != Some(key)
              && Size(RuleAt(ls, m).found, section, key) == Size(RuleAt(ls, n).found, section, key)
  {
    if n == m {
    } else {
      RuleLater(ls, n, m - 1, section, key);
      ReadOneMore(ls, m - 1);
      RuleGrows(RuleAt(ls, m - 1), ls[m - 1], section, key);
    }
  }

  // No key is given a value on two lines.
  predicate KeysOnce(ls: seq<Line>) {
    forall i, j :: 0 <= i < j < |ls| && ls[i].kind.Assign? && ls[j].kind.Assign? ==> ls[i].kind.key != ls[j].kind.key
  }

  lemma NothingAtFirst(ls: seq<Line>)
    ensures CodeAt(ls, 0) == START && RuleAt(ls, 0) == BLANK
  {
  }

  // A key that has been found was given on some line before.
  lemma {:induction false} GivenBefore(ls: seq<Line>, n: nat, section: string, key: string) returns (i: nat)
    requires n <= |ls| && section in CodeAt(ls, n).found && key in CodeAt(ls, n).found[section]
    ensures i < n && ls[i].kind.Assign? && ls[i].kind.key == key
  {
    NothingAtFirst(ls);
    ReadOneMore(ls, n - 1);
    if ls[n - 1].kind.Assign? && ls[n - 1].kind.key == key {
      i := n - 1;
    } else {
      i := GivenBefore(ls, n - 1, section, key);
    }
  }

  // The difference between the two, one of them having more fragments and the other being out of reach.
  predicate Parted(r: Reading, d: Documented, section: string, key: string) {
    || (Size(r.found, section, key) > Size(d.found, section, key) && d.goesOn != Some(key))
    || (Size(r.found, section, key) < Size(d.found, section, key) && !Pends(r, section, key))
  }

  // Where the readings part, the key in question has more fragments in one, and is out of reach of the other.
  lemma PartingIsFinal(r: Reading, d: Documented, line: Line) returns (section: string, key: string)
    requires InStep(r, d) && Whole(line) && !Follows(r, d, line.kind)
    requires line.kind.Assign? && d.goesOn.Some? ==> line.kind.key != d.goesOn.value
    ensures section in r.found && key in r.found[section]
    ensures Parted(Read(r, line.kind), ReadDocumented(d, line), section, key)
  {
    section, key := r.section, r.pending;
  }

  // When no key is given twice, the file has the values of the rule exactly when every line follows.
  lemma DocumentedIffFollowing(content: string)
    requires KeysOnce(FileLines(content))
    ensures FragmentsOf(content) == DocumentedFragments(content) <==>
            AllFollow(FileLines(content), |FileLines(content)|)
  {
    var ls := FileLines(content);
    FileLinesAre(content);
    if AllFollow(ls, |ls|) {
      DocumentedWhenFollowing(content);
    } else {
      StaysApart(ls);
      assert ls[..|ls|] == ls && KindsIn(ls)[..|ls|] == KindsIn(ls);
    }
  }

  lemma FoundIsNotGivenAgain(ls: seq<Line>, n: nat, section: string, key: string)
    requires n <= |ls| && KeysOnce(ls)
    requires section in CodeAt(ls, n).found && key in CodeAt(ls, n).found[section]
    ensures NotAgain(ls, n, key)
  {
    var i := GivenBefore(ls, n, section, key);
  }

  lemma PartedForGood(ls: seq<Line>, n: nat, section: string, key: string)
    requires n <= |ls| && NotAgain(ls, n, key) && Parted(CodeAt(ls, n), RuleAt(ls, n), section, key)
    ensures CodeAt(ls, |ls|).found != RuleAt(ls, |ls|).found
  {
    CodeLater(ls, n, |ls|, section, key);
    RuleLater(ls, n, |ls|, section, key);
  }

  lemma StaysApart(ls: seq<Line>)
    requires WholeLines(ls) && KeysOnce(ls) && !AllFollow(ls, |ls|)
    ensures CodeAt(ls, |ls|).found != RuleAt(ls, |ls|).found
  {
    var n := FirstNotFollowing(ls, |ls|);
    ApartAfterFirst(ls, n);
    var r, d := CodeAt(ls, n), RuleAt(ls, n);
    if d.goesOn.Some? { FoundIsNotGivenAgain(ls, n, d.section, d.goesOn.value); }
    var section, key := PartingIsFinal(r, d, ls[n]);
    FoundIsNotGivenAgain(ls, n, section, key);
    ReadOneMore(ls, n);
    PartedForGood(ls, n + 1, section, key);
  }

  // ---------------------------------------------------------------- two files

  // Text without white space at either end.
  predicate Plain(s: string) {
    s != "" && !IsSpace(s[0]) && !IsSpace(s[|s| - 1])
  }

  lemma TrimPlain(s: string)
    requires Plain(s)
    ensures TrimSpace(s) == s
  {
  }

  lemma HeaderLine(line: string, name: string)
    requires line == "[" + name + "]" && Plain(name)
    ensures LineOf(line) == Line(Header(name), line)
  {
    TrimPlain(line);
    assert line[1..|line| - 1] == name;
    TrimPlain(name);
  }

  lemma AssignLine(line: string, key: string, value: string)
    requires line == key + "=" + value && Plain(key) && Plain(value) && '=' !in key && key[0] !in "#;["
    ensures LineOf(line) == Line(Assign(key, value), line)
  {
    TrimPlain(line);
    assert line[..|key|] == key && line[|key| + 1..] == value;
    FirstIndexIs(line, '=', |key|);
    TrimPlain(key);
    TrimPlain(value);
  }

  lemma OtherLine(line: string)
    requires Plain(line) && '=' !in line && line[0] !in "#;["
    ensures LineOf(line) == Line(Other(line), line)
  {
    TrimPlain(line);
  }

  lemma ThreeLines(a: string, b: string, c: string)
    requires '\n' !in a && '\n' !in b && '\n' !in c
    ensures FileLines(a + ['\n'] + (b + ['\n'] + c)) == [LineOf(a), LineOf(b), LineOf(c)]
  {
    SplitFirst(a, '\n', b + ['\n'] + c);
    SplitFirst(b, '\n', c);
    SplitWhole(c, '\n');
  }

  lemma FourLines(a: string, b: string, c: string, d: string)
    requires '\n' !in a && '\n' !in b && '\n' !in c && '\n' !in d
    ensures FileLines(a + ['\n'] + (b + ['\n'] + (c + ['\n'] + d))) == [LineOf(a), LineOf(b), LineOf(c), LineOf(d)]
  {
    SplitFirst(a, '\n', b + ['\n'] + (c + ['\n'] + d));
    SplitFirst(b, '\n', c + ['\n'] + d);
    SplitFirst(c, '\n', d);
    SplitWhole(d, '\n');
  }

  lemma ThreeSteps(a: Line, b: Line, c: Line)
    ensures ReadAll(KindsIn([a, b, c])) == Read(Read(Read(START, a.kind), b.kind), c.kind)
    ensures ReadAllDocumented([a, b, c]) == ReadDocumented(ReadDocumented(ReadDocumented(BLANK, a), b), c)
  {
    var ls := [a, b, c];
    assert ls[..3] == ls && KindsIn(ls)[..3] == KindsIn(ls);
    NothingAtFirst(ls);
    ReadOneMore(ls, 0);
    ReadOneMore(ls, 1);
    ReadOneMore(ls, 2);
  }

  lemma FourSteps(a: Line, b: Line, c: Line, e: Line)
    ensures ReadAll(KindsIn([a, b, c, e])) == Read(Read(Read(Read(START, a.kind), b.kind), c.kind), e.kind)
    ensures ReadAllDocumented([a, b, c, e]) ==
            ReadDocumented(ReadDocumented(ReadDocumented(ReadDocumented(BLANK, a), b), c), e)
  {
    var ls := [a, b, c, e];
    assert ls[..3] == [a, b, c] && ls[..4] == ls;
    assert KindsIn(ls)[..3] == KindsIn([a, b, c]) && KindsIn(ls)[..4] == KindsIn(ls);
    ThreeSteps(a, b, c);
    ReadOneMore(ls, 3);
  }

  lemma Grown(section: string, key: string, value: string, text: string)
    ensures Append(map[section := map[key := [value]]], section, key, text) ==
            map[section := map[key := [value, text]]]
  {
    var keys := map[key := [value]];
    assert keys[key] + [text] == [value, text];
    assert keys[key := keys[key] + [text]] == map[key := [value, text]];
    assert map[section := keys][section] == keys;
  }

  // After a header and a value that goes on, an assignment starts a key of its own instead.
  lemma SplitSteps(a: Line, b: Line, c: Line)
    requires a.kind.Header? && b.kind.Assign? && c.kind.Assign?
    requires a.kind.name != "" && b.kind.key != c.kind.key && Slashed(b.text)
    ensures Read(Read(Read(START, a.kind), b.kind), c.kind).found ==
            map[a.kind.name := map[b.kind.key := [b.kind.value], c.kind.key := [c.kind.value]]]
    ensures ReadDocumented(ReadDocumented(ReadDocumented(BLANK, a), b), c).found ==
            map[a.kind.name := map[b.kind.key := [b.kind.value, c.text]]]
  {
    var d1 := ReadDocumented(BLANK, a);
    assert d1 == Documented(map[a.kind.name := map[]], a.kind.name, None);
    var d2 := ReadDocumented(d1, b);
    assert d2 == Documented(map[a.kind.name := map[b.kind.key := [b.kind.value]]], a.kind.name, Some(b.kind.key));
    Grown(a.kind.name, b.kind.key, b.kind.value, c.text);
  }

  lemma SplitContinuation(section: string, key: string, value: string, key2: string, value2: string,
                          header: string, line: string, line2: string)
    requires header == "[" + section + "]" && Plain(section) && '\n' !in header
    requires line == key + "=" + value && Plain(key) && Plain(value) && '=' !in key && key[0] !in "#;["
    requires line2 == key2 + "=" + value2 && Plain(key2) && Plain(value2) && '=' !in key2 && key2[0] !in "#;["
    requires '\n' !in line && '\n' !in line2 && line[|line| - 1] == '\\' && key != key2
    ensures var content := header + ['\n'] + (line + ['\n'] + line2);
            && FragmentsOf(content) == map[section := map[key := [value], key2 := [value2]]]
            && DocumentedFragments(content) == map[section := map[key := [value, line2]]]
  {
    var a, b, c := LineOf(header), LineOf(line), LineOf(line2);
    ThreeLines(header, line, line2);
    FileLinesAre(header + ['\n'] + (line + ['\n'] + line2));
    HeaderLine(header, section);
    AssignLine(line, key, value);
    AssignLine(line2, key2, value2);
    ThreeSteps(a, b, c);
    SplitSteps(a, b, c);
  }

  // A continuation line with '=' is read as a key of its own, although the line before it ends in a backslash.
  lemma ContinuationWithEqualsIsSplit()
    ensures var content := "[S]\nA=x \\\nB=y";
            && FragmentsOf(content) == map["S" := map["A" := ["x \\"], "B" := ["y"]]]
            && DocumentedFragments(content) == map["S" := map["A" := ["x \\", "B=y"]]]
  {
    assert "[S]\nA=x \\\nB=y" == "[S]" + ['\n'] + ("A=x \\" + ['\n'] + "B=y");
    SplitContinuation("S", "A", "x \\", "B", "y", "[S]", "A=x \\", "B=y");
  }

  function One(section: string, key: string, fragments: seq<string>): Fragments {
    map[section := map[key := fragments]]
  }

  lemma AssignedAgain(section: string, key: string, fragments: seq<string>, value: string)
    requires section != ""
    ensures Read(Reading(One(section, key, fragments), section, key), Assign(key, value)).found ==
            One(section, key, [value])
    ensures Read(Reading(One(section, key, fragments), section, ""), Assign(key, value)).found ==
            One(section, key, [value])
  {
    var keys := map[key := fragments];
    assert One(section, key, fragments)[section] == keys;
    assert keys[key := [value]] == map[key := [value]];
  }

  // Joining a text and then giving the value again leaves nothing of the text.
  lemma CodeOverwrites(section: string, key: string, value: string, text: string, value2: string)
    requires section != "" && key != ""
    ensures Read(Read(Reading(One(section, key, [value]), section, key), Other(text)), Assign(key, value2)).found ==
            One(section, key, [value2])
  {
    Grown(section, key, value, text);
    assert Read(Reading(One(section, key, [value]), section, key), Other(text)) ==
           Reading(One(section, key, [value, text]), section, key);
    AssignedAgain(section, key, [value, text], value2);
  }

  lemma RuleOverwrites(section: string, key: string, value: string, c: Line, e: Line)
    requires section != "" && c.kind.Other? && e.kind.Assign? && e.kind.key == key
    ensures ReadDocumented(ReadDocumented(Documented(One(section, key, [value]), section, None), c), e).found ==
            One(section, key, [e.kind.value])
  {
    AssignedAgain(section, key, [value], e.kind.value);
  }

  lemma FirstTwo(a: Line, b: Line)
    requires a.kind.Header? && b.kind.Assign? && a.kind.name != "" && !Slashed(b.text)
    ensures Read(Read(START, a.kind), b.kind) ==
            Reading(One(a.kind.name, b.kind.key, [b.kind.value]), a.kind.name, b.kind.key)
    ensures ReadDocumented(ReadDocumented(BLANK, a), b) ==
            Documented(One(a.kind.name, b.kind.key, [b.kind.value]), a.kind.name, None)
  {
  }

  // A value, a line to join that the rule does not join, and the value again.
  lemma OverwrittenSteps(a: Line, b: Line, c: Line, e: Line)
    requires a.kind.Header? && b.kind.Assign? && c.kind.Other? && e.kind.Assign?
    requires a.kind.name != "" && b.kind.key == e.kind.key != "" && !Slashed(b.text)
    ensures ReadAll(KindsIn([a, b, c, e])).found == ReadAllDocumented([a, b, c, e]).found
  {
    FourSteps(a, b, c, e);
    FirstTwo(a, b);
    CodeOverwrites(a.kind.name, b.kind.key, b.kind.value, c.kind.text, e.kind.value);
    RuleOverwrites(a.kind.name, b.kind.key, b.kind.value, c, e);
  }

  lemma ThirdDoesNotFollow(ls: seq<Line>)
    requires |ls| > 2 && ls[0].kind.Header? && ls[1].kind.Assign? && ls[2].kind.Other?
    requires ls[0].kind.name != "" && ls[1].kind.key != "" && !Slashed(ls[1].text)
    ensures !LineFollows(ls, 2)
  {
    assert Governing(ls, 2) == 1 && LastLine(ls, 2) == 1;
    assert SectionAt(KindsIn(ls), 1) == ls[0].kind.name;
  }

  lemma Overwritten(section: string, key: string, value: string, value2: string, header: string, line: string,
                    line2: string, line3: string)
    requires header == "[" + section + "]" && Plain(section) && '\n' !in header
    requires line == key + "=" + value && line3 == key + "=" + value2 && Plain(value) && Plain(value2)
    requires Plain(key) && '=' !in key && key[0] !in "#;["
    requires Plain(line2) && '=' !in line2 && line2[0] !in "#;["
    requires '\n' !in line && '\n' !in line2 && '\n' !in line3 && line[|line| - 1] != '\\'
    ensures var content := header + ['\n'] + (line + ['\n'] + (line2 + ['\n'] + line3));
            && FragmentsOf(content) == DocumentedFragments(content)
            && !AllFollow(FileLines(content), |FileLines(content)|)
  {
    var a, b, c, e := LineOf(header), LineOf(line), LineOf(line2), LineOf(line3);
    FourLines(header, line, line2, line3);
    FileLinesAre(header + ['\n'] + (line + ['\n'] + (line2 + ['\n'] + line3)));
    HeaderLine(header, section);
    AssignLine(line, key, value);
    OtherLine(line2);
    AssignLine(line3, key, value2);
    OverwrittenSteps(a, b, c, e);
    ThirdDoesNotFollow([a, b, c, e]);
  }

  // When a key is given twice the difference can be overwritten: a file with a line that does not follow, and yet
  // the values of the rule.
  lemma DifferenceCanBeOverwritten()
    ensures var content := "[S]\nA=x\nfoo\nA=y";
            && FragmentsOf(content) == DocumentedFragments(content)
            && !AllFollow(FileLines(content), |FileLines(content)|)
  {
    assert "[S]\nA=x\nfoo\nA=y" == "[S]" + ['\n'] + ("A=x" + ['\n'] + ("foo" + ['\n'] + "A=y"));
    Overwritten("S", "A", "x", "y", "[S]", "A=x", "foo", "A=y");
  }
}
