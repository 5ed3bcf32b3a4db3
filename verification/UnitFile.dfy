/**
 The two systemd unit parsers (internal/provider/linux/systemd_helpers.go): parseSystemdUnit, which reads a
 value from one line, and parseUnitFile, which joins continuation lines.

 Both are proved against one reading of the file: for every section and key the fragments its value was
 written in, the first after the '=' and one more for every continuation line.
 */
module UnitFile {
  import opened Text
  import opened Wrappers

  // ---------------------------------------------------------------- lines

  datatype LineKind = Skip | Header(name: string) | Assign(key: string, value: string) | Other(text: string)

  // What a line is, by the tests both parsers make in this order.
  function KindOf(raw: string): LineKind {
    var line := TrimSpace(raw);
    if line == "" || line[0] == '#' || line[0] == ';' then Skip
    else if line[0] == '[' && line[|line| - 1] == ']' then Header(TrimSpace(line[1..|line| - 1]))
    else
      var idx := FirstIndex(line, '=');
      if idx >= 0 then Assign(TrimSpace(line[..idx]), TrimSpace(line[idx + 1..])) else Other(line)
  }

  // ---------------------------------------------------------------- the fragments of a file

  type Fragments = map<string, map<string, seq<string>>>

  // Reading state: what has been read, the section, and the key a continuation line belongs to ("" for none).
  datatype Reading = Reading(found: Fragments, section: string, pending: string)

  const START := Reading(map[], "", "")

  function Read(r: Reading, line: LineKind): Reading {
    match line
    case Skip => r
    case Header(name) => Reading(if name in r.found then r.found else r.found[name := map[]], name, "")
    case Assign(key, value) =>
      if r.section == "" || r.section !in r.found then r
      else Reading(r.found[r.section := r.found[r.section][key := [value]]], r.section, key)
    case Other(text) =>
      if r.section == "" || r.pending == "" || r.section !in r.found || r.pending !in r.found[r.section] then r
      else r.(found := r.found[r.section := r.found[r.section][r.pending := r.found[r.section][r.pending] + [text]]])
  }

  function ReadAll(lines: seq<LineKind>): Reading {
    if lines == [] then START else Read(ReadAll(lines[..|lines| - 1]), lines[|lines| - 1])
  }

  function Kinds(raws: seq<string>): (lines: seq<LineKind>)
    ensures |lines| == |raws|
  {
    seq(|raws|, i requires 0 <= i < |raws| => KindOf(raws[i]))
  }

  function LinesOf(content: string): seq<LineKind> {
    Kinds(Split(content, '\n'))
  }

  function FragmentsOf(content: string): Fragments {
    ReadAll(LinesOf(content)).found
  }

  // The section in force is known, and so is the pending key; a section without a name stays empty; every
  // value has a first fragment.
  predicate Sound(r: Reading) {
    && (r.section != "" ==> r.section in r.found)
    && (r.pending != "" ==> r.section != "" && r.pending in r.found[r.section])
    && ("" in r.found ==> r.found[""] == map[])
    && forall s :: s in r.found ==> Begun(r.found[s])
  }

  predicate Begun(keys: map<string, seq<string>>) {
    forall k :: k in keys ==> keys[k] != []
  }

  lemma {:induction false} ReadingIsSound(lines: seq<LineKind>)
    ensures Sound(ReadAll(lines))
  {
    if lines == [] {
    } else {
      ReadingIsSound(lines[..|lines| - 1]);
    }
  }

  // ---------------------------------------------------------------- what the fragments are, line by line

  // The name of the last header before line n, "" before the first.
  function SectionAt(lines: seq<LineKind>, n: nat): string
    requires n <= |lines|
  {
    if n == 0 then ""
    else if lines[n - 1].Header? then lines[n - 1].name
    else SectionAt(lines, n - 1)
  }

  // Line i assigns the key in the section.
  predicate Assigns(lines: seq<LineKind>, i: int, section: string, key: string) {
    && 0 <= i < |lines|
    && section != "" && SectionAt(lines, i) == section
    && lines[i].Assign? && lines[i].key == key
  }

  predicate Never(lines: seq<LineKind>, from: int, to: int, section: string, key: string) {
    forall i :: from <= i < to ==> !Assigns(lines, i, section, key)
  }

  // Line i is the last before line n to do so.
  predicate LastAssigns(lines: seq<LineKind>, n: nat, i: int, section: string, key: string) {
    0 <= i < n && Assigns(lines, i, section, key) && Never(lines, i + 1, n, section, key)
  }

  // No header and no assignment in the range.
  predicate Quiet(lines: seq<LineKind>, from: nat, to: nat)
    requires from <= to <= |lines|
  {
    forall j :: from <= j < to ==> lines[j].Skip? || lines[j].Other?
  }

  // The texts of the other lines in the range, up to the first header or assignment.
  function Texts(lines: seq<LineKind>, from: nat, to: nat): seq<string>
    requires from <= to <= |lines|
  {
    if from == to then []
    else if lines[to - 1].Other? && Quiet(lines, from, to - 1) then Texts(lines, from, to - 1) + [lines[to - 1].text]
    else Texts(lines, from, to - 1)
  }

  // What the assignment at line i has been given by line n; an empty key takes no further lines.
  function GivenBy(lines: seq<LineKind>, i: nat, n: nat): seq<string>
    requires i < n <= |lines| && lines[i].Assign?
  {
    [lines[i].value] + if lines[i].key == "" then [] else Texts(lines, i + 1, n)
  }

  // What reading knows of one key of one section.
  datatype Slot = Slot(section: string, entry: Option<seq<string>>, pends: bool)

  function SlotOf(r: Reading, section: string, key: string): Slot {
    Slot(r.section,
         if section in r.found && key in r.found[section] then Some(r.found[section][key]) else None,
         key != "" && r.section == section && r.pending == key)
  }

  // How one line changes what is known of a key.
  predicate Stepped(slot: Slot, line: LineKind, slot': Slot, section: string, key: string) {
    match line
    case Skip => slot' == slot
    case Header(name) => slot' == Slot(name, slot.entry, false)
    case Assign(k, value) =>
      if slot.section != section then slot' == slot
      else if k != key then slot' == slot.(pends := false)
      else slot' == Slot(section, Some([value]), key != "")
    case Other(text) =>
      if slot.pends then slot.entry.Some? && slot' == slot.(entry := Some(slot.entry.value + [text]))
      else slot' == slot
  }

  lemma ReadSteps(r: Reading, line: LineKind, section: string, key: string)
    requires Sound(r) && section != ""
    ensures Stepped(SlotOf(r, section, key), line, SlotOf(Read(r, line), section, key), section, key)
  {
  }

  predicate IsGiven(slot: Slot, lines: seq<LineKind>, n: nat, i: int, section: string, key: string)
    requires n <= |lines| && LastAssigns(lines, n, i, section, key)
  {
    && slot.entry == Some(GivenBy(lines, i, n))
    && (slot.pends <==> key != "" && Quiet(lines, i + 1, n))
    && (slot.pends ==> slot.section == section)
  }

  ghost predicate Describes(slot: Slot, lines: seq<LineKind>, n: nat, section: string, key: string)
    requires n <= |lines|
  {
    && slot.section == SectionAt(lines, n)
    && (forall i | LastAssigns(lines, n, i, section, key) :: IsGiven(slot, lines, n, i, section, key))
    && (Never(lines, 0, n, section, key) ==> slot.entry.None?)
  }

  lemma {:induction false} ReadingDescribes(lines: seq<LineKind>, n: nat, section: string, key: string)
    requires n <= |lines| && section != ""
    ensures Describes(SlotOf(ReadAll(lines[..n]), section, key), lines, n, section, key)
  {
    if n == 0 {
      assert ReadAll(lines[..0]) == START;
    } else {
      var init := lines[..n - 1];
      ReadingDescribes(lines, n - 1, section, key);
      assert lines[..n][..n - 1] == init;
      ReadingIsSound(init);
      ReadSteps(ReadAll(init), lines[n - 1], section, key);
      DescribesStep(SlotOf(ReadAll(init), section, key), SlotOf(ReadAll(lines[..n]), section, key), lines, n - 1,
                    section, key);
    }
  }

  lemma DescribesStep(slot: Slot, slot': Slot, lines: seq<LineKind>, n: nat, section: string, key: string)
    requires n < |lines| && section != "" && Describes(slot, lines, n, section, key)
    requires Stepped(slot, lines[n], slot', section, key)
    ensures Describes(slot', lines, n + 1, section, key)
  {
    forall i {:trigger IsGiven(slot', lines, n + 1, i, section, key)} | LastAssigns(lines, n + 1, i, section, key)
      ensures IsGiven(slot', lines, n + 1, i, section, key)
    {
      if i < n {
        GivenStep(slot, slot', lines, n, i, section, key);
      } else {
        assert GivenBy(lines, n, n + 1) == [lines[n].value];
      }
    }
    if Never(lines, 0, n + 1, section, key) {
      assert !Assigns(lines, n, section, key);
    }
  }

  lemma GivenStep(slot: Slot, slot': Slot, lines: seq<LineKind>, n: nat, i: int, section: string, key: string)
    requires n < |lines| && section != "" && slot.section == SectionAt(lines, n)
    requires i < n && LastAssigns(lines, n + 1, i, section, key) && LastAssigns(lines, n, i, section, key)
    requires IsGiven(slot, lines, n, i, section, key)
    requires Stepped(slot, lines[n], slot', section, key)
    ensures IsGiven(slot', lines, n + 1, i, section, key)
  {
    assert !Assigns(lines, n, section, key);
    assert Quiet(lines, i + 1, n + 1) <==> Quiet(lines, i + 1, n) && (lines[n].Skip? || lines[n].Other?);
    if lines[n].Other? && slot.pends {
      assert GivenBy(lines, i, n + 1) == GivenBy(lines, i, n) + [lines[n].text];
    }
  }

  // A section is found by its header and nothing else.
  lemma {:induction false} SectionsAre(lines: seq<LineKind>, section: string)
    ensures section in ReadAll(lines).found <==> Header(section) in lines
  {
    if lines == [] {
    } else {
      var init, last := lines[..|lines| - 1], lines[|lines| - 1];
      SectionsAre(init, section);
      ReadingIsSound(init);
      assert lines == init + [last];
      SectionsStep(ReadAll(init), last, section);
    }
  }

  lemma SectionsStep(r: Reading, line: LineKind, section: string)
    requires Sound(r)
    ensures section in Read(r, line).found <==> section in r.found || line == Header(section)
  {
  }

  lemma {:induction false} LastOf(lines: seq<LineKind>, n: nat, section: string, key: string) returns (i: nat)
    requires n <= |lines| && !Never(lines, 0, n, section, key)
    ensures LastAssigns(lines, n, i, section, key)
  {
    if Assigns(lines, n - 1, section, key) {
      i := n - 1;
    } else {
      i := LastOf(lines, n - 1, section, key);
    }
  }

  // The sections of a file are those with a header. A section has a value for a key exactly when some line
  // assigns it there, and then the fragments are what the last such line gives and the texts of the other
  // lines after it, up to the next header or assignment.
  lemma FragmentsAre(content: string, section: string, key: string, fragments: seq<string>)
    ensures var lines, found := LinesOf(content), FragmentsOf(content);
            && (section in found <==> Header(section) in lines)
            && (section in found && key in found[section] && found[section][key] == fragments <==>
                exists i :: LastAssigns(lines, |lines|, i, section, key) && fragments == GivenBy(lines, i, |lines|))
  {
    var lines := LinesOf(content);
    SectionsAre(lines, section);
    if section == "" {
      ReadingIsSound(lines);
    } else {
      assert lines[..|lines|] == lines;
      ReadingDescribes(lines, |lines|, section, key);
      if !Never(lines, 0, |lines|, section, key) {
        var i := LastOf(lines, |lines|, section, key);
        assert IsGiven(SlotOf(ReadAll(lines), section, key), lines, |lines|, i, section, key);
        forall j | LastAssigns(lines, |lines|, j, section, key)
          ensures j == i
        {
          assert Never(lines, i + 1, |lines|, section, key) && Never(lines, j + 1, |lines|, section, key);
        }
      }
    }
  }

  // ---------------------------------------------------------------- parseSystemdUnit: first fragments

  function Firsts(keys: map<string, seq<string>>): map<string, string> {
    map k | k in keys :: if keys[k] == [] then "" else keys[k][0]
  }

  function FirstValues(found: Fragments): map<string, map<string, string>> {
    map s | s in found :: Firsts(found[s])
  }

  // How one line changes the first fragments.
  lemma FirstsStep(r: Reading, line: LineKind)
    requires Sound(r)
    ensures FirstValues(Read(r, line).found) ==
            match line
            case Header(name) => if name in r.found then FirstValues(r.found) else FirstValues(r.found)[name := map[]]
            case Assign(key, value) =>
              if r.section == "" then FirstValues(r.found)
              else FirstValues(r.found)[r.section := FirstValues(r.found)[r.section][key := value]]
            case _ => FirstValues(r.found)
  {
    match line {
      case Header(name) => FirstValuesUpdate(r.found, name, map[]);
      case Assign(key, value) =>
        if r.section != "" {
          var keys := r.found[r.section];
          assert Firsts(keys[key := [value]]) == Firsts(keys)[key := value];
          FirstValuesUpdate(r.found, r.section, keys[key := [value]]);
        }
      case Other(text) =>
        if r.section != "" && r.pending != "" {
          var keys := r.found[r.section];
          assert Begun(keys);
          var grown := keys[r.pending := keys[r.pending] + [text]];
          assert Firsts(grown) == Firsts(keys);
          FirstValuesUpdate(r.found, r.section, grown);
          assert FirstValues(r.found)[r.section := Firsts(keys)] == FirstValues(r.found);
        }
      case Skip =>
    }
  }

  lemma FirstValuesUpdate(found: Fragments, section: string, keys: map<string, seq<string>>)
    ensures FirstValues(found[section := keys]) == FirstValues(found)[section := Firsts(keys)]
  {
  }

  // One line of the loop.
  method TakeFirst(sections: map<string, map<string, string>>, current: string, line: LineKind, ghost r: Reading)
    returns (sections': map<string, map<string, string>>, current': string)
    requires Sound(r) && sections == FirstValues(r.found) && current == r.section
    ensures sections' == FirstValues(Read(r, line).found) && current' == Read(r, line).section
  {
    sections', current' := sections, current;
    FirstsStep(r, line);
    match line {
      case Skip =>
      case Header(name) =>
        current' := name;
        if current' !in sections {
          sections' := sections[current' := map[]];
        }
      case Assign(key, value) =>
        if current != "" {
          sections' := sections[current := sections[current][key := value]];
        }
      case Other(_) =>
    }
  }

  method ParseSystemdUnit(content: string) returns (sections: map<string, map<string, string>>)
    ensures sections == FirstValues(FragmentsOf(content))
  {
    sections := map[];
    var current := "";
    var raws := Split(content, '\n');
    ghost var lines := Kinds(raws);
    var i := 0;
    while i < |raws|
      invariant 0 <= i <= |raws|
      invariant sections == FirstValues(ReadAll(lines[..i]).found) && current == ReadAll(lines[..i]).section
    {
      ReadingIsSound(lines[..i]);
      assert lines[..i + 1][..i] == lines[..i];
      sections, current := TakeFirst(sections, current, KindOf(raws[i]), ReadAll(lines[..i]));
      i := i + 1;
    }
    assert lines[..|lines|] == lines;
  }

  // ---------------------------------------------------------------- parseUnitFile: all fragments, word by word

  // strings.ReplaceAll(s, "\\", " ")
  function Unslash(s: string): string {
    seq(|s|, i requires 0 <= i < |s| => if s[i] == '\\' then ' ' else s[i])
  }

  // Words between white space and backslashes.
  function Words(s: string): seq<string> {
    Fields(Unslash(s))
  }

  function AllWords(fragments: seq<string>): seq<string> {
    if fragments == [] then [] else AllWords(fragments[..|fragments| - 1]) + Words(fragments[|fragments| - 1])
  }

  function Normalise(s: string): string {
    Join(Words(s), " ")
  }

  function JoinedKeys(keys: map<string, seq<string>>): map<string, string> {
    map k | k in keys :: Join(AllWords(keys[k]), " ")
  }

  function JoinedValues(found: Fragments): map<string, map<string, string>> {
    map s | s in found :: JoinedKeys(found[s])
  }

  // Trimming and joining with a blank keep the words.
  lemma {:induction false} WordsTrimLeft(s: string)
    ensures Words(TrimLeft(s)) == Words(s)
  {
    if s != "" && IsSpace(s[0]) {
      assert Unslash(s)[1..] == Unslash(s[1..]);
      WordsTrimLeft(s[1..]);
    }
  }

  lemma {:induction false} WordsTrimRight(s: string)
    ensures Words(TrimRight(s)) == Words(s)
  {
    if s != "" && IsSpace(s[|s| - 1]) {
      var init, last := s[..|s| - 1], s[|s| - 1];
      WordsTrimRight(init);
      assert Unslash(s) == Unslash(init) + [last] + "";
      FieldsAround(Unslash(init), last, "");
    }
  }

  lemma WordsTrim(s: string)
    ensures Words(TrimSpace(s)) == Words(s)
  {
    WordsTrimRight(TrimLeft(s));
    WordsTrimLeft(s);
  }

  lemma WordsJoin(a: string, b: string)
    ensures Words(a + " " + b) == Words(a) + Words(b)
  {
    assert Unslash(a + " " + b) == Unslash(a) + [' '] + Unslash(b);
    FieldsAround(Unslash(a), ' ', Unslash(b));
  }

  // What words are: a backslash or white space parts them, and what has neither is one.
  lemma WordsAre(a: string, c: char, b: string, w: string)
    requires (IsSpace(c) || c == '\\') && forall i :: 0 <= i < |w| ==> !IsSpace(w[i]) && w[i] != '\\'
    ensures Words(a + [c] + b) == Words(a) + Words(b)
    ensures Words(w) == if w == "" then [] else [w]
  {
    var blank := if c == '\\' then ' ' else c;
    assert Unslash(a + [c] + b) == Unslash(a) + [blank] + Unslash(b);
    FieldsAround(Unslash(a), blank, Unslash(b));
    assert Unslash(w) == w;
    if w != "" {
      FieldsStart(w, |w|);
      assert w[|w|..] == "" && w[..|w|] == w;
    }
  }

  // The stored text has the words of the fragments.
  predicate SameKeys(values: map<string, string>, keys: map<string, seq<string>>) {
    values.Keys == keys.Keys && forall k :: k in keys ==> Words(values[k]) == AllWords(keys[k])
  }

  predicate SameWords(sections: map<string, map<string, string>>, found: Fragments) {
    sections.Keys == found.Keys && forall s :: s in found ==> SameKeys(sections[s], found[s])
  }

  lemma SameWordsUpdate(sections: map<string, map<string, string>>, found: Fragments, section: string,
                        values: map<string, string>, keys: map<string, seq<string>>)
    requires SameWords(sections, found) && SameKeys(values, keys)
    ensures SameWords(sections[section := values], found[section := keys])
  {
  }

  lemma SameKeysUpdate(values: map<string, string>, keys: map<string, seq<string>>, key: string,
                       value: string, fragments: seq<string>)
    requires SameKeys(values, keys) && Words(value) == AllWords(fragments)
    ensures SameKeys(values[key := value], keys[key := fragments])
  {
  }

  // flush: trim the pending value.
  method Flush(sections: map<string, map<string, string>>, current: string, pendingKey: string, ghost r: Reading)
    returns (flushed: map<string, map<string, string>>)
    requires Sound(r) && SameWords(sections, r.found) && r.section == current && r.pending == pendingKey
    ensures SameWords(flushed, r.found)
  {
    flushed := sections;
    if current != "" && pendingKey != "" {
      ghost var keys := r.found[current];
      assert SameKeys(sections[current], keys);
      WordsTrim(sections[current][pendingKey]);
      SameKeysUpdate(sections[current], keys, pendingKey, TrimSpace(sections[current][pendingKey]), keys[pendingKey]);
      assert keys[pendingKey := keys[pendingKey]] == keys;
      SameWordsUpdate(sections, r.found, current,
                      sections[current][pendingKey := TrimSpace(sections[current][pendingKey])], keys);
      assert r.found[current := keys] == r.found;
      flushed := sections[current := sections[current][pendingKey := TrimSpace(sections[current][pendingKey])]];
    }
  }

  // One line of the loop.
  method TakeLine(sections: map<string, map<string, string>>, current: string, pendingKey: string, line: LineKind,
                  ghost r: Reading)
    returns (sections': map<string, map<string, string>>, current': string, pendingKey': string)
    requires Sound(r) && SameWords(sections, r.found) && r.section == current && r.pending == pendingKey
    ensures var r' := Read(r, line);
            SameWords(sections', r'.found) && r'.section == current' && r'.pending == pendingKey'
  {
    sections', current', pendingKey' := sections, current, pendingKey;
    match line {
      case Skip =>
      case Header(name) =>
        sections' := Flush(sections, current, pendingKey, r);
        pendingKey' := "";
        current' := name;
        if name !in sections' {
          SameWordsUpdate(sections', r.found, name, map[], map[]);
          sections' := sections'[name := map[]];
        }
      case Assign(key, value) =>
        if current != "" {
          sections' := Flush(sections, current, pendingKey, r);
          OneFragment(value);
          SameKeysUpdate(sections'[current], r.found[current], key, value, [value]);
          SameWordsUpdate(sections', r.found, current, sections'[current][key := value],
                          r.found[current][key := [value]]);
          sections' := sections'[current := sections'[current][key := value]];
          pendingKey' := key;
        }
      case Other(text) =>
        if current != "" && pendingKey != "" {
          ghost var keys := r.found[current];
          assert SameKeys(sections[current], keys);
          var value := sections[current][pendingKey] + " " + text;
          WordsJoin(sections[current][pendingKey], text);
          MoreFragments(keys[pendingKey], text);
          SameKeysUpdate(sections[current], keys, pendingKey, value, keys[pendingKey] + [text]);
          SameWordsUpdate(sections, r.found, current, sections[current][pendingKey := value],
                          keys[pendingKey := keys[pendingKey] + [text]]);
          sections' := sections[current := sections[current][pendingKey := value]];
        }
    }
  }

  lemma OneFragment(value: string)
    ensures AllWords([value]) == Words(value)
  {
    assert [value][..0] == [];
  }

  lemma MoreFragments(fragments: seq<string>, text: string)
    ensures AllWords(fragments + [text]) == AllWords(fragments) + Words(text)
  {
    assert (fragments + [text])[..|fragments|] == fragments;
  }

  method ParseUnitFile(content: string) returns (sections: map<string, map<string, string>>)
    ensures sections == JoinedValues(FragmentsOf(content))
  {
    sections := map[];
    var current, pendingKey := "", "";
    var raws := Split(content, '\n');
    ghost var lines := Kinds(raws);
    var i := 0;
    while i < |raws|
      invariant 0 <= i <= |raws|
      invariant var r := ReadAll(lines[..i]);
                SameWords(sections, r.found) && r.section == current && r.pending == pendingKey
    {
      ghost var r := ReadAll(lines[..i]);
      ReadingIsSound(lines[..i]);
      assert lines[..i + 1][..i] == lines[..i];
      sections, current, pendingKey := TakeLine(sections, current, pendingKey, KindOf(raws[i]), r);
      i := i + 1;
    }
    assert lines[..|lines|] == lines;
    ReadingIsSound(lines);
    ghost var r := ReadAll(lines);
    sections := Flush(sections, current, pendingKey, r);
    sections := Collapse(sections, r.found);
  }

  // The two final loops: every value becomes its words with single blanks.
  method Collapse(sections: map<string, map<string, string>>, ghost found: Fragments)
    returns (collapsed: map<string, map<string, string>>)
    requires SameWords(sections, found)
    ensures collapsed == JoinedValues(found)
  {
    collapsed := sections;
    var rest := sections.Keys;
    while rest != {}
      invariant rest <= sections.Keys && collapsed.Keys == sections.Keys
      invariant forall s :: s in rest ==> collapsed[s] == sections[s]
      invariant forall s :: s in sections && s !in rest ==> collapsed[s] == JoinedKeys(found[s])
      decreases |rest|
    {
      var section := AnyOf(rest);
      assert SameKeys(sections[section], found[section]);
      TargetOf(sections[section], found[section]);
      var values := CollapseKeys(sections[section], JoinedKeys(found[section]));
      collapsed := collapsed[section := values];
      rest := rest - {section};
    }
  }

  method CollapseKeys(values: map<string, string>, ghost target: map<string, string>)
    returns (collapsed: map<string, string>)
    requires values.Keys == target.Keys && forall k :: k in values ==> Collapsed(values[k], target[k])
    ensures collapsed == target
  {
    collapsed := values;
    var rest := values.Keys;
    while rest != {}
      invariant rest <= values.Keys && collapsed.Keys == values.Keys
      invariant forall k :: k in rest ==> collapsed[k] == values[k]
      invariant forall k :: k in values && k !in rest ==> collapsed[k] == target[k]
      decreases |rest|
    {
      var key := AnyOf(rest);
      var value := Normal(values[key], target[key]);
      collapsed := collapsed[key := value];
      rest := rest - {key};
    }
  }

  predicate Collapsed(value: string, target: string) {
    target == Normalise(value)
  }

  method Normal(value: string, ghost target: string) returns (normal: string)
    requires Collapsed(value, target)
    ensures normal == target
  {
    normal := Join(Fields(Unslash(value)), " ");
  }

  lemma TargetOf(values: map<string, string>, keys: map<string, seq<string>>)
    requires SameKeys(values, keys)
    ensures forall k :: k in values ==> Collapsed(values[k], JoinedKeys(keys)[k])
  {
  }

  // ---------------------------------------------------------------- the two parsers compared

  // Same sections and keys for every file.
  lemma SameSectionsAndKeys(content: string)
    ensures var simple, joined := FirstValues(FragmentsOf(content)), JoinedValues(FragmentsOf(content));
            && simple.Keys == joined.Keys
            && forall s :: s in simple ==> simple[s].Keys == joined[s].Keys
  {
  }

  // The joined value is the normalised first line exactly when no continuation line adds a word.
  lemma ValuesAgreeIff(content: string, section: string, key: string)
    requires section in FragmentsOf(content) && key in FragmentsOf(content)[section]
    ensures var fragments := FragmentsOf(content)[section][key];
            && fragments != []
            && (JoinedValues(FragmentsOf(content))[section][key]
                == Normalise(FirstValues(FragmentsOf(content))[section][key])
                <==> forall i :: 1 <= i < |fragments| ==> Words(fragments[i]) == [])
  {
    ReadingIsSound(LinesOf(content));
    var fragments := FragmentsOf(content)[section][key];
    assert Begun(FragmentsOf(content)[section]);
    WordsOfFirst(fragments);
    LaterWordsEmpty(fragments);
    JoinedLonger(Words(fragments[0]), LaterWords(fragments));
  }

  function LaterWords(fragments: seq<string>): seq<string>
    requires fragments != []
  {
    AllWords(fragments[1..])
  }

  lemma {:induction false} WordsOfFirst(fragments: seq<string>)
    requires fragments != []
    ensures AllWords(fragments) == Words(fragments[0]) + LaterWords(fragments)
    ensures forall i :: 0 <= i < |LaterWords(fragments)| ==> LaterWords(fragments)[i] != ""
  {
    if |fragments| == 1 {
      assert fragments == [fragments[0]];
      OneFragment(fragments[0]);
    } else {
      var init, last := fragments[..|fragments| - 1], fragments[|fragments| - 1];
      WordsOfFirst(init);
      assert fragments[1..] == init[1..] + [last];
      MoreFragments(init[1..], last);
      WordsNotEmpty(Unslash(last));
      Concat3(Words(fragments[0]), LaterWords(init), Words(last));
    }
  }

  lemma {:induction false} LaterWordsEmpty(fragments: seq<string>)
    requires fragments != []
    ensures LaterWords(fragments) == [] <==> forall i :: 1 <= i < |fragments| ==> Words(fragments[i]) == []
  {
    if |fragments| == 1 {
    } else {
      var init, last := fragments[..|fragments| - 1], fragments[|fragments| - 1];
      LaterWordsEmpty(init);
      assert fragments[1..] == init[1..] + [last];
      MoreFragments(init[1..], last);
      assert forall i :: 1 <= i < |init| ==> init[i] == fragments[i];
      assert (forall i :: 1 <= i < |fragments| ==> Words(fragments[i]) == []) <==>
             (forall i :: 1 <= i < |init| ==> Words(init[i]) == []) && Words(last) == [];
    }
  }

  // More words make a longer text.
  lemma {:induction false} JoinedLonger(a: seq<string>, b: seq<string>)
    requires forall i :: 0 <= i < |b| ==> b[i] != ""
    ensures |Join(a + b, " ")| >= |Join(a, " ")|
    ensures Join(a + b, " ") == Join(a, " ") <==> b == []
  {
    if b == [] {
      assert a + b == a;
    } else {
      var init, last := b[..|b| - 1], b[|b| - 1];
      JoinedLonger(a, init);
      assert a + b == (a + init) + [last];
      JoinAppend(a + init, " ", last);
    }
  }

  // ---------------------------------------------------------------- what a line is

  // Trimming takes white space off both ends, and all of it.
  lemma TrimIs(s: string) returns (a: string, b: string)
    ensures s == a + TrimSpace(s) + b
    ensures (forall c :: c in a ==> IsSpace(c)) && forall c :: c in b ==> IsSpace(c)
    ensures TrimSpace(s) != "" ==> !IsSpace(TrimSpace(s)[0]) && !IsSpace(TrimSpace(s)[|TrimSpace(s)| - 1])
  {
    a := LeftOff(s);
    b := RightOff(TrimLeft(s));
    assert s == a + (TrimSpace(s) + b);
  }

  lemma {:induction false} LeftOff(s: string) returns (a: string)
    ensures s == a + TrimLeft(s) && forall c :: c in a ==> IsSpace(c)
    ensures TrimLeft(s) != "" ==> !IsSpace(TrimLeft(s)[0])
  {
    if s != "" && IsSpace(s[0]) {
      a := LeftOff(s[1..]);
      assert s == [s[0]] + s[1..];
      a := [s[0]] + a;
    } else {
      a := "";
    }
  }

  lemma {:induction false} RightOff(s: string) returns (b: string)
    ensures s == TrimRight(s) + b && forall c :: c in b ==> IsSpace(c)
    ensures TrimRight(s) != "" ==> !IsSpace(TrimRight(s)[|TrimRight(s)| - 1])
    ensures TrimRight(s) != "" ==> s != "" && TrimRight(s)[0] == s[0]
  {
    if s != "" && IsSpace(s[|s| - 1]) {
      b := RightOff(s[..|s| - 1]);
      assert s == s[..|s| - 1] + [s[|s| - 1]];
      b := b + [s[|s| - 1]];
    } else {
      b := "";
    }
  }

  predicate InBrackets(line: string) {
    line != "" && line[0] == '[' && line[|line| - 1] == ']'
  }

  predicate Skipped(line: string) {
    line == "" || line[0] == '#' || line[0] == ';'
  }

  ghost predicate HeaderIs(line: string, name: string) {
    exists inner :: line == "[" + inner + "]" && name == TrimSpace(inner)
  }

  ghost predicate AssignmentIs(line: string, key: string, value: string) {
    exists before, after ::
      line == before + "=" + after && '=' !in before && key == TrimSpace(before) && value == TrimSpace(after)
  }

  lemma BracketsAreHeader(line: string)
    requires InBrackets(line)
    ensures HeaderIs(line, TrimSpace(line[1..|line| - 1]))
  {
    assert line == "[" + line[1..|line| - 1] + "]";
  }

  lemma EqualsIsAssignment(line: string, idx: nat)
    requires idx < |line| && line[idx] == '=' && '=' !in line[..idx]
    ensures AssignmentIs(line, TrimSpace(line[..idx]), TrimSpace(line[idx + 1..]))
  {
    assert line == line[..idx] + "=" + line[idx + 1..];
  }

  // A line is blank or a comment, a header in brackets, an assignment cut at its first '=', or none of these.
  lemma KindIs(raw: string)
    ensures var line := TrimSpace(raw);
            match KindOf(raw)
            case Skip => Skipped(line)
            case Header(name) => !Skipped(line) && HeaderIs(line, name)
            case Assign(key, value) => !Skipped(line) && !InBrackets(line) && AssignmentIs(line, key, value)
            case Other(text) => !Skipped(line) && !InBrackets(line) && '=' !in line && text == line
  {
    var line := TrimSpace(raw);
    if InBrackets(line) {
      BracketsAreHeader(line);
    } else if FirstIndex(line, '=') >= 0 {
      EqualsIsAssignment(line, FirstIndex(line, '='));
    }
  }
}
