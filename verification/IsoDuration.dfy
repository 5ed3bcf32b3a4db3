/**
 ISO 8601 durations to Go durations (internal/provider/azure/client.go, iso8601DurationToGo).

 The input is the value after strings.TrimSpace and strings.ToUpper. A duration is read as blocks of digits
 and a unit letter.
 */
module IsoDuration {
  import opened Int64
  import opened Strconv
  import opened Text
  import opened Wrappers

  // ---------------------------------------------------------------- consumeISOPart

  // Start of the run of digits that ends before idx.
  function RunStart(s: string, idx: nat): (start: nat)
    requires idx <= |s|
    ensures start <= idx && AllDigits(s[start..idx])
    ensures start == 0 || !IsDigit(s[start - 1])
  {
    if idx > 0 && IsDigit(s[idx - 1]) then
      var start := RunStart(s, idx - 1);
      assert s[start..idx] == s[start..idx - 1] + [s[idx - 1]];
      start
    else idx
  }

  lemma {:induction false} RunStartIs(s: string, idx: nat, start: nat)
    requires start <= idx <= |s| && AllDigits(s[start..idx])
    requires start == 0 || !IsDigit(s[start - 1])
    ensures RunStart(s, idx) == start
  {
    if start == idx {
    } else {
      assert s[start..idx][idx - 1 - start] == s[idx - 1];
      assert s[start..idx - 1] == s[start..idx][..idx - 1 - start];
      RunStartIs(s, idx - 1, start);
    }
  }

  // The digits before the first marker, and the input without them and the marker.
  function Consume(input: string, marker: char): Option<(nat, string)> {
    var idx := FirstIndex(input, marker);
    if idx < 0 then Some((0, input))
    else
      var start := RunStart(input, idx);
      if start == idx || Value(input[start..idx]) > MAX_INT64 then None
      else Some((Value(input[start..idx]), input[..start] + input[idx + 1..]))
  }

  method ConsumeIsoPart(input: string, marker: char) returns (part: Option<(nat, string)>)
    requires !IsDigit(marker)
    ensures part == Consume(input, marker)
  {
    var idx := FirstIndex(input, marker);
    if idx < 0 {
      return Some((0, input));
    }
    var start := idx - 1;
    while start >= 0 && IsDigit(input[start])
      invariant -1 <= start < idx
      invariant RunStart(input, start + 1) == RunStart(input, idx)
    {
      start := start - 1;
    }
    start := start + 1;
    if start == idx {
      return None;
    }
    var digits := input[start..idx];
    assert IsDigit(digits[0]) && digits[0] == input[start];
    var (amount, ok) := Atoi(digits);
    if !ok {
      return None;
    }
    return Some((amount, input[..start] + input[idx + 1..]));
  }

  predicate EndsInDigit(s: string) {
    s != "" && IsDigit(s[|s| - 1])
  }

  // The first marker, with the digits before it, is taken out.
  lemma ConsumeAround(left: string, digits: string, marker: char, right: string)
    requires digits != "" && AllDigits(digits) && !IsDigit(marker)
    requires marker !in left && !EndsInDigit(left)
    ensures Consume(left + digits + [marker] + right, marker) ==
            if Value(digits) > MAX_INT64 then None else Some((Value(digits), left + right))
  {
    var input := left + digits + [marker] + right;
    var start, idx := |left|, |left| + |digits|;
    assert input[..idx] == left + digits;
    FirstIndexIs(input, marker, idx);
    assert input[start..idx] == digits;
    assert start > 0 ==> input[start - 1] == left[|left| - 1];
    RunStartIs(input, idx, start);
    assert input[..start] == left && input[idx + 1..] == right;
  }

  // And this is the only way to consume a marker that occurs.
  lemma ConsumeSplit(input: string, marker: char) returns (left: string, digits: string, right: string)
    requires marker in input && Consume(input, marker).Some?
    ensures input == left + digits + [marker] + right
    ensures digits != "" && AllDigits(digits) && !EndsInDigit(left) && Value(digits) <= MAX_INT64
    ensures Consume(input, marker) == Some((Value(digits), left + right))
  {
    var idx := FirstIndex(input, marker);
    var start := RunStart(input, idx);
    left, digits, right := input[..start], input[start..idx], input[idx + 1..];
    assert input == left + digits + [marker] + right;
  }

  // ---------------------------------------------------------------- blocks of digits and a unit

  datatype Block = Block(digits: string, unit: char)

  predicate IsBlock(b: Block) {
    b.digits != "" && AllDigits(b.digits) && !IsDigit(b.unit)
  }

  predicate AreBlocks(bs: seq<Block>) {
    forall i :: 0 <= i < |bs| ==> IsBlock(bs[i])
  }

  function TextOf(bs: seq<Block>): string {
    if bs == [] then "" else bs[0].digits + [bs[0].unit] + TextOf(bs[1..])
  }

  lemma {:induction false} TextOfAppend(a: seq<Block>, b: seq<Block>)
    ensures TextOf(a + b) == TextOf(a) + TextOf(b)
  {
    if a == [] {
      assert a + b == b;
    } else {
      assert (a + b)[1..] == a[1..] + b;
      TextOfAppend(a[1..], b);
    }
  }

  lemma TextAround(a: seq<Block>, b: Block, c: seq<Block>)
    ensures TextOf(a + [b] + c) == TextOf(a) + b.digits + [b.unit] + TextOf(c)
  {
    assert a + [b] + c == a + ([b] + c);
    TextOfAppend(a, [b] + c);
    assert ([b] + c)[1..] == c;
  }

  lemma {:induction false} TextEndsInUnit(bs: seq<Block>)
    requires AreBlocks(bs)
    ensures !EndsInDigit(TextOf(bs))
  {
    if bs == [] {
    } else {
      TextEndsInUnit(bs[1..]);
    }
  }

  // A cut of the text that does not follow a digit falls between two blocks.
  lemma {:induction false} CutBetweenBlocks(bs: seq<Block>, left: string, right: string)
    returns (a: seq<Block>, c: seq<Block>)
    requires AreBlocks(bs) && TextOf(bs) == left + right && !EndsInDigit(left)
    ensures bs == a + c && TextOf(a) == left && TextOf(c) == right
  {
    if left == "" {
      assert left + right == right && [] + bs == bs;
      return [], bs;
    }
    var n := |bs[0].digits|;
    var first := bs[0].digits + [bs[0].unit];
    CutAfterUnit(first, TextOf(bs[1..]), left, right);
    var j, c' := CutBetweenBlocks(bs[1..], left[n + 1..], right);
    a, c := [bs[0]] + j, c';
    assert a[1..] == j;
  }

  lemma CutAfterUnit(first: string, tail: string, left: string, right: string)
    requires first != "" && AllDigits(first[..|first| - 1]) && first + tail == left + right
    requires left != "" && !EndsInDigit(left)
    ensures |first| <= |left| && left == first + left[|first|..] && tail == left[|first|..] + right
  {
    var text := first + tail;
    if |left| < |first| {
      LastIsDigit(first, tail, left, right);
    } else {
      assert left == text[..|left|] && first == text[..|first|];
      assert tail == text[|first|..] == (left + right)[|first|..];
    }
  }

  lemma LastIsDigit(first: string, tail: string, left: string, right: string)
    requires first != "" && AllDigits(first[..|first| - 1]) && first + tail == left + right
    requires 0 < |left| < |first|
    ensures EndsInDigit(left)
  {
    assert left[|left| - 1] == (left + right)[|left| - 1] == first[..|first| - 1][|left| - 1];
  }

  // Consuming a unit takes its first block away.
  lemma ConsumeBlock(a: seq<Block>, b: Block, c: seq<Block>)
    requires AreBlocks(a) && IsBlock(b)
    requires forall i :: 0 <= i < |a| ==> a[i].unit != b.unit
    ensures Consume(TextOf(a + [b] + c), b.unit) ==
            if Value(b.digits) > MAX_INT64 then None else Some((Value(b.digits), TextOf(a + c)))
  {
    TextAround(a, b, c);
    UnitNotInText(a, b.unit);
    TextEndsInUnit(a);
    ConsumeAround(TextOf(a), b.digits, b.unit, TextOf(c));
    TextOfAppend(a, c);
  }

  lemma {:induction false} UnitNotInText(bs: seq<Block>, unit: char)
    requires AreBlocks(bs) && !IsDigit(unit)
    requires forall i :: 0 <= i < |bs| ==> bs[i].unit != unit
    ensures unit !in TextOf(bs)
  {
    if bs == [] {
    } else {
      UnitNotInText(bs[1..], unit);
    }
  }

  // What consuming took out can be put back as one block between others.
  lemma Unconsume(input: string, unit: char, rest: seq<Block>) returns (a: seq<Block>, b: Block, c: seq<Block>)
    requires AreBlocks(rest) && !IsDigit(unit) && unit in input
    requires Consume(input, unit).Some? && Consume(input, unit).value.1 == TextOf(rest)
    ensures rest == a + c && IsBlock(b) && b.unit == unit && TextOf(a + [b] + c) == input
    ensures Value(b.digits) == Consume(input, unit).value.0 <= MAX_INT64
  {
    var left, digits, right := ConsumeSplit(input, unit);
    a, c := CutBetweenBlocks(rest, left, right);
    b := Block(digits, unit);
    TextAround(a, b, c);
  }

  // ---------------------------------------------------------------- the units in turn

  // Total of a unit's blocks.
  function AmountOf(bs: seq<Block>, unit: char): nat
    requires AreBlocks(bs)
  {
    if bs == [] then 0
    else (if bs[0].unit == unit then Value(bs[0].digits) else 0) + AmountOf(bs[1..], unit)
  }

  lemma {:induction false} AmountAppend(a: seq<Block>, b: seq<Block>, unit: char)
    requires AreBlocks(a) && AreBlocks(b)
    ensures AmountOf(a + b, unit) == AmountOf(a, unit) + AmountOf(b, unit)
  {
    if a == [] {
      assert a + b == b;
    } else {
      assert (a + b)[1..] == a[1..] + b;
      AmountAppend(a[1..], b, unit);
    }
  }

  lemma AmountAround(a: seq<Block>, b: Block, c: seq<Block>, unit: char)
    requires AreBlocks(a) && IsBlock(b) && AreBlocks(c)
    ensures AmountOf(a + [b] + c, unit) == AmountOf(a + c, unit) + if b.unit == unit then Value(b.digits) else 0
  {
    AmountAppend(a, c, unit);
    AmountAppend(a + [b], c, unit);
    AmountAppend(a, [b], unit);
    assert [b][1..] == [];
  }

  lemma {:induction false} NoAmount(bs: seq<Block>, unit: char)
    requires AreBlocks(bs) && forall i :: 0 <= i < |bs| ==> bs[i].unit != unit
    ensures AmountOf(bs, unit) == 0
  {
    if bs == [] {
    } else {
      NoAmount(bs[1..], unit);
    }
  }

  // Blocks in range, at most one of each unit, and all of these units.
  predicate Once(bs: seq<Block>, units: string) {
    && AreBlocks(bs)
    && (forall i :: 0 <= i < |bs| ==> bs[i].unit in units && Value(bs[i].digits) <= MAX_INT64)
    && (forall i, j :: 0 <= i < j < |bs| ==> bs[i].unit != bs[j].unit)
  }

  predicate Units(units: string) {
    && (forall i :: 0 <= i < |units| ==> !IsDigit(units[i]))
    && (forall i, j :: 0 <= i < j < |units| ==> units[i] != units[j])
  }

  // The loop over the units: the amount of each, and what is left of the text.
  function ConsumeAll(text: string, units: string): Option<(seq<nat>, string)> {
    if units == "" then Some(([], text))
    else match Consume(text, units[0])
      case None => None
      case Some((n, rest)) =>
        match ConsumeAll(rest, units[1..])
        case None => None
        case Some((ns, end)) => Some(([n] + ns, end))
  }

  function AmountsOf(bs: seq<Block>, units: string): seq<nat>
    requires AreBlocks(bs)
  {
    if units == "" then [] else [AmountOf(bs, units[0])] + AmountsOf(bs, units[1..])
  }

  lemma {:induction false} AmountsAround(a: seq<Block>, b: Block, c: seq<Block>, units: string)
    requires AreBlocks(a) && IsBlock(b) && AreBlocks(c) && b.unit !in units
    ensures AmountsOf(a + [b] + c, units) == AmountsOf(a + c, units)
  {
    if units == "" {
    } else {
      AmountAround(a, b, c, units[0]);
      AmountsAround(a, b, c, units[1..]);
    }
  }

  lemma TakeOnce(a: seq<Block>, b: Block, c: seq<Block>, units: string)
    requires Once(a + [b] + c, units) && units != "" && b.unit == units[0]
    ensures AreBlocks(a) && AreBlocks(c) && IsBlock(b) && Value(b.digits) <= MAX_INT64
    ensures Once(a + c, units[1..]) && forall i :: 0 <= i < |a + c| ==> (a + c)[i].unit != b.unit
  {
    var all := a + [b] + c;
    assert all[|a|] == b;
    assert forall i :: 0 <= i < |a| ==> a[i] == all[i];
    assert forall i :: 0 <= i < |c| ==> c[i] == all[|a| + 1 + i];
    assert units == [units[0]] + units[1..];
  }

  lemma PutOnce(a: seq<Block>, b: Block, c: seq<Block>, units: string)
    requires units != "" && Units(units) && Once(a + c, units[1..])
    requires b.unit == units[0] && IsBlock(b) && Value(b.digits) <= MAX_INT64
    ensures AreBlocks(a) && AreBlocks(c) && Once(a + [b] + c, units)
    ensures forall i :: 0 <= i < |a + c| ==> (a + c)[i].unit != b.unit
  {
    var all, bs := a + c, a + [b] + c;
    assert forall i :: 0 <= i < |a| ==> a[i] == all[i];
    assert forall i :: 0 <= i < |c| ==> c[i] == all[|a| + i];
    FewerUnits(units);
    AllUnitsBut(all, units);
    PutDistinct(all, b, |a|, bs);
  }

  lemma PutDistinct(all: seq<Block>, b: Block, at: nat, bs: seq<Block>)
    requires at <= |all| && |bs| == |all| + 1
    requires bs == all[..at] + [b] + all[at..]
    requires forall i :: 0 <= i < |all| ==> all[i].unit != b.unit
    requires forall i, j :: 0 <= i < j < |all| ==> all[i].unit != all[j].unit
    ensures forall i, j :: 0 <= i < j < |bs| ==> bs[i].unit != bs[j].unit
  {
    forall i, j | 0 <= i < j < |bs|
      ensures bs[i].unit != bs[j].unit
    {
      var old_i, old_j := if i < at then i else i - 1, if j < at then j else j - 1;
      assert i != at ==> bs[i] == all[old_i];
      assert j != at ==> bs[j] == all[old_j];
      assert bs[at] == b;
      if i != at && j != at { assert all[old_i].unit != all[old_j].unit; }
    }
  }

  lemma NoUnit(bs: seq<Block>, units: string)
    requires units != "" && Once(bs, units) && forall i :: 0 <= i < |bs| ==> bs[i].unit != units[0]
    ensures Once(bs, units[1..])
  {
    assert units == [units[0]] + units[1..];
  }

  lemma FewerUnits(units: string)
    requires units != "" && Units(units)
    ensures Units(units[1..]) && units[0] !in units[1..] && !IsDigit(units[0])
  {
  }

  lemma ConsumeFirstAt(a: seq<Block>, b: Block, c: seq<Block>, units: string)
    requires units != "" && Units(units) && Once(a + [b] + c, units) && b.unit == units[0]
    ensures Once(a + c, units[1..])
    ensures Consume(TextOf(a + [b] + c), units[0]) == Some((AmountOf(a + [b] + c, units[0]), TextOf(a + c)))
    ensures AmountsOf(a + c, units[1..]) == AmountsOf(a + [b] + c, units[1..])
  {
    FewerUnits(units);
    TakeOnce(a, b, c, units);
    assert forall i :: 0 <= i < |a| ==> a[i] == (a + c)[i];
    ConsumeBlock(a, b, c);
    AmountAround(a, b, c, units[0]);
    NoAmount(a + c, units[0]);
    AmountsAround(a, b, c, units[1..]);
  }

  lemma SecondsFirstAt(a: seq<Block>, b: Block, c: seq<Block>, units: string)
    requires units != "" && Once(a + [b] + c, units) && b.unit == units[0]
    ensures AreBlocks(a + c) && SecondsOf(a + [b] + c) ==
            SecondsOf(a + c) + AmountOf(a + [b] + c, units[0]) * UnitSeconds(units[0])
  {
    TakeOnce(a, b, c, units);
    SecondsAmount(a, b, c);
  }

  lemma SecondsAmount(a: seq<Block>, b: Block, c: seq<Block>)
    requires AreBlocks(a) && IsBlock(b) && AreBlocks(c) && forall i :: 0 <= i < |a + c| ==> (a + c)[i].unit != b.unit
    ensures SecondsOf(a + [b] + c) == SecondsOf(a + c) + AmountOf(a + [b] + c, b.unit) * UnitSeconds(b.unit)
  {
    SecondsAround(a, b, c);
    AmountOfOnly(a, b, c);
  }

  lemma AmountOfOnly(a: seq<Block>, b: Block, c: seq<Block>)
    requires AreBlocks(a) && IsBlock(b) && AreBlocks(c) && forall i :: 0 <= i < |a + c| ==> (a + c)[i].unit != b.unit
    ensures AmountOf(a + [b] + c, b.unit) == Value(b.digits)
  {
    AmountAround(a, b, c, b.unit);
    NoAmount(a + c, b.unit);
  }

  // Consuming the first unit of blocks that have each unit once.
  lemma ConsumeFirst(bs: seq<Block>, units: string) returns (rest: seq<Block>)
    requires units != "" && Units(units) && Once(bs, units)
    ensures Once(rest, units[1..])
    ensures Consume(TextOf(bs), units[0]) == Some((AmountOf(bs, units[0]), TextOf(rest)))
    ensures AmountsOf(rest, units[1..]) == AmountsOf(bs, units[1..])
    ensures SecondsOf(bs) == SecondsOf(rest) + AmountOf(bs, units[0]) * UnitSeconds(units[0])
  {
    var u := units[0];
    FewerUnits(units);
    if k :| 0 <= k < |bs| && bs[k].unit == u {
      var a, b, c := bs[..k], bs[k], bs[k + 1..];
      assert bs == a + [b] + c;
      rest := a + c;
      ConsumeFirstAt(a, b, c, units);
      SecondsFirstAt(a, b, c, units);
    } else {
      rest := bs;
      NoUnit(bs, units);
      UnitNotInText(bs, u);
      NoAmount(bs, u);
    }
  }

  lemma {:induction false} ConsumeAllOfOnce(bs: seq<Block>, units: string)
    requires Units(units) && Once(bs, units)
    ensures ConsumeAll(TextOf(bs), units) == Some((AmountsOf(bs, units), ""))
    decreases |units|
  {
    if units == "" {
    } else {
      var rest := ConsumeFirst(bs, units);
      FewerUnits(units);
      ConsumeAllOfOnce(rest, units[1..]);
    }
  }

  // Nothing left over: the text was such blocks, in some order.
  lemma {:induction false} OnceOfConsumeAll(text: string, units: string) returns (bs: seq<Block>)
    requires Units(units) && ConsumeAll(text, units).Some? && ConsumeAll(text, units).value.1 == ""
    ensures Once(bs, units) && TextOf(bs) == text && ConsumeAll(text, units).value.0 == AmountsOf(bs, units)
    decreases |units|
  {
    if units == "" {
      return [];
    }
    var u := units[0];
    FewerUnits(units);
    var rest := OnceOfConsumeAll(Consume(text, u).value.1, units[1..]);
    if u !in text {
      bs := rest;
      AllUnitsBut(rest, units);
      NoAmount(rest, u);
    } else {
      var a, b, c := Unconsume(text, u, rest);
      bs := a + [b] + c;
      PutBackAt(a, b, c, units);
    }
  }

  lemma PutBackAt(a: seq<Block>, b: Block, c: seq<Block>, units: string)
    requires units != "" && Units(units) && Once(a + c, units[1..])
    requires b.unit == units[0] && IsBlock(b) && Value(b.digits) <= MAX_INT64
    ensures Once(a + [b] + c, units)
    ensures AmountsOf(a + [b] + c, units) == [Value(b.digits)] + AmountsOf(a + c, units[1..])
  {
    FewerUnits(units);
    PutOnce(a, b, c, units);
    AmountsBack(a, b, c, units);
  }

  lemma AmountsBack(a: seq<Block>, b: Block, c: seq<Block>, units: string)
    requires AreBlocks(a) && IsBlock(b) && AreBlocks(c)
    requires units != "" && b.unit == units[0] && b.unit !in units[1..]
    requires forall i :: 0 <= i < |a + c| ==> (a + c)[i].unit != b.unit
    ensures AmountsOf(a + [b] + c, units) == [Value(b.digits)] + AmountsOf(a + c, units[1..])
  {
    NoAmount(a + c, units[0]);
    AmountAround(a, b, c, units[0]);
    AmountsAround(a, b, c, units[1..]);
  }

  lemma AllUnitsBut(bs: seq<Block>, units: string)
    requires units != "" && Units(units) && Once(bs, units[1..])
    ensures Once(bs, units) && forall i :: 0 <= i < |bs| ==> bs[i].unit != units[0]
  {
    assert units == [units[0]] + units[1..];
  }

  // ---------------------------------------------------------------- iso8601DurationToGo

  function DayText(days: nat): string {
    if days > 0 then FormatInt(Wrap64(days * 24)) + "h" else ""
  }

  function Piece(n: nat, suffix: char): seq<Block> {
    if n > 0 then [Block(Itoa(n), suffix)] else []
  }

  // The amounts that are not zero, each with its suffix.
  function Pieces(ns: seq<nat>, suffixes: string): seq<Block>
    requires |ns| == |suffixes|
  {
    if ns == [] then [] else Piece(ns[0], suffixes[0]) + Pieces(ns[1..], suffixes[1..])
  }

  predicate AllZero(ns: seq<nat>) {
    forall i :: 0 <= i < |ns| ==> ns[i] == 0
  }

  // Everything before the first T, and everything after it.
  function CutTime(body: string): (string, string) {
    var t := FirstIndex(body, 'T');
    if t < 0 then (body, "") else (body[..t], body[t + 1..])
  }

  function Translate(upper: string): Option<string> {
    if upper == "" || upper[0] != 'P' then None
    else
      var (dayPart, timePart) := CutTime(upper[1..]);
      TranslateParts(dayPart, timePart)
  }

  function TranslateParts(dayPart: string, timePart: string): Option<string> {
    match (ConsumeAll(dayPart, "D"), ConsumeAll(timePart, "HMS"))
    case (Some((ds, dayRest)), Some((ns, timeRest))) =>
      if dayRest == "" && timeRest == "" && |ds| == 1 && |ns| == 3 && !(AllZero(ds) && AllZero(ns)) then
        Some(DayText(ds[0]) + TextOf(Pieces(ns, "hms")))
      else None
    case _ => None
  }

  function Prepend(ns: seq<nat>, more: Option<(seq<nat>, string)>): Option<(seq<nat>, string)> {
    match more
    case None => None
    case Some((ms, rest)) => Some((ns + ms, rest))
  }

  lemma OneUnit(text: string, unit: char)
    ensures ConsumeAll(text, [unit]) ==
            match Consume(text, unit)
            case None => None
            case Some((n, rest)) => Some(([n], rest))
  {
    assert [unit][1..] == "";
    var part := Consume(text, unit);
    if part.Some? { assert [part.value.0] + [] == [part.value.0]; }
  }

  method ParseDays(dayPart: string) returns (days: Option<nat>)
    ensures days.Some? ==> ConsumeAll(dayPart, "D") == Some(([days.value], ""))
    ensures days.None? ==> ConsumeAll(dayPart, "D").None? || ConsumeAll(dayPart, "D").value.1 != ""
  {
    OneUnit(dayPart, 'D');
    if dayPart == "" {
      return Some(0);
    }
    var day := ConsumeIsoPart(dayPart, 'D');
    if day.None? || day.value.1 != "" {
      return None;
    }
    return Some(day.value.0);
  }

  lemma NextUnit(ns: seq<nat>, remaining: string, units: string, i: nat)
    requires i < |units| && |ns| == i
    ensures Prepend(ns, ConsumeAll(remaining, units[i..])) ==
            match Consume(remaining, units[i])
            case None => None
            case Some((n, rest)) => Prepend(ns + [n], ConsumeAll(rest, units[i + 1..]))
  {
    assert units[i..][1..] == units[i + 1..];
    var part := Consume(remaining, units[i]);
    if part.Some? {
      var (n, rest) := part.value;
      var more := ConsumeAll(rest, units[i + 1..]);
      if more.Some? { assert ns + ([n] + more.value.0) == ns + [n] + more.value.0; }
    }
  }

  lemma {:induction false} PiecesAppend(ns: seq<nat>, suffixes: string, n: nat, suffix: char)
    requires |ns| == |suffixes|
    ensures Pieces(ns + [n], suffixes + [suffix]) == Pieces(ns, suffixes) + Piece(n, suffix)
  {
    if ns == [] {
      assert ns + [n] == [n] && suffixes + [suffix] == [suffix] && [n][1..] == [] && [suffix][1..] == [];
    } else {
      var head := Piece(ns[0], suffixes[0]);
      assert (ns + [n])[0] == ns[0] && (suffixes + [suffix])[0] == suffixes[0];
      assert (ns + [n])[1..] == ns[1..] + [n] && (suffixes + [suffix])[1..] == suffixes[1..] + [suffix];
      PiecesAppend(ns[1..], suffixes[1..], n, suffix);
      Concat3(head, Pieces(ns[1..], suffixes[1..]), Piece(n, suffix));
    }
  }

  lemma NextPiece(ns: seq<nat>, n: nat, suffixes: string, i: nat)
    requires i < |suffixes| && |ns| == i
    ensures TextOf(Pieces(ns + [n], suffixes[..i + 1])) ==
            TextOf(Pieces(ns, suffixes[..i])) + if n > 0 then Itoa(n) + [suffixes[i]] else ""
  {
    assert suffixes[..i + 1] == suffixes[..i] + [suffixes[i]];
    PiecesAppend(ns, suffixes[..i], n, suffixes[i]);
    TextOfAppend(Pieces(ns, suffixes[..i]), Piece(n, suffixes[i]));
    assert [Block(Itoa(n), suffixes[i])][1..] == [];
  }

  method Iso8601DurationToGo(upper: string) returns (duration: Option<string>)
    ensures duration == Translate(upper)
  {
    if upper == "" || upper[0] != 'P' {
      return None;
    }
    var (dayPart, timePart) := CutTime(upper[1..]);
    var days := ParseDays(dayPart);
    if days.None? {
      return None;
    }
    var parts: seq<string> := [];
    if days.value > 0 {
      parts := [DayText(days.value)];
    }
    var more: bool;
    ghost var ns: seq<nat>;
    parts, more, ns := ParseTime(timePart, days.value, parts);
    if !more || |parts| == 0 {
      return None;
    }
    return Some(Join(parts, ""));
  }

  lemma PrependNothing(more: Option<(seq<nat>, string)>)
    ensures Prepend([], more) == more
  {
    if more.Some? { assert [] + more.value.0 == more.value.0; }
  }

  // Where the loop over the units stands after the first i of them.
  ghost predicate TimeSoFar(text: string, units: string, suffixes: string, prefix: string,
                            i: nat, remaining: string, parts: seq<string>, ns: seq<nat>)
    requires i <= |units| == |suffixes|
  {
    && |ns| == i
    && ConsumeAll(text, units) == Prepend(ns, ConsumeAll(remaining, units[i..]))
    && Join(parts, "") == prefix + TextOf(Pieces(ns, suffixes[..i]))
    && (parts == [] <==> prefix == "" && AllZero(ns))
  }

  lemma GrowJoin(parts: seq<string>, prefix: string, text: string, piece: string)
    requires Join(parts, "") == prefix + text
    ensures Join(parts + [piece], "") == prefix + (text + piece)
  {
    JoinAppend(parts, "", piece);
    assert prefix + text + "" + piece == prefix + (text + piece);
  }

  lemma TimeStep(text: string, units: string, suffixes: string, prefix: string,
                 i: nat, remaining: string, parts: seq<string>, ns: seq<nat>, amount: nat, rest: string)
    requires i < |units| == |suffixes| && TimeSoFar(text, units, suffixes, prefix, i, remaining, parts, ns)
    requires Consume(remaining, units[i]) == Some((amount, rest))
    ensures var next := if amount > 0 then parts + [Itoa(amount) + [suffixes[i]]] else parts;
            TimeSoFar(text, units, suffixes, prefix, i + 1, rest, next, ns + [amount])
  {
    NextUnit(ns, remaining, units, i);
    NextPiece(ns, amount, suffixes, i);
    AllZeroAppend(ns, amount);
    GrowJoin(parts, prefix, TextOf(Pieces(ns, suffixes[..i])), Itoa(amount) + [suffixes[i]]);
    assert prefix + (TextOf(Pieces(ns, suffixes[..i])) + "") == prefix + TextOf(Pieces(ns, suffixes[..i]));
  }

  // The loop over hours, minutes and seconds; ok if nothing is left of the text.
  method ParseTime(timePart: string, days: nat, dayParts: seq<string>)
    returns (parts: seq<string>, ok: bool, ghost ns: seq<nat>)
    requires Join(dayParts, "") == DayText(days) && (dayParts == [] <==> days == 0)
    ensures ok ==> ConsumeAll(timePart, "HMS") == Some((ns, "")) && |ns| == 3
    ensures ok ==> Join(parts, "") == DayText(days) + TextOf(Pieces(ns, "hms"))
    ensures ok ==> (parts == [] <==> days == 0 && AllZero(ns))
    ensures !ok ==> ConsumeAll(timePart, "HMS").None? || ConsumeAll(timePart, "HMS").value.1 != ""
  {
    var units, suffixes := "HMS", "hms";
    parts, ns := dayParts, [];
    var remaining, i := timePart, 0;
    assert units[0..] == units;
    PrependNothing(ConsumeAll(timePart, units));
    while i < 3
      invariant 0 <= i <= 3 && TimeSoFar(timePart, units, suffixes, DayText(days), i, remaining, parts, ns)
    {
      NextUnit(ns, remaining, units, i);
      var part := ConsumeIsoPart(remaining, units[i]);
      if part.None? {
        return parts, false, ns;
      }
      var (amount, rest) := part.value;
      TimeStep(timePart, units, suffixes, DayText(days), i, remaining, parts, ns, amount, rest);
      remaining := rest;
      if amount > 0 {
        parts := parts + [Itoa(amount) + [suffixes[i]]];
      }
      ns := ns + [amount];
      i := i + 1;
    }
    assert suffixes[..3] == suffixes && units[3..] == "";
    assert ns + [] == ns;
    ok := remaining == "";
  }

  lemma AllZeroAppend(ns: seq<nat>, n: nat)
    ensures AllZero(ns + [n]) <==> AllZero(ns) && n == 0
  {
    assert (ns + [n])[|ns|] == n;
    assert forall i :: 0 <= i < |ns| ==> (ns + [n])[i] == ns[i];
  }

  // ---------------------------------------------------------------- what a duration denotes

  function UnitSeconds(unit: char): nat {
    if unit == 'D' then 86400 else if unit == 'H' || unit == 'h' then 3600
    else if unit == 'M' || unit == 'm' then 60 else if unit == 'S' || unit == 's' then 1 else 0
  }

  function SecondsOf(bs: seq<Block>): nat
    requires AreBlocks(bs)
  {
    if bs == [] then 0 else Value(bs[0].digits) * UnitSeconds(bs[0].unit) + SecondsOf(bs[1..])
  }

  lemma {:induction false} SecondsAppend(a: seq<Block>, b: seq<Block>)
    requires AreBlocks(a) && AreBlocks(b)
    ensures SecondsOf(a + b) == SecondsOf(a) + SecondsOf(b)
  {
    if a == [] {
      assert a + b == b;
    } else {
      assert (a + b)[1..] == a[1..] + b;
      SecondsAppend(a[1..], b);
    }
  }

  // Length of the digits a text starts with.
  function DigitRun(s: string): (n: nat)
    ensures n <= |s| && AllDigits(s[..n]) && (n < |s| ==> !IsDigit(s[n]))
  {
    if s == "" || !IsDigit(s[0]) then 0
    else
      var n := DigitRun(s[1..]);
      assert s[..n + 1] == [s[0]] + s[1..][..n];
      n + 1
  }

  // Reads ([0-9]+ unit)*.
  function ReadBlocks(s: string): (r: Option<seq<Block>>)
    ensures r.Some? ==> AreBlocks(r.value)
    decreases |s|
  {
    var n := DigitRun(s);
    if s == "" then Some([])
    else if n == 0 || n == |s| then None
    else match ReadBlocks(s[n + 1..])
      case None => None
      case Some(bs) => Some([Block(s[..n], s[n])] + bs)
  }

  // A text reads as the blocks it was written from, and only as these.
  lemma {:induction false} ReadText(bs: seq<Block>)
    requires AreBlocks(bs)
    ensures ReadBlocks(TextOf(bs)) == Some(bs)
  {
    if bs == [] {
    } else {
      ReadText(bs[1..]);
      ReadFirst(bs[0], TextOf(bs[1..]));
      assert bs == [bs[0]] + bs[1..];
    }
  }

  lemma ReadFirst(b: Block, tail: string)
    requires IsBlock(b) && ReadBlocks(tail).Some?
    ensures ReadBlocks(b.digits + [b.unit] + tail) == Some([b] + ReadBlocks(tail).value)
  {
    var s, n := b.digits + [b.unit] + tail, |b.digits|;
    assert s[..n] == b.digits && s[n] == b.unit && s[n + 1..] == tail;
    DigitRunIs(s, n);
  }

  lemma {:induction false} DigitRunIs(s: string, n: nat)
    requires n < |s| && AllDigits(s[..n]) && !IsDigit(s[n])
    ensures DigitRun(s) == n
  {
    if n == 0 {
    } else {
      assert s[0] == s[..n][0] && s[1..][..n - 1] == s[..n][1..];
      DigitRunIs(s[1..], n - 1);
    }
  }

  // A Go duration made of whole hours, minutes and seconds stands for this many seconds.
  ghost predicate Denotes(s: string, seconds: int) {
    || (exists bs :: AreBlocks(bs) && s == TextOf(bs) && seconds == SecondsOf(bs))
    || (exists bs :: AreBlocks(bs) && s == "-" + TextOf(bs) && seconds == 0 - SecondsOf(bs))
  }

  lemma DenotesOne(s: string, x: int, y: int)
    requires Denotes(s, x) && Denotes(s, y)
    ensures x == y
  {
    if a, b :| AreBlocks(a) && AreBlocks(b) && s == TextOf(a) == TextOf(b) && x == SecondsOf(a) && y == SecondsOf(b) {
      SameText(a, b);
    } else if a, b :|
      && AreBlocks(a) && AreBlocks(b) && s == "-" + TextOf(a) == "-" + TextOf(b)
      && x == 0 - SecondsOf(a) && y == 0 - SecondsOf(b)
    {
      assert s[1..] == TextOf(a) && s[1..] == TextOf(b);
      SameText(a, b);
    } else {
      var a, b :| AreBlocks(a) && AreBlocks(b) && s == TextOf(a) && s == "-" + TextOf(b);
      NoSign(a, TextOf(b));
    }
  }

  lemma SameText(a: seq<Block>, b: seq<Block>)
    requires AreBlocks(a) && AreBlocks(b) && TextOf(a) == TextOf(b)
    ensures a == b
  {
    ReadText(a);
    ReadText(b);
  }

  lemma NoSign(bs: seq<Block>, t: string)
    requires AreBlocks(bs)
    ensures TextOf(bs) != "-" + t
  {
    assert bs != [] ==> IsDigit(bs[0].digits[0]) && TextOf(bs)[0] == bs[0].digits[0];
  }

  // ---------------------------------------------------------------- what is accepted, and what it means

  // The grammar: P, at most one block of days, and optionally T with at most one block of each of hours,
  // minutes and seconds, in any order; every amount fits an int.
  predicate Written(s: string, days: seq<Block>, timed: bool, time: seq<Block>) {
    && Once(days, "D") && Once(time, "HMS")
    && (timed || time == [])
    && s == "P" + Body(days, timed, time)
  }

  function Body(days: seq<Block>, timed: bool, time: seq<Block>): string {
    BodyText(TextOf(days), timed, TextOf(time))
  }

  function BodyText(dayPart: string, timed: bool, timePart: string): string {
    dayPart + if timed then "T" + timePart else ""
  }

  function Seconds(days: seq<Block>, time: seq<Block>): nat
    requires AreBlocks(days) && AreBlocks(time)
  {
    SecondsOf(days) + SecondsOf(time)
  }

  // Amounts weighed by their units.
  function Weighed(ns: seq<nat>, units: string): nat
    requires |ns| == |units|
  {
    if ns == [] then 0 else ns[0] * UnitSeconds(units[0]) + Weighed(ns[1..], units[1..])
  }

  lemma SecondsAround(a: seq<Block>, b: Block, c: seq<Block>)
    requires AreBlocks(a) && IsBlock(b) && AreBlocks(c)
    ensures SecondsOf(a + [b] + c) == SecondsOf(a + c) + Value(b.digits) * UnitSeconds(b.unit)
  {
    SecondsAppend(a, c);
    SecondsAppend(a + [b], c);
    SecondsAppend(a, [b]);
    assert [b][1..] == [];
  }

  lemma {:induction false} AmountsLength(bs: seq<Block>, units: string)
    requires AreBlocks(bs)
    ensures |AmountsOf(bs, units)| == |units|
  {
    if units == "" {
    } else {
      AmountsLength(bs, units[1..]);
    }
  }

  // The seconds of blocks are the sum over the units.
  lemma {:induction false} SecondsByUnit(bs: seq<Block>, units: string)
    requires Units(units) && Once(bs, units)
    ensures |AmountsOf(bs, units)| == |units| && SecondsOf(bs) == Weighed(AmountsOf(bs, units), units)
    decreases |units|
  {
    AmountsLength(bs, units);
    if units != "" {
      FewerUnits(units);
      var rest := ConsumeFirst(bs, units);
      SecondsByUnit(rest, units[1..]);
    } else {
      NoUnitsNoBlocks(bs, units);
    }
  }

  lemma NoUnitsNoBlocks(bs: seq<Block>, units: string)
    requires units == "" && Once(bs, units)
    ensures bs == [] && SecondsOf(bs) == 0
  {
    ConsumeAllOfOnce(bs, units);
    EmptyText(bs);
  }

  lemma {:induction false} ZeroByUnit(ns: seq<nat>, units: string)
    requires |ns| == |units| && forall i :: 0 <= i < |units| ==> UnitSeconds(units[i]) > 0
    ensures Weighed(ns, units) == 0 <==> AllZero(ns)
  {
    if ns == [] {
    } else {
      ZeroByUnit(ns[1..], units[1..]);
      assert ns == [ns[0]] + ns[1..];
      if AllZero(ns[1..]) && ns[0] == 0 {
        assert forall i :: 0 < i < |ns| ==> ns[i] == ns[1..][i - 1];
      }
      if AllZero(ns) {
        assert forall i :: 0 <= i < |ns| - 1 ==> ns[1..][i] == ns[i + 1];
      }
    }
  }

  lemma {:induction false} SameWeights(ns: seq<nat>, units: string, suffixes: string)
    requires |ns| == |units| == |suffixes|
    requires forall i :: 0 <= i < |units| ==> UnitSeconds(units[i]) == UnitSeconds(suffixes[i])
    ensures Weighed(ns, units) == Weighed(ns, suffixes)
  {
    if ns == [] {
    } else {
      SameWeights(ns[1..], units[1..], suffixes[1..]);
    }
  }

  // Cutting at T recovers the two parts.
  lemma CutWritten(days: seq<Block>, timed: bool, time: seq<Block>)
    requires Each(days, "D") && (timed || time == [])
    ensures CutTime(Body(days, timed, time)) == (TextOf(days), TextOf(time))
  {
    var before, after := TextOf(days), TextOf(time);
    UnitNotInText(days, 'T');
    if timed {
      var body := before + ("T" + after);
      assert body[..|before|] == before && body[|before| + 1..] == after;
      FirstIndexIs(body, 'T', |before|);
    } else {
      assert before + "" == before;
    }
  }

  lemma TranslateBlocks(days: seq<Block>, time: seq<Block>)
    requires Once(days, "D") && Once(time, "HMS")
    ensures |AmountsOf(time, "HMS")| == 3
    ensures TranslateParts(TextOf(days), TextOf(time)) ==
            if Seconds(days, time) == 0 then None
            else Some(DayText(AmountOf(days, 'D')) + TextOf(Pieces(AmountsOf(time, "HMS"), "hms")))
  {
    ConsumeAllOfOnce(days, "D");
    ConsumeAllOfOnce(time, "HMS");
    ZeroIff(days, time);
  }

  lemma ZeroIff(days: seq<Block>, time: seq<Block>)
    requires Once(days, "D") && Once(time, "HMS")
    ensures AmountsOf(days, "D") == [AmountOf(days, 'D')] && |AmountsOf(time, "HMS")| == 3
    ensures Seconds(days, time) == 0 <==> AllZero(AmountsOf(days, "D")) && AllZero(AmountsOf(time, "HMS"))
  {
    SecondsByUnit(days, "D");
    SecondsByUnit(time, "HMS");
    ZeroByUnit(AmountsOf(days, "D"), "D");
    ZeroByUnit(AmountsOf(time, "HMS"), "HMS");
  }

  // What a written duration is translated to.
  lemma TranslateWritten(s: string, days: seq<Block>, timed: bool, time: seq<Block>)
    requires Written(s, days, timed, time)
    ensures |AmountsOf(time, "HMS")| == 3
    ensures Translate(s) ==
            if Seconds(days, time) == 0 then None
            else Some(DayText(AmountOf(days, 'D')) + TextOf(Pieces(AmountsOf(time, "HMS"), "hms")))
  {
    TranslateBlocks(days, time);
    CutWritten(days, timed, time);
    assert s[1..] == Body(days, timed, time);
  }

  // Accepted iff it is written by the grammar and its total is not zero.
  lemma AcceptedIff(s: string)
    ensures Translate(s).Some? <==>
            exists days, timed, time :: Written(s, days, timed, time) && Seconds(days, time) > 0
  {
    if Translate(s).Some? {
      var days, timed, time := ReadWritten(s);
      TranslateWritten(s, days, timed, time);
    }
    if days, timed, time :| Written(s, days, timed, time) && Seconds(days, time) > 0 {
      TranslateWritten(s, days, timed, time);
    }
  }

  lemma ReadWritten(s: string) returns (days: seq<Block>, timed: bool, time: seq<Block>)
    requires Translate(s).Some?
    ensures Written(s, days, timed, time)
  {
    StartsWithP(s);
    days, timed, time := ReadBody(s[1..]);
  }

  lemma StartsWithP(s: string)
    requires Translate(s).Some?
    ensures s != "" && s == "P" + s[1..] && TranslateParts(CutTime(s[1..]).0, CutTime(s[1..]).1).Some?
  {
  }

  lemma ReadBody(body: string) returns (days: seq<Block>, timed: bool, time: seq<Block>)
    requires TranslateParts(CutTime(body).0, CutTime(body).1).Some?
    ensures Once(days, "D") && Once(time, "HMS") && (timed || time == []) && body == Body(days, timed, time)
  {
    timed := FirstIndex(body, 'T') >= 0;
    days, time := ReadParts(CutTime(body).0, CutTime(body).1);
    CutJoins(body);
    if !timed { EmptyText(time); }
  }

  lemma ReadParts(dayPart: string, timePart: string) returns (days: seq<Block>, time: seq<Block>)
    requires TranslateParts(dayPart, timePart).Some?
    ensures Once(days, "D") && Once(time, "HMS") && TextOf(days) == dayPart && TextOf(time) == timePart
  {
    assert ConsumeAll(dayPart, "D").Some? && ConsumeAll(dayPart, "D").value.1 == "";
    assert ConsumeAll(timePart, "HMS").Some? && ConsumeAll(timePart, "HMS").value.1 == "";
    days := ReadAll(dayPart, "D");
    time := ReadAll(timePart, "HMS");
  }

  lemma ReadAll(text: string, units: string) returns (bs: seq<Block>)
    requires units == "D" || units == "HMS"
    requires ConsumeAll(text, units).Some? && ConsumeAll(text, units).value.1 == ""
    ensures Once(bs, units) && TextOf(bs) == text
  {
    bs := OnceOfConsumeAll(text, units);
  }

  lemma SplitAt(s: string, i: nat, c: char)
    requires i < |s| && s[i] == c
    ensures s == s[..i] + ([c] + s[i + 1..])
  {
  }

  lemma CutJoins(body: string)
    ensures body == BodyText(CutTime(body).0, FirstIndex(body, 'T') >= 0, CutTime(body).1)
    ensures FirstIndex(body, 'T') < 0 ==> CutTime(body).1 == ""
  {
    var t := FirstIndex(body, 'T');
    if t >= 0 { SplitAt(body, t, 'T'); }
  }

  lemma EmptyText(bs: seq<Block>)
    requires TextOf(bs) == ""
    ensures bs == []
  {
  }

  lemma {:induction false} SecondsOfPieces(ns: seq<nat>, suffixes: string)
    requires |ns| == |suffixes| && forall i :: 0 <= i < |suffixes| ==> !IsDigit(suffixes[i])
    ensures AreBlocks(Pieces(ns, suffixes)) && SecondsOf(Pieces(ns, suffixes)) == Weighed(ns, suffixes)
  {
    if ns == [] {
    } else {
      SecondsOfPieces(ns[1..], suffixes[1..]);
      SecondsOfPiece(ns[0], suffixes[0]);
      SecondsAppend(Piece(ns[0], suffixes[0]), Pieces(ns[1..], suffixes[1..]));
    }
  }

  lemma SecondsOfPiece(n: nat, suffix: char)
    requires !IsDigit(suffix)
    ensures AreBlocks(Piece(n, suffix)) && SecondsOf(Piece(n, suffix)) == n * UnitSeconds(suffix)
  {
    ItoaRoundTrip(n);
    assert [Block(Itoa(n), suffix)][1..] == [];
  }

  // What the text of a signed number of hours followed by other blocks denotes.
  lemma HoursDenote(hours: int, rest: seq<Block>)
    requires AreBlocks(rest)
    ensures Denotes(FormatInt(hours) + "h" + TextOf(rest),
                    if hours < 0 then hours * 3600 - SecondsOf(rest) else hours * 3600 + SecondsOf(rest))
  {
    var size := if hours < 0 then -hours else hours;
    ItoaRoundTrip(size);
    var bs := [Block(Itoa(size), 'h')] + rest;
    assert bs[1..] == rest;
    assert TextOf(bs) == Itoa(size) + ['h'] + TextOf(rest);
    assert SecondsOf(bs) == size * 3600 + SecondsOf(rest);
    if hours < 0 { Signed(Itoa(size), TextOf(rest)); }
  }

  lemma Signed(digits: string, rest: string)
    ensures "-" + digits + "h" + rest == "-" + (digits + ['h'] + rest)
  {
  }

  // Wrapped hours keep their meaning only if they did not wrap.
  lemma HoursMeanIff(hours: int, wrapped: int, rest: seq<Block>)
    requires AreBlocks(rest) && hours > 0 && wrapped == Wrap64(hours)
    ensures Denotes(FormatInt(wrapped) + "h" + TextOf(rest), hours * 3600 + SecondsOf(rest)) <==> hours <= MAX_INT64
  {
    WrapInRange(hours);
    HoursDenote(wrapped, rest);
    var text := FormatInt(wrapped) + "h" + TextOf(rest);
    if Denotes(text, hours * 3600 + SecondsOf(rest)) {
      DenotesOne(text, hours * 3600 + SecondsOf(rest),
                 if wrapped < 0 then wrapped * 3600 - SecondsOf(rest) else wrapped * 3600 + SecondsOf(rest));
    }
  }

  lemma DaysMeanIff(d: nat, rest: seq<Block>, total: nat)
    requires AreBlocks(rest) && total == 86400 * d + SecondsOf(rest)
    ensures Denotes(DayText(d) + TextOf(rest), total) <==> d * 24 <= MAX_INT64
  {
    if d > 0 {
      HoursMeanIff(d * 24, Wrap64(d * 24), rest);
    } else {
      assert DayText(d) + TextOf(rest) == TextOf(rest);
    }
  }

  lemma TimeKept(time: seq<Block>) returns (rest: seq<Block>)
    requires Once(time, "HMS")
    ensures |AmountsOf(time, "HMS")| == 3 && rest == Pieces(AmountsOf(time, "HMS"), "hms")
    ensures AreBlocks(rest) && SecondsOf(rest) == SecondsOf(time)
  {
    SecondsByUnit(time, "HMS");
    var ns := AmountsOf(time, "HMS");
    SameWeights(ns, "HMS", "hms");
    SecondsOfPieces(ns, "hms");
    rest := Pieces(ns, "hms");
  }

  lemma DaysKept(days: seq<Block>)
    requires Once(days, "D")
    ensures SecondsOf(days) == 86400 * AmountOf(days, 'D')
  {
    SecondsByUnit(days, "D");
    assert AmountsOf(days, "D")[1..] == [];
  }

  // The translation denotes the same number of seconds exactly when the days still fit an int as hours.
  lemma MeaningKeptIff(s: string, days: seq<Block>, timed: bool, time: seq<Block>)
    requires Written(s, days, timed, time) && Seconds(days, time) > 0
    ensures Translate(s).Some?
    ensures Denotes(Translate(s).value, Seconds(days, time)) <==> AmountOf(days, 'D') * 24 <= MAX_INT64
  {
    TranslateWritten(s, days, timed, time);
    OutputMeansIff(days, time);
  }

  lemma OutputMeansIff(days: seq<Block>, time: seq<Block>)
    requires Once(days, "D") && Once(time, "HMS")
    ensures |AmountsOf(time, "HMS")| == 3
    ensures Denotes(DayText(AmountOf(days, 'D')) + TextOf(Pieces(AmountsOf(time, "HMS"), "hms")), Seconds(days, time))
            <==> AmountOf(days, 'D') * 24 <= MAX_INT64
  {
    DaysKept(days);
    var rest := TimeKept(time);
    DaysMeanIff(AmountOf(days, 'D'), rest, Seconds(days, time));
  }

  // ---------------------------------------------------------------- RFC 3339, Appendix A

  // Digits and the first unit, then nothing or the following units: dur-hour, dur-minute, dur-second.
  ghost predicate Chain(s: string, units: string)
    decreases |units|
  {
    units != "" && exists k ::
      && 0 < k < |s| && AllDigits(s[..k]) && s[k] == units[0]
      && (s[k + 1..] == "" || Chain(s[k + 1..], units[1..]))
  }

  ghost predicate DurTime(s: string) {
    s != "" && s[0] == 'T' && (Chain(s[1..], "HMS") || Chain(s[1..], "MS") || Chain(s[1..], "S"))
  }

  ghost predicate DurDay(s: string) {
    exists k :: 0 < k < |s| && AllDigits(s[..k]) && s[k] == 'D' && (s[k + 1..] == "" || DurTime(s[k + 1..]))
  }

  // duration without years, months and weeks.
  ghost predicate DurationText(s: string) {
    s != "" && s[0] == 'P' && (DurDay(s[1..]) || DurTime(s[1..]))
  }

  // Once, whatever the size of the amounts.
  predicate Each(bs: seq<Block>, units: string) {
    && AreBlocks(bs)
    && (forall i :: 0 <= i < |bs| ==> bs[i].unit in units)
    && (forall i, j :: 0 <= i < j < |bs| ==> bs[i].unit != bs[j].unit)
  }

  predicate Fits(bs: seq<Block>)
    requires AreBlocks(bs)
  {
    forall i :: 0 <= i < |bs| ==> Value(bs[i].digits) <= MAX_INT64
  }

  // The blocks have these units, as far as there are blocks.
  predicate InTurn(bs: seq<Block>, units: string) {
    && AreBlocks(bs) && 0 < |bs| <= |units|
    && forall i :: 0 <= i < |bs| ==> bs[i].unit == units[i]
  }

  lemma {:induction false} ReadChain(s: string, units: string) returns (bs: seq<Block>)
    requires Units(units) && Chain(s, units)
    ensures InTurn(bs, units) && TextOf(bs) == s
    decreases |units|
  {
    var k :|
      && 0 < k < |s| && AllDigits(s[..k]) && s[k] == units[0]
      && (s[k + 1..] == "" || Chain(s[k + 1..], units[1..]));
    FewerUnits(units);
    var b := Block(s[..k], s[k]);
    BlockFirst(s, k);
    if s[k + 1..] == "" {
      bs := [b];
      OneBlock(b);
    } else {
      var rest := ReadChain(s[k + 1..], units[1..]);
      bs := [b] + rest;
      ConsInTurn(b, rest, units);
    }
  }

  lemma ConsInTurn(b: Block, rest: seq<Block>, units: string)
    requires units != "" && IsBlock(b) && b.unit == units[0] && InTurn(rest, units[1..])
    ensures InTurn([b] + rest, units) && TextOf([b] + rest) == b.digits + [b.unit] + TextOf(rest)
  {
    var bs := [b] + rest;
    assert bs[1..] == rest;
    assert forall i :: 1 <= i < |bs| ==> bs[i] == rest[i - 1] && units[i] == units[1..][i - 1];
  }

  lemma {:induction false} WriteChain(bs: seq<Block>, units: string)
    requires InTurn(bs, units)
    ensures Chain(TextOf(bs), units)
    decreases |units|
  {
    var s, k := TextOf(bs), |bs[0].digits|;
    assert s[..k] == bs[0].digits && s[k] == units[0] && s[k + 1..] == TextOf(bs[1..]);
    if |bs| == 1 {
      assert s[k + 1..] == "";
    } else {
      WriteChain(bs[1..], units[1..]);
    }
  }

  lemma ChainIff(bs: seq<Block>, units: string)
    requires AreBlocks(bs) && Units(units)
    ensures Chain(TextOf(bs), units) <==> InTurn(bs, units)
  {
    if Chain(TextOf(bs), units) {
      var read := ReadChain(TextOf(bs), units);
      SameText(bs, read);
    }
    if InTurn(bs, units) {
      WriteChain(bs, units);
    }
  }

  // Hours are followed by minutes and minutes by seconds, and nothing else follows anything.
  predicate NoGaps(time: seq<Block>) {
    forall i :: 0 < i < |time| ==>
      || (time[i - 1].unit == 'H' && time[i].unit == 'M')
      || (time[i - 1].unit == 'M' && time[i].unit == 'S')
  }

  lemma NoGapsIff(time: seq<Block>)
    requires Each(time, "HMS") && time != []
    ensures NoGaps(time) <==> InTurn(time, "HMS") || InTurn(time, "MS") || InTurn(time, "S")
  {
    if NoGaps(time) {
      NoFourth(time);
      FirstUnit(time);
      if |time| > 1 { NextInOrder(time, 1); }
      if |time| > 2 { NextInOrder(time, 2); }
    }
  }

  lemma FirstUnit(time: seq<Block>)
    requires Each(time, "HMS") && time != []
    ensures time[0].unit == 'H' || time[0].unit == 'M' || time[0].unit == 'S'
  {
    assert time[0].unit in "HMS";
  }

  lemma NextInOrder(time: seq<Block>, i: nat)
    requires NoGaps(time) && 0 < i < |time|
    ensures || (time[i - 1].unit == 'H' && time[i].unit == 'M')
            || (time[i - 1].unit == 'M' && time[i].unit == 'S')
  {
  }

  lemma NoFourth(time: seq<Block>)
    requires NoGaps(time)
    ensures |time| <= 3
  {
    if |time| > 3 {
      NextInOrder(time, 1);
      NextInOrder(time, 2);
      NextInOrder(time, 3);
    }
  }

  lemma DurTimeIff(time: seq<Block>)
    requires Each(time, "HMS")
    ensures DurTime("T" + TextOf(time)) <==> time != [] && NoGaps(time)
  {
    assert ("T" + TextOf(time))[1..] == TextOf(time);
    ChainIff(time, "HMS");
    ChainIff(time, "MS");
    ChainIff(time, "S");
    if time != [] { NoGapsIff(time); }
  }

  lemma ReadTime(s: string) returns (time: seq<Block>)
    requires DurTime(s)
    ensures Each(time, "HMS") && time != [] && s == "T" + TextOf(time)
  {
    assert s == "T" + s[1..];
    if Chain(s[1..], "HMS") {
      time := ReadChain(s[1..], "HMS");
    } else if Chain(s[1..], "MS") {
      time := ReadChain(s[1..], "MS");
    } else {
      time := ReadChain(s[1..], "S");
    }
  }

  lemma ReadDay(s: string) returns (days: seq<Block>, timed: bool, time: seq<Block>)
    requires DurDay(s)
    ensures Each(days, "D") && Each(time, "HMS") && (timed <==> time != []) && days != []
    ensures s == Body(days, timed, time) && (timed ==> DurTime("T" + TextOf(time)))
  {
    var k :| 0 < k < |s| && AllDigits(s[..k]) && s[k] == 'D' && (s[k + 1..] == "" || DurTime(s[k + 1..]));
    days, timed, time := [Block(s[..k], 'D')], false, [];
    BlockFirst(s, k);
    OneBlock(days[0]);
    if s[k + 1..] != "" {
      timed := true;
      time := ReadTime(s[k + 1..]);
    }
  }

  lemma BlockFirst(s: string, k: nat)
    requires k < |s|
    ensures s == s[..k] + [s[k]] + s[k + 1..]
  {
  }

  lemma OneBlock(b: Block)
    ensures TextOf([b]) == b.digits + [b.unit]
  {
    assert [b][1..] == [];
  }

  lemma ReadDuration(s: string) returns (days: seq<Block>, timed: bool, time: seq<Block>)
    requires DurationText(s)
    ensures Each(days, "D") && Each(time, "HMS") && (timed <==> time != []) && (days != [] || timed)
    ensures s == "P" + Body(days, timed, time) && (timed ==> DurTime("T" + TextOf(time)))
  {
    assert s == "P" + s[1..];
    if DurDay(s[1..]) {
      days, timed, time := ReadDay(s[1..]);
    } else {
      days, timed := [], true;
      time := ReadTime(s[1..]);
      assert "" + s[1..] == s[1..];
    }
  }

  // Every duration of the appendix made of days and times is written by the grammar, so it is accepted
  // whenever its amounts fit an int and it is not zero.
  lemma DurationTextAccepted(s: string) returns (days: seq<Block>, timed: bool, time: seq<Block>)
    requires DurationText(s)
    ensures Each(days, "D") && Each(time, "HMS") && (timed || time == []) && s == "P" + Body(days, timed, time)
    ensures Fits(days) && Fits(time) ==> (Translate(s).Some? <==> Seconds(days, time) > 0)
  {
    days, timed, time := ReadDuration(s);
    if Fits(days) && Fits(time) {
      TranslateWritten(s, days, timed, time);
    }
  }

  // A body is written from one choice of blocks only.
  lemma SameBody(days: seq<Block>, timed: bool, time: seq<Block>, days': seq<Block>, timed': bool, time': seq<Block>)
    requires Each(days, "D") && Each(time, "HMS") && (timed || time == [])
    requires Each(days', "D") && Each(time', "HMS") && (timed' || time' == [])
    requires Body(days, timed, time) == Body(days', timed', time')
    ensures days == days' && timed == timed' && time == time'
  {
    CutWritten(days, timed, time);
    CutWritten(days', timed', time');
    SameText(days, days');
    SameText(time, time');
    var before := TextOf(days);
    assert |before + "T" + TextOf(time)| > |before|;
  }

  // And conversely: what the grammar writes is a duration of the appendix exactly when something follows P,
  // something follows T, and the units of the time leave no gap and are in order.
  lemma DurationTextIff(s: string, days: seq<Block>, timed: bool, time: seq<Block>)
    requires Written(s, days, timed, time)
    ensures DurationText(s) <==> (days != [] || timed) && (timed ==> time != []) && NoGaps(time)
  {
    assert s[1..] == Body(days, timed, time);
    DurTimeIff(time);
    if DurationText(s) {
      var days', timed', time' := ReadDuration(s);
      assert s[1..] == Body(days', timed', time');
      SameBody(days, timed, time, days', timed', time');
    }
    if (days != [] || timed) && (timed ==> time != []) && NoGaps(time) {
      WriteDuration(days, timed, time);
    }
  }

  lemma WriteDuration(days: seq<Block>, timed: bool, time: seq<Block>)
    requires Once(days, "D") && (days != [] || timed) && (timed || time == [])
    requires timed ==> DurTime("T" + TextOf(time))
    ensures DurationText("P" + Body(days, timed, time))
  {
    var body, rest := Body(days, timed, time), if timed then "T" + TextOf(time) else "";
    assert ("P" + body)[1..] == body;
    if days == [] {
      assert body == rest;
    } else {
      OnlyDays(days);
      var k := |days[0].digits|;
      assert body == days[0].digits + [days[0].unit] + rest;
      assert body[..k] == days[0].digits && body[k] == 'D' && body[k + 1..] == rest;
      assert DurDay(body);
    }
  }

  lemma OnlyDays(days: seq<Block>)
    requires Once(days, "D") && days != []
    ensures days == [days[0]] && days[0].unit == 'D' && TextOf(days) == days[0].digits + ['D']
  {
    assert forall i :: 0 <= i < |days| ==> days[i].unit == 'D';
    if |days| > 1 { DistinctUnits(days, 0, 1); }
    OneBlock(days[0]);
  }

  lemma DistinctUnits(bs: seq<Block>, i: nat, j: nat)
    requires i < j < |bs| && forall i, j :: 0 <= i < j < |bs| ==> bs[i].unit != bs[j].unit
    ensures bs[i].unit != bs[j].unit
  {
  }

  // So more is accepted than the appendix has.
  lemma EmptyTimeAccepted() returns (s: string)
    ensures s == "P1DT" && Translate(s).Some? && !DurationText(s)
  {
    s := BareT(Block("1", 'D'));
  }

  // Days and a T with nothing after it.
  lemma BareT(day: Block) returns (s: string)
    requires IsBlock(day) && day.unit == 'D' && 0 < Value(day.digits) <= MAX_INT64
    ensures s == "P" + (day.digits + ['D'] + "T") && Translate(s).Some? && !DurationText(s)
  {
    var days: seq<Block>, time: seq<Block> := [day], [];
    OneBlock(day);
    assert Body(days, true, time) == day.digits + ['D'] + "T";
    s := "P" + Body(days, true, time);
    TranslateWritten(s, days, true, time);
    DurationTextIff(s, days, true, time);
    assert SecondsOf(days) == Value(day.digits) * 86400 + SecondsOf(days[1..]);
  }
}
