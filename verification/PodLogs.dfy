/**
 Log search with context (internal/provider/kubernetes/pod_logs.go, extractLogContext).

 `lower` is strings.ToLower. A window is the half-open range of lines around one match.
 */
module PodLogs {
  import opened Wrappers

  predicate OccursAt(s: string, sub: string, i: int) {
    0 <= i <= |s| - |sub| && s[i..i + |sub|] == sub
  }

  // strings.Contains
  predicate Contains(s: string, sub: string) {
    exists i :: 0 <= i <= |s| && OccursAt(s, sub, i)
  }

  predicate Matches(lines: seq<string>, keyword: string, lower: string -> string, i: int) {
    0 <= i < |lines| && Contains(lower(lines[i]), lower(keyword))
  }

  // ---------------------------------------------------------------- what the caller is promised

  // The line is within `half` lines of some match.
  predicate Near(lines: seq<string>, keyword: string, lower: string -> string, half: nat, i: int) {
    exists m :: 0 <= m < |lines| && i - half <= m <= i + half && Matches(lines, keyword, lower, m)
  }

  // Indices below n of the lines near a match, in order.
  function NearIndices(lines: seq<string>, keyword: string, lower: string -> string, half: nat, n: nat): seq<int> {
    if n == 0 then []
    else
      NearIndices(lines, keyword, lower, half, n - 1)
      + if Near(lines, keyword, lower, half, n - 1) then [n - 1] else []
  }

  predicate Within(idx: seq<int>, n: nat) {
    forall k :: 0 <= k < |idx| ==> 0 <= idx[k] < n
  }

  function LinesAt(lines: seq<string>, idx: seq<int>): seq<string>
    requires Within(idx, |lines|)
  {
    seq(|idx|, k requires 0 <= k < |idx| => lines[idx[k]])
  }

  function Half(maxContextLines: nat): nat {
    if maxContextLines / 2 < 1 then 1 else maxContextLines / 2
  }

  // The keyword stands in the line, both in lower case.
  ghost predicate Mentions(line: string, keyword: string, lower: string -> string) {
    exists before, after :: lower(line) == before + lower(keyword) + after
  }

  // Some line that mentions the keyword is the same line or next to it, or no further away than half the maximum.
  ghost predicate InContext(lines: seq<string>, keyword: string, lower: string -> string, maxContextLines: nat,
                            i: int)
  {
    exists m :: 0 <= m < |lines| && Mentions(lines[m], keyword, lower) && Close(i, m, maxContextLines)
  }

  predicate Close(i: int, m: int, maxContextLines: nat) {
    -1 <= i - m <= 1 || 0 - maxContextLines <= 2 * (i - m) <= maxContextLines
  }

  // The first lines in context, in their order, up to the maximum.
  ghost predicate IsContext(lines: seq<string>, keyword: string, lower: string -> string, maxContextLines: nat,
                            result: seq<string>)
  {
    exists idx ::
      && Increasing(idx, 0, |lines|)
      && (forall i :: i in idx <==> 0 <= i < |lines| && InContext(lines, keyword, lower, maxContextLines, i))
      && |result| == (if |idx| < maxContextLines then |idx| else maxContextLines)
      && forall k :: 0 <= k < |result| ==> result[k] == lines[idx[k]]
  }

  lemma MatchesIff(lines: seq<string>, keyword: string, lower: string -> string, m: int)
    ensures Matches(lines, keyword, lower, m) <==> 0 <= m < |lines| && Mentions(lines[m], keyword, lower)
  {
    if 0 <= m < |lines| {
      var s, sub := lower(lines[m]), lower(keyword);
      if i :| 0 <= i <= |s| && OccursAt(s, sub, i) {
        assert s == s[..i] + sub + s[i + |sub|..];
      }
      if before, after :| s == before + sub + after {
        assert s[|before|..|before| + |sub|] == sub;
        assert OccursAt(s, sub, |before|);
      }
    }
  }

  lemma NearIff(lines: seq<string>, keyword: string, lower: string -> string, maxContextLines: nat, i: int)
    ensures Near(lines, keyword, lower, Half(maxContextLines), i) <==>
            InContext(lines, keyword, lower, maxContextLines, i)
  {
    var half := Half(maxContextLines);
    forall m
      ensures Matches(lines, keyword, lower, m) <==> 0 <= m < |lines| && Mentions(lines[m], keyword, lower)
      ensures i - half <= m <= i + half <==> Close(i, m, maxContextLines)
    {
      MatchesIff(lines, keyword, lower, m);
    }
  }

  lemma NearIsContext(lines: seq<string>, keyword: string, lower: string -> string, maxContextLines: nat,
                      result: seq<string>)
    requires var idx := NearIndices(lines, keyword, lower, Half(maxContextLines), |lines|);
             Within(idx, |lines|) && result == Take(LinesAt(lines, idx), maxContextLines)
    ensures IsContext(lines, keyword, lower, maxContextLines, result)
  {
    var idx := NearIndices(lines, keyword, lower, Half(maxContextLines), |lines|);
    NearIndicesInOrder(lines, keyword, lower, Half(maxContextLines), |lines|);
    forall i
      ensures i in idx <==> 0 <= i < |lines| && InContext(lines, keyword, lower, maxContextLines, i)
    {
      NearIff(lines, keyword, lower, maxContextLines, i);
    }
  }

  // Strictly increasing, in [lo, hi).
  predicate Increasing(s: seq<int>, lo: int, hi: int) {
    && (forall k :: 0 <= k < |s| ==> lo <= s[k] < hi)
    && (forall j, k :: 0 <= j < k < |s| ==> s[j] < s[k])
  }

  lemma {:induction false} NearIndicesInOrder(lines: seq<string>, keyword: string, lower: string -> string,
      half: nat, n: nat)
    ensures Increasing(NearIndices(lines, keyword, lower, half, n), 0, n)
    ensures forall i :: i in NearIndices(lines, keyword, lower, half, n) <==>
                        0 <= i < n && Near(lines, keyword, lower, half, i)
  {
    if n == 0 {
    } else {
      NearIndicesInOrder(lines, keyword, lower, half, n - 1);
    }
  }

  // ---------------------------------------------------------------- windows

  datatype Window = Window(start: int, end: int)

  predicate In(w: Window, i: int) {
    w.start <= i < w.end
  }

  predicate Covered(ws: seq<Window>, i: int) {
    exists k :: 0 <= k < |ws| && In(ws[k], i)
  }

  // Non-empty, inside [0, n], in order, with a gap between neighbours.
  predicate Merged(ws: seq<Window>, n: nat) {
    && (forall k :: 0 <= k < |ws| ==> 0 <= ws[k].start < ws[k].end <= n)
    && (forall j, k :: 0 <= j < k < |ws| ==> ws[j].end < ws[k].start)
  }

  function Indices(ws: seq<Window>): seq<int> {
    if ws == [] then []
    else Indices(ws[..|ws| - 1]) + Range(ws[|ws| - 1].start, ws[|ws| - 1].end)
  }

  function Range(a: int, b: int): seq<int> {
    if a >= b then [] else seq(b - a, k requires 0 <= k < b - a => a + k)
  }

  function LastEnd(ws: seq<Window>): int {
    if ws == [] then 0 else ws[|ws| - 1].end
  }

  lemma MergedInit(ws: seq<Window>, n: nat)
    requires Merged(ws, n) && ws != []
    ensures Merged(ws[..|ws| - 1], n)
    ensures 0 <= LastEnd(ws[..|ws| - 1]) <= ws[|ws| - 1].start < ws[|ws| - 1].end <= n
  {
    if |ws| > 1 { assert ws[|ws| - 2].end < ws[|ws| - 1].start; }
  }

  lemma IncreasingAppend(a: seq<int>, lo: int, mid: int, start: int, end: int)
    requires Increasing(a, lo, mid) && lo <= mid <= start < end
    ensures Increasing(a + Range(start, end), lo, end)
  {
    var s := a + Range(start, end);
    forall k | 0 <= k < |s|
      ensures lo <= s[k] < end && (k < |a| ==> s[k] < start) && (k >= |a| ==> s[k] == start + k - |a|)
    {
    }
  }

  // Merged windows list their indices in order and once each.
  lemma {:induction false} IndicesIncrease(ws: seq<Window>, n: nat)
    requires Merged(ws, n)
    ensures Increasing(Indices(ws), 0, LastEnd(ws)) && LastEnd(ws) <= n
  {
    if ws == [] {
    } else {
      var init, w := ws[..|ws| - 1], ws[|ws| - 1];
      MergedInit(ws, n);
      IndicesIncrease(init, n);
      IncreasingAppend(Indices(init), 0, LastEnd(init), w.start, w.end);
    }
  }

  lemma RangeMembers(a: int, b: int, i: int)
    ensures i in Range(a, b) <==> a <= i < b
  {
    if a <= i < b { assert Range(a, b)[i - a] == i; }
  }

  lemma {:induction false} IndicesCover(ws: seq<Window>, i: int)
    ensures i in Indices(ws) <==> Covered(ws, i)
  {
    if ws == [] {
    } else {
      var init, w := ws[..|ws| - 1], ws[|ws| - 1];
      IndicesCover(init, i);
      RangeMembers(w.start, w.end, i);
      assert ws == init + [w];
      CoveredAppend(init, w, i);
    }
  }

  // Two increasing sequences with the same elements are equal.
  lemma {:induction false} IncreasingUnique(a: seq<int>, b: seq<int>)
    requires forall j, k :: 0 <= j < k < |a| ==> a[j] < a[k]
    requires forall j, k :: 0 <= j < k < |b| ==> b[j] < b[k]
    requires forall i :: i in a <==> i in b
    ensures a == b
  {
    assert a != [] ==> a[0] in a;
    assert b != [] ==> b[0] in b;
    if a == [] {
    } else {
      assert a[0] in b && b[0] in a;
      assert a[0] == b[0];
      forall i
        ensures i in a[1..] <==> i in b[1..]
      {
        assert i in a[1..] ==> i in b && i != b[0];
        assert i in b[1..] ==> i in a && i != a[0];
      }
      IncreasingUnique(a[1..], b[1..]);
    }
  }

  // ---------------------------------------------------------------- extractLogContext

  method FindMatches(lines: seq<string>, keyword: string, lower: string -> string) returns (matches: seq<int>)
    ensures forall j, k :: 0 <= j < k < |matches| ==> matches[j] < matches[k]
    ensures forall i :: i in matches <==> Matches(lines, keyword, lower, i)
  {
    matches := [];
    var i := 0;
    while i < |lines|
      invariant 0 <= i <= |lines|
      invariant forall k :: 0 <= k < |matches| ==> matches[k] < i
      invariant forall j, k :: 0 <= j < k < |matches| ==> matches[j] < matches[k]
      invariant forall m :: m in matches <==> m < i && Matches(lines, keyword, lower, m)
    {
      if Contains(lower(lines[i]), lower(keyword)) {
        matches := matches + [i];
      }
      i := i + 1;
    }
  }

  function WindowOf(idx: int, half: nat, n: nat): Window {
    Window(if idx - half < 0 then 0 else idx - half, if idx + half + 1 > n then n else idx + half + 1)
  }

  method BuildWindows(matches: seq<int>, half: nat, n: nat) returns (windows: seq<Window>)
    ensures |windows| == |matches| && forall k :: 0 <= k < |matches| ==> windows[k] == WindowOf(matches[k], half, n)
  {
    windows := [];
    var i := 0;
    while i < |matches|
      invariant 0 <= i <= |matches| && |windows| == i
      invariant forall k :: 0 <= k < i ==> windows[k] == WindowOf(matches[k], half, n)
    {
      var idx := matches[i];
      var start := idx - half;
      if start < 0 {
        start := 0;
      }
      var end := idx + half + 1;
      if end > n {
        end := n;
      }
      windows := windows + [Window(start, end)];
      i := i + 1;
    }
  }

  // Windows in order of their starts are merged into separated ones that cover the same lines.
  method MergeWindows(windows: seq<Window>, n: nat) returns (merged: seq<Window>)
    requires windows != []
    requires forall k :: 0 <= k < |windows| ==> 0 <= windows[k].start < windows[k].end <= n
    requires forall j, k :: 0 <= j < k < |windows| ==> windows[j].start <= windows[k].start
    ensures Merged(merged, n)
    ensures forall i :: Covered(merged, i) <==> Covered(windows, i)
  {
    merged := [windows[0]];
    CoveredOne(windows[0]);
    assert windows[..1] == [windows[0]];
    var i := 1;
    while i < |windows|
      invariant 1 <= i <= |windows|
      invariant Merged(merged, n) && merged != []
      invariant merged[|merged| - 1].start <= windows[i - 1].start
      invariant forall x :: Covered(merged, x) <==> Covered(windows[..i], x)
    {
      ghost var before := merged;
      var last := merged[|merged| - 1];
      if windows[i].start <= last.end {
        if windows[i].end > last.end {
          merged := merged[|merged| - 1 := Window(last.start, windows[i].end)];
        }
      } else {
        merged := merged + [windows[i]];
      }
      MergeCovers(before, windows[i], merged);
      assert windows[..i + 1] == windows[..i] + [windows[i]];
      forall x
        ensures Covered(merged, x) <==> Covered(windows[..i + 1], x)
      {
        CoveredAppend(windows[..i], windows[i], x);
      }
      i := i + 1;
    }
    assert windows[..|windows|] == windows;
  }

  lemma CoveredOne(w: Window)
    ensures forall x :: Covered([w], x) <==> In(w, x)
  {
    assert [w][0] == w;
  }

  lemma CoveredAppend(ws: seq<Window>, w: Window, x: int)
    ensures Covered(ws + [w], x) <==> Covered(ws, x) || In(w, x)
  {
    if Covered(ws, x) {
      var k :| 0 <= k < |ws| && In(ws[k], x);
      assert In((ws + [w])[k], x);
    }
    if In(w, x) { assert In((ws + [w])[|ws|], x); }
  }

  // One turn of the merging loop adds exactly the new window's lines.
  lemma MergeCovers(before: seq<Window>, w: Window, after: seq<Window>)
    requires before != [] && before[|before| - 1].start <= w.start
    requires var last := before[|before| - 1];
             after == if w.start > last.end then before + [w]
                      else before[|before| - 1 := Window(last.start, if w.end > last.end then w.end else last.end)]
    ensures forall x :: Covered(after, x) <==> Covered(before, x) || In(w, x)
  {
    var init, last := before[..|before| - 1], before[|before| - 1];
    assert before == init + [last];
    forall x
      ensures Covered(after, x) <==> Covered(before, x) || In(w, x)
    {
      CoveredAppend(init, last, x);
      if w.start > last.end {
        CoveredAppend(before, w, x);
      } else {
        var grown := Window(last.start, if w.end > last.end then w.end else last.end);
        assert after == init + [grown];
        CoveredAppend(init, grown, x);
        assert In(grown, x) <==> In(last, x) || In(w, x);
      }
    }
  }

  // The lines of the windows, one window after the other.
  function AllLines(lines: seq<string>, ws: seq<Window>): seq<string>
    requires forall k :: 0 <= k < |ws| ==> 0 <= ws[k].start <= ws[k].end <= |lines|
  {
    if ws == [] then []
    else AllLines(lines, ws[..|ws| - 1]) + lines[ws[|ws| - 1].start..ws[|ws| - 1].end]
  }

  lemma {:induction false} AllLinesPrefix(lines: seq<string>, ws: seq<Window>, k: nat)
    requires forall j :: 0 <= j < |ws| ==> 0 <= ws[j].start <= ws[j].end <= |lines|
    requires k <= |ws|
    ensures AllLines(lines, ws[..k]) <= AllLines(lines, ws)
    decreases |ws| - k
  {
    if k < |ws| {
      AllLinesPrefix(lines, ws, k + 1);
      assert ws[..k + 1][..k] == ws[..k];
    } else {
      assert ws[..k] == ws;
    }
  }

  lemma {:induction false} AllLinesAreLinesAt(lines: seq<string>, ws: seq<Window>)
    requires Merged(ws, |lines|)
    ensures Within(Indices(ws), |lines|)
    ensures AllLines(lines, ws) == LinesAt(lines, Indices(ws))
  {
    if ws == [] {
    } else {
      var init, w := ws[..|ws| - 1], ws[|ws| - 1];
      MergedInit(ws, |lines|);
      AllLinesAreLinesAt(lines, init);
      LinesAtAppendRange(lines, Indices(init), w.start, w.end);
    }
  }

  lemma LinesAtAppendRange(lines: seq<string>, idx: seq<int>, a: int, b: int)
    requires Within(idx, |lines|) && 0 <= a <= b <= |lines|
    ensures Within(idx + Range(a, b), |lines|)
    ensures LinesAt(lines, idx + Range(a, b)) == LinesAt(lines, idx) + lines[a..b]
  {
  }

  // The inner emission loop.
  method EmitWindow(lines: seq<string>, w: Window, before: seq<string>, maxLines: nat) returns (result: seq<string>)
    requires 0 <= w.start <= w.end <= |lines| && |before| <= maxLines
    ensures result == Take(before + lines[w.start..w.end], maxLines)
  {
    result := before;
    var i := w.start;
    while i < w.end && |result| < maxLines
      invariant w.start <= i <= w.end
      invariant result == before + lines[w.start..i] && |result| <= maxLines
    {
      result := result + [lines[i]];
      i := i + 1;
    }
    assert before + lines[w.start..i] <= before + lines[w.start..w.end];
  }

  // The outer emission loop, stopping at maxLines.
  method Emit(lines: seq<string>, merged: seq<Window>, maxLines: nat) returns (result: seq<string>)
    requires Merged(merged, |lines|)
    ensures result == Take(AllLines(lines, merged), maxLines)
  {
    result := [];
    var k := 0;
    while k < |merged|
      invariant 0 <= k <= |merged|
      invariant result == Take(AllLines(lines, merged[..k]), maxLines)
    {
      ghost var done := AllLines(lines, merged[..k]);
      assert merged[..k + 1][..k] == merged[..k];
      result := EmitWindow(lines, merged[k], result, maxLines);
      TakeAppend(done, lines[merged[k].start..merged[k].end], maxLines);
      AllLinesPrefix(lines, merged, k + 1);
      if |result| >= maxLines {
        return;
      }
      k := k + 1;
    }
    assert merged[..|merged|] == merged;
  }

  lemma TakeAppend<T>(a: seq<T>, b: seq<T>, n: nat)
    ensures Take(Take(a, n) + b, n) == Take(a + b, n)
  {
  }

  // With a keyword: the lines near a match, in order, cut after maxContextLines. Without: the last ones.
  method ExtractLogContext(lines: seq<string>, keyword: string, lower: string -> string, maxContextLines: nat)
    returns (result: seq<string>)
    ensures keyword == "" ==>
      result == if |lines| <= maxContextLines then lines else lines[|lines| - maxContextLines..]
    ensures keyword != "" ==>
      var idx := NearIndices(lines, keyword, lower, Half(maxContextLines), |lines|);
      Within(idx, |lines|) && result == Take(LinesAt(lines, idx), maxContextLines)
    ensures keyword != "" ==> IsContext(lines, keyword, lower, maxContextLines, result)
  {
    if keyword == "" {
      if |lines| <= maxContextLines {
        return lines;
      }
      return lines[|lines| - maxContextLines..];
    }
    var matches := FindMatches(lines, keyword, lower);
    var half := maxContextLines / 2;
    if half < 1 {
      half := 1;
    }
    if |matches| == 0 {
      NoMatchNothingNear(lines, keyword, lower, half, |lines|);
      NearIsContext(lines, keyword, lower, maxContextLines, []);
      return [];
    }
    var windows := BuildWindows(matches, half, |lines|);
    WindowsInOrder(lines, keyword, lower, half, matches, windows);
    var merged := MergeWindows(windows, |lines|);
    MergedAreNear(lines, keyword, lower, half, matches, windows, merged);
    AllLinesAreLinesAt(lines, merged);
    result := Emit(lines, merged, maxContextLines);
    NearIsContext(lines, keyword, lower, maxContextLines, result);
  }

  lemma WindowsInOrder(lines: seq<string>, keyword: string, lower: string -> string, half: nat,
                       matches: seq<int>, windows: seq<Window>)
    requires forall j, k :: 0 <= j < k < |matches| ==> matches[j] < matches[k]
    requires forall m :: m in matches <==> Matches(lines, keyword, lower, m)
    requires |windows| == |matches|
    requires forall k :: 0 <= k < |matches| ==> windows[k] == WindowOf(matches[k], half, |lines|)
    ensures forall k :: 0 <= k < |windows| ==> 0 <= windows[k].start < windows[k].end <= |lines|
    ensures forall j, k :: 0 <= j < k < |windows| ==> windows[j].start <= windows[k].start
  {
    forall k | 0 <= k < |windows|
      ensures 0 <= windows[k].start < windows[k].end <= |lines|
    {
      assert matches[k] in matches;
    }
  }

  lemma {:induction false} NoMatchNothingNear(lines: seq<string>, keyword: string, lower: string -> string,
      half: nat, n: nat)
    requires forall m :: !Matches(lines, keyword, lower, m)
    ensures NearIndices(lines, keyword, lower, half, n) == []
  {
    if n == 0 {
    } else {
      NoMatchNothingNear(lines, keyword, lower, half, n - 1);
    }
  }

  // What the merged windows list is what is near a match.
  lemma MergedAreNear(lines: seq<string>, keyword: string, lower: string -> string, half: nat,
                      matches: seq<int>, windows: seq<Window>, merged: seq<Window>)
    requires forall m :: m in matches <==> Matches(lines, keyword, lower, m)
    requires |windows| == |matches|
    requires forall k :: 0 <= k < |matches| ==> windows[k] == WindowOf(matches[k], half, |lines|)
    requires Merged(merged, |lines|) && forall i :: Covered(merged, i) <==> Covered(windows, i)
    ensures Indices(merged) == NearIndices(lines, keyword, lower, half, |lines|)
  {
    var idx := NearIndices(lines, keyword, lower, half, |lines|);
    NearIndicesInOrder(lines, keyword, lower, half, |lines|);
    IndicesIncrease(merged, |lines|);
    forall i
      ensures i in Indices(merged) <==> i in idx
    {
      IndicesCover(merged, i);
      WindowsCoverNear(lines, keyword, lower, half, matches, windows, i);
    }
    IncreasingUnique(Indices(merged), idx);
  }

  lemma WindowsCoverNear(lines: seq<string>, keyword: string, lower: string -> string, half: nat,
                         matches: seq<int>, windows: seq<Window>, i: int)
    requires forall m :: m in matches <==> Matches(lines, keyword, lower, m)
    requires |windows| == |matches|
    requires forall k :: 0 <= k < |matches| ==> windows[k] == WindowOf(matches[k], half, |lines|)
    ensures Covered(windows, i) <==> 0 <= i < |lines| && Near(lines, keyword, lower, half, i)
  {
    if Covered(windows, i) {
      var k :| 0 <= k < |windows| && In(windows[k], i);
      assert matches[k] in matches;
      assert Matches(lines, keyword, lower, matches[k]);
    }
    if 0 <= i < |lines| && Near(lines, keyword, lower, half, i) {
      var m :| 0 <= m < |lines| && i - half <= m <= i + half && Matches(lines, keyword, lower, m);
      assert m in matches;
      var k :| 0 <= k < |matches| && matches[k] == m;
      assert In(windows[k], i);
    }
  }

  // The first matching line is among those returned exactly when there is room for the context before it;
  // from two lines on there always is.
  lemma FirstMatchIncludedIff(lines: seq<string>, keyword: string, lower: string -> string, maxContextLines: nat,
                              m: nat)
    requires Matches(lines, keyword, lower, m) && forall i :: 0 <= i < m ==> !Matches(lines, keyword, lower, i)
    ensures var idx := NearIndices(lines, keyword, lower, Half(maxContextLines), |lines|);
            m in Take(idx, maxContextLines) <==> maxContextLines >= 2 || (maxContextLines == 1 && m == 0)
  {
    var half := Half(maxContextLines);
    FirstMatchPosition(lines, keyword, lower, half, m);
    PositionInTake(NearIndices(lines, keyword, lower, half, |lines|), if m < half then m else half, maxContextLines, m);
  }

  lemma FirstMatchPosition(lines: seq<string>, keyword: string, lower: string -> string, half: nat, m: nat)
    requires Matches(lines, keyword, lower, m) && forall i :: 0 <= i < m ==> !Matches(lines, keyword, lower, i)
    ensures var idx := NearIndices(lines, keyword, lower, half, |lines|);
            var k := if m < half then m else half;
            Increasing(idx, 0, |lines|) && k < |idx| && idx[k] == m
  {
    var lo := if m < half then 0 else m - half;
    NearIndicesInOrder(lines, keyword, lower, half, |lines|);
    FirstIndices(lines, keyword, lower, half, m, lo, m + 1);
    NearPrefix(lines, keyword, lower, half, m + 1, |lines|);
    RangePrefix(NearIndices(lines, keyword, lower, half, |lines|), lo, m);
  }

  lemma RangePrefix(idx: seq<int>, lo: nat, m: nat)
    requires lo <= m && Range(lo, m + 1) <= idx
    ensures m - lo < |idx| && idx[m - lo] == m
  {
    assert Range(lo, m + 1)[m - lo] == m;
  }

  lemma PositionInTake(idx: seq<int>, k: nat, n: nat, m: int)
    requires forall i, j :: 0 <= i < j < |idx| ==> idx[i] < idx[j]
    requires 0 <= k < |idx| && idx[k] == m
    ensures m in Take(idx, n) <==> k < n
  {
    if k < n { assert Take(idx, n)[k] == m; }
  }

  lemma {:induction false} FirstIndices(lines: seq<string>, keyword: string, lower: string -> string,
      half: nat, m: nat, lo: nat, n: nat)
    requires Matches(lines, keyword, lower, m) && forall i :: 0 <= i < m ==> !Matches(lines, keyword, lower, i)
    requires lo == (if m < half then 0 else m - half) && n <= m + 1
    ensures NearIndices(lines, keyword, lower, half, n) == Range(lo, n)
  {
    if n == 0 {
    } else {
      FirstIndices(lines, keyword, lower, half, m, lo, n - 1);
      if n - 1 >= lo {
        assert Near(lines, keyword, lower, half, n - 1);
        assert Range(lo, n) == Range(lo, n - 1) + [n - 1];
      } else {
        assert !Near(lines, keyword, lower, half, n - 1);
      }
    }
  }

  lemma {:induction false} NearPrefix(lines: seq<string>, keyword: string, lower: string -> string,
      half: nat, m: nat, n: nat)
    requires m <= n
    ensures NearIndices(lines, keyword, lower, half, m) <= NearIndices(lines, keyword, lower, half, n)
  {
    if m == n {
    } else {
      NearPrefix(lines, keyword, lower, half, m, n - 1);
    }
  }
}
