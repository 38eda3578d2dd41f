/** Line coverage of a file by the ranges that artifact mappings name. */
module Coverage {
  import opened Wrappers
  import opened Sequences

  // ----- Lines

  /** The white space of Unicode. */
  predicate IsWhitespace(c: char) {
    || '\U{0009}' <= c <= '\U{000D}' || c == ' ' || c == '\U{0085}' || c == '\U{00A0}' || c == '\U{1680}'
    || '\U{2000}' <= c <= '\U{200A}' || c == '\U{2028}' || c == '\U{2029}' || c == '\U{202F}' || c == '\U{205F}'
    || c == '\U{3000}'
  }

  predicate Blank(line: string) {
    forall c :: c in line ==> IsWhitespace(c)
  }

  /** How many of the first n numbers have the property. */
  function Count(n: nat, p: nat -> bool): nat {
    if n == 0 then 0 else Count(n - 1, p) + if p(n - 1) then 1 else 0
  }

  lemma {:induction false} CountSplit(n: nat, p: nat -> bool, q: nat -> bool, r: nat -> bool)
    requires forall i: nat :: i < n ==> (p(i) <==> q(i) || r(i)) && !(q(i) && r(i))
    ensures Count(n, p) == Count(n, q) + Count(n, r)
  {
    if n > 0 {
      CountSplit(n - 1, p, q, r);
    }
  }

  /** The lines that are not blank: all, the covered and the others. */
  function TextAt(lines: seq<string>): nat -> bool {
    (i: nat) => i < |lines| && !Blank(lines[i])
  }

  function CoveredAt(lines: seq<string>, covered: seq<bool>): nat -> bool {
    (i: nat) => i < |lines| && i < |covered| && covered[i] && !Blank(lines[i])
  }

  function LeftAt(lines: seq<string>, covered: seq<bool>): nat -> bool {
    (i: nat) => i < |lines| && i < |covered| && !covered[i] && !Blank(lines[i])
  }

  // ----- Runs

  /** Lines by number, from 1, both ends included. */
  datatype UncoveredRange = UncoveredRange(startLine: nat, endLine: nat, lineCount: nat)

  /** The range is a maximal run of true flags. */
  ghost predicate IsRun(flags: seq<bool>, r: UncoveredRange) {
    && 1 <= r.startLine <= r.endLine <= |flags| && r.lineCount == r.endLine - r.startLine + 1
    && (forall k :: r.startLine - 1 <= k < r.endLine ==> flags[k])
    && (r.startLine == 1 || !flags[r.startLine - 2])
    && (r.endLine == |flags| || !flags[r.endLine])
  }

  ghost predicate InRange(r: UncoveredRange, k: int) {
    r.startLine <= k + 1 <= r.endLine
  }

  /** A line whose flag is set is in a range, or after the start of the run in progress. */
  ghost predicate Accounted(flags: seq<bool>, start: Option<int>, rs: seq<UncoveredRange>, k: nat) {
    k < |flags| && flags[k] ==>
      (start.Some? && start.value - 1 <= k) || exists x :: 0 <= x < |rs| && InRange(rs[x], k)
  }

  /** The ranges are the maximal runs, in order. */
  ghost predicate AreRuns(flags: seq<bool>, rs: seq<UncoveredRange>) {
    && (forall i :: 0 <= i < |rs| ==> IsRun(flags, rs[i]))
    && (forall i, j :: 0 <= i < j < |rs| ==> rs[i].endLine + 1 < rs[j].startLine)
    && (forall k: nat {:trigger Accounted(flags, None, rs, k)} :: k < |flags| ==> Accounted(flags, None, rs, k))
  }

  function LineTotal(rs: seq<UncoveredRange>): nat {
    if rs == [] then 0 else LineTotal(Front(rs)) + Last(rs).lineCount
  }

  lemma LineTotalMore(rs: seq<UncoveredRange>, r: UncoveredRange)
    ensures LineTotal(rs + [r]) == LineTotal(rs) + r.lineCount
  {
    assert Front(rs + [r]) == rs;
  }

  /** The run in progress after the first i lines, if there is one. */
  ghost predicate Open(flags: seq<bool>, i: nat, start: Option<int>) {
    && i <= |flags|
    && (start.None? ==> i == 0 || !flags[i - 1])
    && (start.Some? ==> OpenAt(flags, i, start.value))
  }

  ghost predicate OpenAt(flags: seq<bool>, i: nat, s: int)
    requires i <= |flags|
  {
    1 <= s <= i && (forall k :: s - 1 <= k < i ==> flags[k]) && (s == 1 || !flags[s - 2])
  }

  /** A run that ended within the first i lines, before the one in progress. */
  ghost predicate Ended(flags: seq<bool>, i: nat, start: Option<int>, r: UncoveredRange) {
    IsRun(flags, r) && r.endLine < i && (start.Some? ==> r.endLine + 1 < start.value)
  }

  /** The runs closed within the first i lines. */
  ghost predicate Closed(flags: seq<bool>, i: nat, start: Option<int>, rs: seq<UncoveredRange>) {
    && i <= |flags|
    && (forall r {:trigger Ended(flags, i, start, r)} :: r in rs ==> Ended(flags, i, start, r))
    && (forall x, y :: 0 <= x < y < |rs| ==> rs[x].endLine + 1 < rs[y].startLine)
    && (forall k: nat {:trigger Accounted(flags, start, rs, k)} :: k < i ==> Accounted(flags, start, rs, k))
  }

  ghost function Pending(i: nat, start: Option<int>): int {
    if start.None? then 0 else i + 1 - start.value
  }

  lemma AccountedMore(flags: seq<bool>, s: int, rs: seq<UncoveredRange>, r: UncoveredRange, k: nat)
    requires Accounted(flags, Some(s), rs, k) && r.startLine == s && k < r.endLine
    ensures Accounted(flags, None, rs + [r], k)
  {
    if k < |flags| && flags[k] {
      if s - 1 <= k {
        assert InRange((rs + [r])[|rs|], k);
      } else {
        var x :| 0 <= x < |rs| && InRange(rs[x], k);
        assert InRange((rs + [r])[x], k);
      }
    }
  }

  /** A run ends before line i, or at the end of the file. */
  lemma CloseRun(flags: seq<bool>, i: nat, s: int, rs: seq<UncoveredRange>, r: UncoveredRange)
    requires Open(flags, i, Some(s)) && Closed(flags, i, Some(s), rs) && (i == |flags| || !flags[i])
    requires s > 0 && r == UncoveredRange(s, i, i + 1 - s)
    ensures i < |flags| ==> Closed(flags, i + 1, None, rs + [r])
    ensures i == |flags| ==> AreRuns(flags, rs + [r])
  {
    var rs' := rs + [r];
    assert IsRun(flags, r);
    forall x | 0 <= x < |rs|
      ensures IsRun(flags, rs[x]) && rs[x].endLine + 1 < s && rs[x].endLine < i
    {
      assert rs[x] in rs && Ended(flags, i, Some(s), rs[x]);
    }
    forall k: nat | k < i
      ensures Accounted(flags, None, rs', k)
    {
      assert Accounted(flags, Some(s), rs, k);
      AccountedMore(flags, s, rs, r, k);
    }
  }

  /** A line that goes on or begins a run, and a line between runs. */
  lemma Advance(flags: seq<bool>, i: nat, start: Option<int>, rs: seq<UncoveredRange>)
    requires i < |flags| && Open(flags, i, start) && Closed(flags, i, start, rs) && (flags[i] || start.None?)
    ensures var start' := if flags[i] && start.None? then Some(i + 1) else start;
      Open(flags, i + 1, start') && Closed(flags, i + 1, start', rs)
  {
    var start' := if flags[i] && start.None? then Some(i + 1) else start;
    forall r | r in rs
      ensures Ended(flags, i + 1, start', r)
    {
      assert Ended(flags, i, start, r);
    }
    forall k: nat | k < i + 1
      ensures Accounted(flags, start', rs, k)
    {
      assert k < i ==> Accounted(flags, start, rs, k);
    }
  }

  lemma AllClosed(flags: seq<bool>, rs: seq<UncoveredRange>)
    requires Closed(flags, |flags|, None, rs)
    ensures AreRuns(flags, rs)
  {
    forall x | 0 <= x < |rs|
      ensures IsRun(flags, rs[x])
    {
      assert rs[x] in rs && Ended(flags, |flags|, None, rs[x]);
    }
  }

  ghost predicate Scanning(flags: seq<bool>, p: nat -> bool, i: nat, start: Option<int>, rs: seq<UncoveredRange>) {
    && Open(flags, i, start) && Closed(flags, i, start, rs)
    && LineTotal(rs) + Pending(i, start) == Count(i, p)
  }

  method ScanLine(covered: seq<bool>, lines: seq<string>, i: nat, start: Option<int>, ranges: seq<UncoveredRange>)
    returns (start': Option<int>, ranges': seq<UncoveredRange>)
    requires |covered| == |lines| && i < |covered|
    requires Scanning(Uncovered(covered, lines), LeftAt(lines, covered), i, start, ranges)
    ensures Scanning(Uncovered(covered, lines), LeftAt(lines, covered), i + 1, start', ranges')
  {
    ghost var flags := Uncovered(covered, lines);
    start', ranges' := start, ranges;
    if !covered[i] && !Blank(lines[i]) {
      Advance(flags, i, start, ranges);
      if start.None? {
        start' := Some(i + 1);
      }
    } else if start.Some? {
      var range := UncoveredRange(start.value, i, i + 1 - start.value);
      CloseRun(flags, i, start.value, ranges, range);
      LineTotalMore(ranges, range);
      start', ranges' := None, ranges + [range];
    } else {
      Advance(flags, i, start, ranges);
    }
  }

  /** Finds the runs of lines that are neither covered nor blank. */
  method FindUncoveredRanges(covered: seq<bool>, lines: seq<string>) returns (ranges: seq<UncoveredRange>)
    requires |covered| == |lines|
    ensures AreRuns(Uncovered(covered, lines), ranges)
    ensures LineTotal(ranges) == Count(|lines|, LeftAt(lines, covered))
  {
    ghost var flags := Uncovered(covered, lines);
    ranges := [];
    var start: Option<int> := None;
    var i := 0;
    while i < |covered|
      invariant 0 <= i <= |covered| && Scanning(flags, LeftAt(lines, covered), i, start, ranges)
    {
      start, ranges := ScanLine(covered, lines, i, start, ranges);
      i := i + 1;
    }
    ranges := CloseLast(flags, LeftAt(lines, covered), |covered|, start, ranges);
  }

  lemma LastClosed(flags: seq<bool>, p: nat -> bool, n: nat, s: int, rs: seq<UncoveredRange>, r: UncoveredRange)
    requires n == |flags| && Scanning(flags, p, n, Some(s), rs) && r == UncoveredRange(s, n, n + 1 - s)
    ensures AreRuns(flags, rs + [r]) && LineTotal(rs + [r]) == Count(n, p)
  {
    CloseRun(flags, n, s, rs, r);
    LineTotalMore(rs, r);
  }

  /** Closes the run that reaches the end of the file, if there is one. */
  method CloseLast(ghost flags: seq<bool>, ghost p: nat -> bool, n: nat, start: Option<int>,
      ranges: seq<UncoveredRange>)
    returns (ranges': seq<UncoveredRange>)
    requires n == |flags| && Scanning(flags, p, n, start, ranges)
    ensures AreRuns(flags, ranges') && LineTotal(ranges') == Count(n, p)
  {
    ranges' := ranges;
    if start.Some? {
      var range := UncoveredRange(start.value, n, n + 1 - start.value);
      LastClosed(flags, p, n, start.value, ranges, range);
      ranges' := ranges + [range];
    } else {
      AllClosed(flags, ranges);
    }
  }

  /** Which lines are neither covered nor blank. */
  function Uncovered(covered: seq<bool>, lines: seq<string>): (flags: seq<bool>)
    requires |covered| == |lines|
    ensures |flags| == |lines| && forall i :: 0 <= i < |flags| ==> (flags[i] <==> !covered[i] && !Blank(lines[i]))
  {
    seq(|lines|, i requires 0 <= i < |lines| => !covered[i] && !Blank(lines[i]))
  }

  // ----- One file

  /** A range of lines as an artifact mapping gives it. */
  datatype RangeEntry = RangeEntry(startLine: nat, endLine: nat, mappingId: string)

  function Min(a: nat, b: nat): nat {
    if a < b then a else b
  }

  function StartIndex(e: RangeEntry, n: nat): nat {
    Min(if e.startLine == 0 then 0 else e.startLine - 1, n)
  }

  function EndIndex(e: RangeEntry, n: nat): nat {
    Min(e.endLine, n)
  }

  /** The range of an n-line file is a slice; if not, marking it panics. */
  predicate Sliceable(e: RangeEntry, n: nat) {
    StartIndex(e, n) <= EndIndex(e, n)
  }

  /** A range that starts at most one line after its end is a slice of every file; any other
      is one only of files with no line after its end. */
  lemma SliceableExactly(e: RangeEntry, n: nat)
    ensures Sliceable(e, n) <==> e.startLine <= e.endLine + 1 || n <= e.endLine
  {
  }

  predicate Marks(e: RangeEntry, n: nat, i: nat) {
    StartIndex(e, n) <= i < EndIndex(e, n)
  }

  ghost predicate IsCovered(ranges: seq<RangeEntry>, n: nat, i: nat) {
    exists x :: 0 <= x < |ranges| && Marks(ranges[x], n, i)
  }

  datatype FileCoverage = FileCoverage(totalLines: nat, coveredLines: nat, percent: real,
    uncovered: seq<UncoveredRange>)

  ghost function CoveredFlags(ranges: seq<RangeEntry>, n: nat): (flags: seq<bool>)
    ensures |flags| == n && forall i :: 0 <= i < n ==> (flags[i] <==> IsCovered(ranges, n, i))
  {
    seq(n, i requires 0 <= i < n => IsCovered(ranges, n, i))
  }

  /** The lines covered are counted, the runs are those of the lines left, and together they
      make up the lines that are not blank. */
  ghost predicate Accounts(lines: seq<string>, ranges: seq<RangeEntry>, f: FileCoverage) {
    var covered := CoveredFlags(ranges, |lines|);
    && f.totalLines == |lines| && f.coveredLines == Count(|lines|, CoveredAt(lines, covered))
    && AreRuns(Uncovered(covered, lines), f.uncovered)
    && f.coveredLines + LineTotal(f.uncovered) == Count(|lines|, TextAt(lines))
    && 0.0 <= f.percent <= 100.0 && (f.percent == 100.0 <==> f.uncovered == [])
    && PercentOf(f.percent, f.coveredLines, Count(|lines|, TextAt(lines)))
  }

  /** The percentage that part is of all; of nothing, all of it. */
  ghost predicate PercentOf(percent: real, part: nat, all: nat) {
    if all == 0 then percent == 100.0 else percent * all as real == part as real * 100.0
  }

  // ----- The same by sets of lines

  /** The lines that are not blank, numbered from 0. */
  ghost function TextLines(lines: seq<string>): set<nat> {
    set i: nat | i < |lines| && !Blank(lines[i])
  }

  /** Those that some range names, by their numbers from 1. */
  ghost function NamedLines(lines: seq<string>, ranges: seq<RangeEntry>): set<nat> {
    set i: nat | i < |lines| && !Blank(lines[i]) && exists e :: e in ranges && e.startLine <= i + 1 <= e.endLine
  }

  /** The named lines are counted, they are that percentage of the lines that are not blank,
      and the uncovered ranges hold the others and nothing else. */
  ghost predicate Measures(lines: seq<string>, ranges: seq<RangeEntry>, f: FileCoverage) {
    var text, named := TextLines(lines), NamedLines(lines, ranges);
    && f.totalLines == |lines| && f.coveredLines == |named| && PercentOf(f.percent, |named|, |text|)
    && forall i: nat :: i in text && i !in named <==> HeldBy(f.uncovered, i)
  }

  ghost predicate HeldBy(rs: seq<UncoveredRange>, i: nat) {
    exists r :: r in rs && r.startLine <= i + 1 <= r.endLine
  }

  lemma {:induction false} CountIsSize(n: nat, p: nat -> bool)
    ensures Count(n, p) == |set i: nat | i < n && p(i)|
  {
    if n > 0 {
      CountIsSize(n - 1, p);
      var before, now := set i: nat | i < n - 1 && p(i), set i: nat | i < n && p(i);
      assert now == if p(n - 1) then before + {n - 1} else before;
    }
  }

  lemma NamedIsCovered(ranges: seq<RangeEntry>, n: nat, i: nat)
    requires i < n
    ensures IsCovered(ranges, n, i) <==> exists e :: e in ranges && e.startLine <= i + 1 <= e.endLine
  {
    assert forall x :: 0 <= x < |ranges| ==>
      (Marks(ranges[x], n, i) <==> ranges[x].startLine <= i + 1 <= ranges[x].endLine);
    if e :| e in ranges && e.startLine <= i + 1 <= e.endLine {
      var x :| 0 <= x < |ranges| && ranges[x] == e;
    }
  }

  lemma RunsHold(flags: seq<bool>, rs: seq<UncoveredRange>, i: nat)
    requires AreRuns(flags, rs)
    ensures HeldBy(rs, i) <==> i < |flags| && flags[i]
  {
    if r :| r in rs && r.startLine <= i + 1 <= r.endLine {
      var x :| 0 <= x < |rs| && rs[x] == r;
      assert IsRun(flags, rs[x]);
    }
    if i < |flags| && flags[i] {
      assert Accounted(flags, None, rs, i);
      var x :| 0 <= x < |rs| && InRange(rs[x], i);
      assert rs[x] in rs;
    }
  }

  lemma AccountsMeasure(lines: seq<string>, ranges: seq<RangeEntry>, f: FileCoverage)
    requires Accounts(lines, ranges, f)
    ensures Measures(lines, ranges, f)
  {
    var n, covered := |lines|, CoveredFlags(ranges, |lines|);
    CountIsSize(n, TextAt(lines));
    CountIsSize(n, CoveredAt(lines, covered));
    forall i: nat | i < n
      ensures covered[i] <==> exists e :: e in ranges && e.startLine <= i + 1 <= e.endLine
    {
      NamedIsCovered(ranges, n, i);
    }
    assert TextLines(lines) == set i: nat | i < n && TextAt(lines)(i);
    assert NamedLines(lines, ranges) == set i: nat | i < n && CoveredAt(lines, covered)(i);
    forall i: nat
      ensures i in TextLines(lines) && i !in NamedLines(lines, ranges) <==> HeldBy(f.uncovered, i)
    {
      RunsHold(Uncovered(covered, lines), f.uncovered, i);
    }
  }

  /** Marks the lines of a range; None is a panic. */
  method MarkRange(covered: array<bool>, e: RangeEntry) returns (r: Option<()>)
    modifies covered
    ensures r.Some? <==> Sliceable(e, covered.Length)
    ensures r.Some? ==> forall i :: 0 <= i < covered.Length ==>
      (covered[i] <==> old(covered[i]) || Marks(e, covered.Length, i))
  {
    var start, end := StartIndex(e, covered.Length), EndIndex(e, covered.Length);
    if start > end {
      return None;
    }
    var i := start;
    while i < end
      invariant start <= i <= end
      invariant forall k :: 0 <= k < covered.Length ==> (covered[k] <==> old(covered[k]) || start <= k < i)
    {
      covered[i] := true;
      i := i + 1;
    }
    return Some(());
  }

  method CountLines(lines: seq<string>, covered: seq<bool>) returns (coveredCount: nat, total: nat)
    requires |covered| == |lines|
    ensures coveredCount == Count(|lines|, CoveredAt(lines, covered))
    ensures total == Count(|lines|, TextAt(lines))
  {
    ghost var p := CoveredAt(lines, covered);
    ghost var q := TextAt(lines);
    coveredCount, total := 0, 0;
    var i := 0;
    while i < |lines|
      invariant 0 <= i <= |lines| && coveredCount == Count(i, p) && total == Count(i, q)
    {
      if !Blank(lines[i]) {
        total := total + 1;
        if covered[i] {
          coveredCount := coveredCount + 1;
        }
      }
      i := i + 1;
    }
  }

  /** The coverage of a file: which lines the ranges cover, and the runs of lines left. Every
      line that is not blank is counted as covered or lies in exactly one run. None is a
      panic, which happens exactly when some range is no slice of the file. */
  method ComputeSingleFileCoverage(lines: seq<string>, ranges: seq<RangeEntry>) returns (r: Option<FileCoverage>)
    ensures r.Some? <==> forall x :: 0 <= x < |ranges| ==> Sliceable(ranges[x], |lines|)
    ensures r.Some? ==> Accounts(lines, ranges, r.value) && Measures(lines, ranges, r.value)
  {
    var covered := new bool[|lines|](i => false);
    var x := 0;
    while x < |ranges|
      invariant 0 <= x <= |ranges|
      invariant forall y :: 0 <= y < x ==> Sliceable(ranges[y], |lines|)
      invariant forall i :: 0 <= i < |lines| ==> (covered[i] <==> IsCovered(ranges[..x], |lines|, i))
    {
      var marked := MarkRange(covered, ranges[x]);
      if marked.None? {
        return None;
      }
      MoreCovered(ranges, x, |lines|);
      x := x + 1;
    }
    assert ranges[..x] == ranges;
    assert covered[..] == CoveredFlags(ranges, |lines|);
    var coverage := Summarize(lines, covered[..], ranges);
    AccountsMeasure(lines, ranges, coverage);
    return Some(coverage);
  }

  method Summarize(lines: seq<string>, covered: seq<bool>, ghost ranges: seq<RangeEntry>) returns (f: FileCoverage)
    requires covered == CoveredFlags(ranges, |lines|)
    ensures Accounts(lines, ranges, f)
  {
    var coveredCount, total := CountLines(lines, covered);
    var percent := if total > 0 then coveredCount as real / total as real * 100.0 else 100.0;
    var uncovered := FindUncoveredRanges(covered, lines);
    Conservation(lines, covered);
    PercentRight(coveredCount, total);
    NoLinesLeft(Uncovered(covered, lines), uncovered);
    return FileCoverage(|lines|, coveredCount, percent, uncovered);
  }

  lemma MoreCovered(ranges: seq<RangeEntry>, x: nat, n: nat)
    requires x < |ranges|
    ensures forall i: nat :: IsCovered(ranges[..x + 1], n, i) <==>
      IsCovered(ranges[..x], n, i) || Marks(ranges[x], n, i)
  {
    forall i: nat
      ensures IsCovered(ranges[..x + 1], n, i) <==> IsCovered(ranges[..x], n, i) || Marks(ranges[x], n, i)
    {
      if y :| 0 <= y < x && Marks(ranges[..x][y], n, i) {
        assert Marks(ranges[..x + 1][y], n, i);
      }
      if Marks(ranges[x], n, i) {
        assert Marks(ranges[..x + 1][x], n, i);
      }
    }
  }

  lemma Conservation(lines: seq<string>, covered: seq<bool>)
    requires |covered| == |lines|
    ensures Count(|lines|, TextAt(lines))
         == Count(|lines|, CoveredAt(lines, covered))
            + Count(|lines|, LeftAt(lines, covered))
  {
    CountSplit(|lines|, TextAt(lines),
               CoveredAt(lines, covered),
               LeftAt(lines, covered));
  }

  lemma PercentRight(covered: nat, total: nat)
    requires covered <= total
    ensures var p := if total > 0 then covered as real / total as real * 100.0 else 100.0;
      0.0 <= p <= 100.0 && (p == 100.0 <==> covered == total) && PercentOf(p, covered, total)
  {
    if total > 0 {
      var q := covered as real / total as real;
      assert q * total as real == covered as real;
      assert q > 1.0 ==> q * total as real > total as real;
      assert q < 0.0 ==> q * total as real < 0.0;
    }
  }

  lemma NoLinesLeft(flags: seq<bool>, rs: seq<UncoveredRange>)
    requires AreRuns(flags, rs)
    ensures LineTotal(rs) == 0 <==> rs == []
  {
    if rs != [] {
      assert IsRun(flags, Last(rs));
    }
  }
}
