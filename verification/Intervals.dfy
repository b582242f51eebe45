/** The two sweeps that look for time without jobs, and how gaps, work and wall time add up. */
module Intervals {
  import opened Wrappers
  import opened Sequences

  /** Instants are whole microseconds; a job covers both its ends. */
  datatype Span = Span(start: int, end: int)

  predicate IsJob(j: Span) {
    j.start <= j.end
  }

  predicate AreJobs(jobs: seq<Span>) {
    forall i | 0 <= i < |jobs| :: IsJob(jobs[i])
  }

  predicate SortedByStart(jobs: seq<Span>) {
    forall i, j | 0 <= i < j < |jobs| :: jobs[i].start <= jobs[j].start
  }

  // ----- Positions -----

  /**
   * Position 2t is the instant t, and 2t + 1 the open time between t and t + 1. A job covers positions
   * with its ends, a gap contains those strictly between its ends.
   */
  predicate Covers(j: Span, p: int) {
    2 * j.start <= p <= 2 * j.end
  }

  predicate Contains(g: Span, p: int) {
    2 * g.start < p < 2 * g.end
  }

  predicate Covered(jobs: seq<Span>, p: int) {
    exists i | 0 <= i < |jobs| :: Covers(jobs[i], p)
  }

  predicate InGaps(gaps: seq<Span>, p: int) {
    exists i | 0 <= i < |gaps| :: Contains(gaps[i], p)
  }

  /** Gaps that are not empty, in order, and never overlap. */
  predicate Separate(gaps: seq<Span>) {
    && (forall i | 0 <= i < |gaps| :: gaps[i].start < gaps[i].end)
    && forall i, j | 0 <= i < j < |gaps| :: gaps[i].end <= gaps[j].start
  }

  /** The gaps are exactly what the jobs leave free between `lo` and `hi`. */
  ghost predicate Complement(gaps: seq<Span>, jobs: seq<Span>, lo: int, hi: int) {
    && Separate(gaps)
    && forall p :: InGaps(gaps, p) <==> 2 * lo < p < 2 * hi && !Covered(jobs, p)
  }

  function Max(a: int, b: int): int {
    if a >= b then a else b
  }

  function Min(a: int, b: int): int {
    if a <= b then a else b
  }

  function FirstStart(jobs: seq<Span>): (m: int)
    requires jobs != []
    ensures (exists i :: 0 <= i < |jobs| && jobs[i].start == m) && forall i | 0 <= i < |jobs| :: m <= jobs[i].start
  {
    if |jobs| == 1 then jobs[0].start else Min(FirstStart(jobs[..|jobs| - 1]), jobs[|jobs| - 1].start)
  }

  function LastEnd(jobs: seq<Span>): (m: int)
    requires jobs != []
    ensures (exists i :: 0 <= i < |jobs| && jobs[i].end == m) && forall i | 0 <= i < |jobs| :: jobs[i].end <= m
  {
    if |jobs| == 1 then jobs[0].end else Max(LastEnd(jobs[..|jobs| - 1]), jobs[|jobs| - 1].end)
  }

  // ----- The sweep between jobs -----

  lemma CoveredSnoc(jobs: seq<Span>, j: Span, p: int)
    ensures Covered(jobs + [j], p) <==> Covered(jobs, p) || Covers(j, p)
  {
    var all := jobs + [j];
    assert all[|jobs|] == j && forall i | 0 <= i < |jobs| :: all[i] == jobs[i];
  }

  lemma GapsSnoc(gaps: seq<Span>, g: Span, p: int)
    ensures InGaps(gaps + [g], p) <==> InGaps(gaps, p) || Contains(g, p)
  {
    var all := gaps + [g];
    assert all[|gaps|] == g && forall i | 0 <= i < |gaps| :: all[i] == gaps[i];
  }

  /** One more job, starting no earlier than any before it. */
  lemma SweepStep(gaps: seq<Span>, jobs: seq<Span>, lo: int, until: int, j: Span)
    requires Complement(gaps, jobs, lo, until) && IsJob(j) && lo <= j.start && lo <= until
    requires forall i | 0 <= i < |gaps| :: gaps[i].end <= until
    requires forall i | 0 <= i < |gaps| :: gaps[i].end <= j.start
    requires until <= j.start ==> Covered(jobs, 2 * until) && forall p | Covered(jobs, p) :: p <= 2 * until
    ensures var more := if j.start > until then gaps + [Span(until, j.start)] else gaps;
            Complement(more, jobs + [j], lo, Max(until, j.end))
  {
    var more := if j.start > until then gaps + [Span(until, j.start)] else gaps;
    forall p ensures InGaps(more, p) <==> 2 * lo < p < 2 * Max(until, j.end) && !Covered(jobs + [j], p) {
      CoveredSnoc(jobs, j, p);
      GapsSnoc(gaps, Span(until, j.start), p);
    }
  }

  lemma CoveredBound(jobs: seq<Span>)
    requires jobs != [] && AreJobs(jobs)
    ensures Covered(jobs, 2 * LastEnd(jobs)) && forall p | Covered(jobs, p) :: p <= 2 * LastEnd(jobs)
  {
    var i :| 0 <= i < |jobs| && jobs[i].end == LastEnd(jobs);
    assert Covers(jobs[i], 2 * LastEnd(jobs));
  }

  /** The sweep over consecutive jobs, keeping how far the jobs seen so far reach. */
  method GapsBetween(jobs: seq<Span>) returns (gaps: seq<Span>)
    requires AreJobs(jobs) && SortedByStart(jobs)
    ensures jobs == [] ==> gaps == []
    ensures jobs != [] ==> Complement(gaps, jobs, FirstStart(jobs), LastEnd(jobs))
  {
    hide Complement, FirstStart, LastEnd, Covered;
    gaps := [];
    if jobs == [] {
      return;
    }
    var until := jobs[0].end;
    assert jobs[..1] == [jobs[0]];
    OneJob(jobs[0]);
    for i := 1 to |jobs|
      invariant until == LastEnd(jobs[..i])
      invariant Complement(gaps, jobs[..i], jobs[0].start, until)
      invariant forall k | 0 <= k < |gaps| :: gaps[k].end <= until && gaps[k].end <= jobs[i - 1].start
    {
      var j := jobs[i];
      assert jobs[..i + 1] == jobs[..i] + [j] && jobs[..i][0] == jobs[0];
      CoveredBound(jobs[..i]);
      LastEndSnoc(jobs[..i], j);
      SweepStep(gaps, jobs[..i], jobs[0].start, until, j);
      if j.start > until {
        gaps := gaps + [Span(until, j.start)];
      }
      until := Max(until, j.end);
    }
    assert jobs[..|jobs|] == jobs;
    SortedStart(jobs);
  }

  lemma OneJob(j: Span)
    requires IsJob(j)
    ensures LastEnd([j]) == j.end && Complement([], [j], j.start, j.end)
  {
    assert [j][0] == j;
    forall p ensures 2 * j.start < p < 2 * j.end ==> Covered([j], p) {
      assert 2 * j.start < p < 2 * j.end ==> Covers([j][0], p);
    }
  }

  lemma LastEndSnoc(jobs: seq<Span>, j: Span)
    requires jobs != []
    ensures LastEnd(jobs + [j]) == Max(LastEnd(jobs), j.end) && LastEnd(jobs) >= jobs[0].end
  {
    assert (jobs + [j])[..|jobs|] == jobs;
  }

  lemma SortedStart(jobs: seq<Span>)
    requires jobs != [] && SortedByStart(jobs)
    ensures FirstStart(jobs) == jobs[0].start
  {
  }

  // ----- The sweep over a given period -----

  /** What is known while the cursor moves on: everything before it is settled. */
  ghost predicate Settled(found: seq<Span>, jobs: seq<Span>, lo: int, hi: int, cursor: int) {
    && lo <= cursor
    && (forall p :: InGaps(found, p) <==> 2 * lo < p < 2 * cursor && p < 2 * hi && !Covered(jobs, p))
    && (forall p | Covered(jobs, p) :: p <= 2 * cursor)
    && (lo < cursor ==> Covered(jobs, 2 * cursor))
    && (forall i, j | 0 <= i < j < |found| :: found[i].end <= found[j].start)
    && (forall i | 0 <= i < |found| :: found[i].end <= cursor)
  }

  lemma CursorStep(found: seq<Span>, jobs: seq<Span>, lo: int, hi: int, cursor: int, j: Span)
    requires Settled(found, jobs, lo, hi, cursor) && IsJob(j)
    requires forall i | 0 <= i < |found| :: found[i].end <= j.start
    requires forall p | InGaps(found, p) :: p < 2 * j.start
    ensures var more := if j.start > cursor then found + [Span(cursor, Min(j.start, hi))] else found;
            Settled(more, jobs + [j], lo, hi, Max(cursor, j.end))
  {
    var more := if j.start > cursor then found + [Span(cursor, Min(j.start, hi))] else found;
    forall p
      ensures InGaps(more, p) <==> 2 * lo < p < 2 * Max(cursor, j.end) && p < 2 * hi && !Covered(jobs + [j], p)
      ensures Covered(jobs + [j], p) ==> p <= 2 * Max(cursor, j.end)
    {
      CoveredSnoc(jobs, j, p);
      GapsSnoc(found, Span(cursor, Min(j.start, hi)), p);
    }
    CoveredSnoc(jobs, j, 2 * Max(cursor, j.end));
  }

  predicate IsNonempty(g: Span) {
    g.end > g.start
  }

  /** Dropping empty intervals loses no position. */
  lemma {:induction false} DropEmpty(found: seq<Span>, p: int)
    ensures InGaps(Filter(IsNonempty, found), p) <==> InGaps(found, p)
  {
    if found != [] {
      DropEmpty(found[1..], p);
      assert found == [found[0]] + found[1..];
      ConsGaps(found[0], found[1..], p);
      ConsGaps(found[0], Filter(IsNonempty, found[1..]), p);
    }
  }

  lemma ConsGaps(g: Span, gaps: seq<Span>, p: int)
    ensures InGaps([g] + gaps, p) <==> Contains(g, p) || InGaps(gaps, p)
  {
    var all := [g] + gaps;
    assert all[0] == g && forall i | 0 <= i < |gaps| :: all[i + 1] == gaps[i];
  }

  lemma {:induction false} DropEmptyOrder(found: seq<Span>)
    requires forall i, j | 0 <= i < j < |found| :: found[i].end <= found[j].start
    ensures Separate(Filter(IsNonempty, found))
  {
    if found != [] {
      DropEmptyOrder(found[1..]);
      var rest := Filter(IsNonempty, found[1..]);
      forall i | 0 <= i < |rest| ensures found[0].end <= rest[i].start {
        assert rest[i] in rest && rest[i] in found[1..];
      }
    }
  }

  lemma SplitCover(jobs: seq<Span>, n: nat, p: int)
    requires n <= |jobs|
    ensures Covered(jobs, p) <==> Covered(jobs[..n], p) || exists i :: n <= i < |jobs| && Covers(jobs[i], p)
  {
    assert forall i | 0 <= i < n :: jobs[..n][i] == jobs[i];
  }

  /** Later jobs start too late to touch what was found. */
  lemma LaterJobsMiss(found: seq<Span>, jobs: seq<Span>, n: nat, lo: int, hi: int, cursor: int)
    requires n <= |jobs| && Settled(found, jobs[..n], lo, hi, cursor) && cursor >= hi
    requires forall p, i | InGaps(found, p) && n <= i < |jobs| :: p < 2 * jobs[i].start
    ensures forall p :: InGaps(found, p) <==> 2 * lo < p < 2 * hi && !Covered(jobs, p)
  {
    forall p ensures InGaps(found, p) <==> 2 * lo < p < 2 * hi && !Covered(jobs, p) {
      SplitCover(jobs, n, p);
    }
  }

  /** The sweep of a period by a cursor; it stops as soon as the cursor leaves the period. */
  method Unoccupied(jobs: seq<Span>, lo: int, hi: int) returns (gaps: seq<Span>)
    requires AreJobs(jobs) && SortedByStart(jobs)
    ensures Complement(gaps, jobs, lo, hi)
  {
    hide Settled, Covered, InGaps;
    var found: seq<Span> := [];
    var cursor := lo;
    var i := 0;
    NothingSettled(lo, hi);
    assert jobs[..0] == [];
    while i < |jobs|
      invariant 0 <= i <= |jobs|
      invariant Settled(found, jobs[..i], lo, hi, cursor)
      invariant forall k, l | 0 <= k < |found| && i <= l < |jobs| :: found[k].end <= jobs[l].start
      decreases |jobs| - i
    {
      var j := jobs[i];
      assert jobs[..i + 1] == jobs[..i] + [j];
      FoundBefore(found, j.start);
      CursorStep(found, jobs[..i], lo, hi, cursor, j);
      if j.start > cursor {
        found := found + [Span(cursor, Min(j.start, hi))];
      }
      cursor := Max(cursor, j.end);
      i := i + 1;
      if cursor >= hi {
        break;
      }
    }
    if cursor < hi {
      assert jobs[..i] == jobs;
      LastStretch(found, jobs, lo, hi, cursor);
      found := found + [Span(cursor, hi)];
    } else {
      forall p, k | InGaps(found, p) && i <= k < |jobs| ensures p < 2 * jobs[k].start {
        FoundBefore(found, jobs[k].start);
      }
      LaterJobsMiss(found, jobs, i, lo, hi, cursor);
      SettledOrder(found, jobs[..i], lo, hi, cursor);
    }
    gaps := Filter(IsNonempty, found);
    DropEmptyOrder(found);
    forall p ensures InGaps(gaps, p) <==> InGaps(found, p) {
      DropEmpty(found, p);
    }
  }

  lemma NothingSettled(lo: int, hi: int)
    ensures Settled([], [], lo, hi, lo)
  {
  }

  lemma FoundBefore(found: seq<Span>, start: int)
    ensures (forall k | 0 <= k < |found| :: found[k].end <= start) ==> forall p | InGaps(found, p) :: p < 2 * start
  {
  }

  lemma SettledOrder(found: seq<Span>, jobs: seq<Span>, lo: int, hi: int, cursor: int)
    requires Settled(found, jobs, lo, hi, cursor)
    ensures forall i, j | 0 <= i < j < |found| :: found[i].end <= found[j].start
  {
  }

  lemma LastStretch(found: seq<Span>, jobs: seq<Span>, lo: int, hi: int, cursor: int)
    requires Settled(found, jobs, lo, hi, cursor) && cursor < hi
    ensures var all := found + [Span(cursor, hi)];
            && (forall p :: InGaps(all, p) <==> 2 * lo < p < 2 * hi && !Covered(jobs, p))
            && forall i, j | 0 <= i < j < |all| :: all[i].end <= all[j].start
  {
    forall p ensures InGaps(found + [Span(cursor, hi)], p) <==> 2 * lo < p < 2 * hi && !Covered(jobs, p) {
      GapsSnoc(found, Span(cursor, hi), p);
    }
  }

  // ----- One answer -----

  lemma FirstGapIsThere(gaps: seq<Span>)
    requires Separate(gaps) && gaps != []
    ensures InGaps(gaps, 2 * gaps[0].start + 1)
  {
    assert Contains(gaps[0], 2 * gaps[0].start + 1);
  }

  /** Separate gaps are determined by the positions they contain. */
  lemma {:induction false} GapsAreUnique(a: seq<Span>, b: seq<Span>)
    requires Separate(a) && Separate(b) && forall p :: InGaps(a, p) <==> InGaps(b, p)
    ensures a == b
  {
    if a == [] {
      if b != [] {
        FirstGapIsThere(b);
      }
    } else {
      FirstGapIsThere(a);
      assert InGaps(b, 2 * a[0].start + 1);
      FirstGapAgrees(a, b);
      forall p ensures InGaps(a[1..], p) <==> InGaps(b[1..], p) {
        TailGaps(a, p);
        TailGaps(b, p);
      }
      GapsAreUnique(a[1..], b[1..]);
      assert a == [a[0]] + a[1..] && b == [b[0]] + b[1..];
    }
  }

  lemma FirstGapAgrees(a: seq<Span>, b: seq<Span>)
    requires Separate(a) && Separate(b) && a != [] && b != [] && forall p :: InGaps(a, p) <==> InGaps(b, p)
    ensures a[0] == b[0]
  {
    NotBefore(a, b);
    NotBefore(b, a);
    NotShorter(a, b);
    NotShorter(b, a);
  }

  lemma NotBefore(a: seq<Span>, b: seq<Span>)
    requires Separate(a) && Separate(b) && a != [] && b != [] && forall p :: InGaps(a, p) <==> InGaps(b, p)
    ensures b[0].start <= a[0].start
  {
    var p := 2 * a[0].start + 1;
    assert Contains(a[0], p) && InGaps(a, p);
    var i :| 0 <= i < |b| && Contains(b[i], p);
  }

  lemma NotShorter(a: seq<Span>, b: seq<Span>)
    requires Separate(a) && Separate(b) && a != [] && b != [] && forall p :: InGaps(a, p) <==> InGaps(b, p)
    requires a[0].start == b[0].start
    ensures b[0].end <= a[0].end
  {
    var p := 2 * a[0].end;
    assert !InGaps(a, p);
    assert !Contains(b[0], p);
  }

  lemma TailGaps(gaps: seq<Span>, p: int)
    requires Separate(gaps) && gaps != []
    ensures InGaps(gaps[1..], p) <==> InGaps(gaps, p) && !Contains(gaps[0], p)
  {
    assert gaps == [gaps[0]] + gaps[1..];
    ConsGaps(gaps[0], gaps[1..], p);
    if InGaps(gaps[1..], p) {
      var i :| 0 <= i < |gaps[1..]| && Contains(gaps[1..][i], p);
      assert gaps[1..][i] == gaps[i + 1];
    }
  }

  lemma CoverageIgnoresOrder(a: seq<Span>, b: seq<Span>, p: int)
    requires multiset(a) == multiset(b)
    ensures Covered(a, p) <==> Covered(b, p)
  {
    if Covered(a, p) {
      var i :| 0 <= i < |a| && Covers(a[i], p);
      assert a[i] in multiset(b);
      var j :| 0 <= j < |b| && b[j] == a[i];
    }
    if Covered(b, p) {
      var i :| 0 <= i < |b| && Covers(b[i], p);
      assert b[i] in multiset(a);
      var j :| 0 <= j < |a| && a[j] == b[i];
    }
  }

  /**
   * However ties are ordered, sweeping between the jobs and sweeping the period from the first start to
   * the last end find the same gaps.
   */
  method SweepsAgree(byBoth: seq<Span>, byStart: seq<Span>) returns (between: seq<Span>, free: seq<Span>)
    requires byBoth != [] && multiset(byBoth) == multiset(byStart) && AreJobs(byBoth)
    requires SortedByStart(byBoth) && SortedByStart(byStart)
    ensures between == free && Complement(free, byBoth, FirstStart(byBoth), LastEnd(byBoth))
  {
    hide FirstStart, LastEnd, Covered, InGaps, Separate;
    forall i | 0 <= i < |byStart| ensures IsJob(byStart[i]) {
      assert byStart[i] in multiset(byBoth);
      var k :| 0 <= k < |byBoth| && byBoth[k] == byStart[i];
    }
    between := GapsBetween(byBoth);
    free := Unoccupied(byStart, FirstStart(byBoth), LastEnd(byBoth));
    forall p ensures Covered(byBoth, p) <==> Covered(byStart, p) {
      CoverageIgnoresOrder(byBoth, byStart, p);
    }
    GapsAreUnique(between, free);
  }

  // ----- Wall time -----

  function Length(spans: seq<Span>): int {
    if spans == [] then 0
    else Length(spans[..|spans| - 1]) + (spans[|spans| - 1].end - spans[|spans| - 1].start)
  }

  /** The unit cells from `a` to `b`. */
  function Cells(a: int, b: int): (cells: set<int>)
    ensures forall t :: t in cells <==> a <= t < b
    ensures |cells| == if a <= b then b - a else 0
    decreases b - a
  {
    if b <= a then {} else Cells(a, b - 1) + {b - 1}
  }

  /** The unit cells of at least one span. */
  function CellsOf(spans: seq<Span>): set<int> {
    if spans == [] then {}
    else CellsOf(spans[..|spans| - 1]) + Cells(spans[|spans| - 1].start, spans[|spans| - 1].end)
  }

  lemma {:induction false} CellsOfMeans(spans: seq<Span>, t: int)
    ensures t in CellsOf(spans) <==> exists i :: 0 <= i < |spans| && spans[i].start <= t < spans[i].end
  {
    hide Cells;
    if spans != [] {
      var n := |spans| - 1;
      var front, last := spans[..n], spans[n];
      CellsOfMeans(front, t);
      assert CellsOf(spans) == CellsOf(front) + Cells(last.start, last.end);
      assert forall i | 0 <= i < n :: front[i] == spans[i];
      assert (exists i :: 0 <= i < |spans| && spans[i].start <= t < spans[i].end)
        <==> last.start <= t < last.end || exists i :: 0 <= i < n && front[i].start <= t < front[i].end;
    }
  }

  ghost predicate Apart(spans: seq<Span>) {
    forall i, j | 0 <= i < j < |spans| :: spans[i].end <= spans[j].start || spans[j].end <= spans[i].start
        || spans[i].start == spans[i].end || spans[j].start == spans[j].end
  }

  ghost predicate ApartFrom(front: seq<Span>, last: Span) {
    forall i | 0 <= i < |front| ::
      front[i].end <= last.start || last.end <= front[i].start || front[i].start == front[i].end || last.start == last.end
  }

  /** Spans add up to at least the cells they fill, and to exactly that when no two share a cell. */
  lemma {:induction false} LengthAndCells(spans: seq<Span>)
    requires AreJobs(spans)
    ensures |CellsOf(spans)| <= Length(spans)
    ensures |CellsOf(spans)| == Length(spans) <==> Apart(spans)
  {
    assert Apart([]);
    hide Apart, ApartFrom, Cells;
    if spans != [] {
      var n := |spans| - 1;
      var front, last := spans[..n], spans[n];
      assert forall i | 0 <= i < n :: front[i] == spans[i];
      LengthAndCells(front);
      var filled, more := CellsOf(front), Cells(last.start, last.end);
      assert |filled + more| + |filled * more| == |filled| + |more|;
      LastApart(front, last);
      assert |filled * more| == 0 <==> filled * more == {};
      assert spans == front + [last];
      ApartSnoc(front, last);
    }
  }

  lemma ApartSnoc(front: seq<Span>, last: Span)
    ensures Apart(front + [last]) <==> Apart(front) && ApartFrom(front, last)
  {
    var all := front + [last];
    assert all[|front|] == last && forall i | 0 <= i < |front| :: all[i] == front[i];
  }

  lemma LastApart(front: seq<Span>, last: Span)
    requires AreJobs(front) && IsJob(last)
    ensures CellsOf(front) * Cells(last.start, last.end) == {} <==> ApartFrom(front, last)
  {
    var shared := CellsOf(front) * Cells(last.start, last.end);
    if shared != {} {
      var t :| t in shared;
      CellsOfMeans(front, t);
      var i :| 0 <= i < |front| && front[i].start <= t < front[i].end;
      assert !(front[i].end <= last.start || last.end <= front[i].start);
    }
    forall i | 0 <= i < |front|
      ensures shared == {} ==>
        front[i].end <= last.start || last.end <= front[i].start || front[i].start == front[i].end || last.start == last.end
    {
      var t := Max(front[i].start, last.start);
      CellsOfMeans(front, t);
      assert front[i].start <= t < front[i].end && last.start <= t < last.end ==> t in shared;
    }
  }

  lemma CellOfPosition(spans: seq<Span>, t: int)
    ensures t in CellsOf(spans) <==> Covered(spans, 2 * t + 1)
    ensures t in CellsOf(spans) <==> InGaps(spans, 2 * t + 1)
  {
    CellsOfMeans(spans, t);
    if Covered(spans, 2 * t + 1) {
      var i :| 0 <= i < |spans| && Covers(spans[i], 2 * t + 1);
      assert spans[i].start <= t < spans[i].end;
    }
    if InGaps(spans, 2 * t + 1) {
      var i :| 0 <= i < |spans| && Contains(spans[i], 2 * t + 1);
      assert spans[i].start <= t < spans[i].end;
    }
    if t in CellsOf(spans) {
      var i :| 0 <= i < |spans| && spans[i].start <= t < spans[i].end;
      assert Covers(spans[i], 2 * t + 1) && Contains(spans[i], 2 * t + 1);
    }
  }

  /**
   * The wall time from the first start to the last end is the gaps plus the time with at least one job.
   * It is at most the durations plus the gaps, and equal to that exactly when no two jobs overlap.
   */
  lemma WallTime(jobs: seq<Span>, gaps: seq<Span>)
    requires jobs != [] && AreJobs(jobs) && Complement(gaps, jobs, FirstStart(jobs), LastEnd(jobs))
    ensures var wall := LastEnd(jobs) - FirstStart(jobs);
            && wall == Length(gaps) + |CellsOf(jobs)|
            && wall <= Length(jobs) + Length(gaps)
            && (wall == Length(jobs) + Length(gaps) <==> Apart(jobs))
  {
    var lo, hi := FirstStart(jobs), LastEnd(jobs);
    var all, busy, free := Cells(lo, hi), CellsOf(jobs), CellsOf(gaps);
    assert lo <= jobs[0].start <= jobs[0].end <= hi;
    forall t ensures t in all <==> t in busy || t in free {
      CellOfPosition(jobs, t);
      CellOfPosition(gaps, t);
      CellsOfMeans(jobs, t);
    }
    forall t ensures !(t in busy && t in free) {
      CellOfPosition(jobs, t);
      CellOfPosition(gaps, t);
    }
    assert all == busy + free && busy * free == {};
    LengthAndCells(jobs);
    LengthAndCells(gaps);
    assert Apart(gaps);
  }

  // ----- The wall time a cycle reports -----

  /** An attempt of the day; the sweeps see it only when it is terminal and has both its times. */
  datatype Attempt = Attempt(start: Option<int>, end: Option<int>, terminal: bool)

  predicate IsSwept(a: Attempt) {
    a.terminal && a.start.Some? && a.end.Some? && a.start.value <= a.end.value
  }

  function SpanOf(a: Attempt): Span {
    Span(a.start.GetOr(0), a.end.GetOr(0))
  }

  function Swept(attempts: seq<Attempt>): seq<Span> {
    Map(SpanOf, Filter(IsSwept, attempts))
  }

  function Earliest(attempts: seq<Attempt>): Option<int> {
    if attempts == [] then None
    else
      var n := |attempts| - 1;
      var front, last := Earliest(attempts[..n]), attempts[n].start;
      if front.None? then last else if last.None? then front else Some(Min(front.value, last.value))
  }

  function Latest(attempts: seq<Attempt>): Option<int> {
    if attempts == [] then None
    else
      var n := |attempts| - 1;
      var front, last := Latest(attempts[..n]), attempts[n].end;
      if front.None? then last else if last.None? then front else Some(Max(front.value, last.value))
  }

  /** The last end of any attempt minus the first start of any, whether or not it has the other time. */
  function CycleWall(attempts: seq<Attempt>): Option<int> {
    var first, last := Earliest(attempts), Latest(attempts);
    if first.Some? && last.Some? then Some(last.value - first.value) else None
  }

  lemma {:induction false} EarliestIsFirst(attempts: seq<Attempt>)
    ensures forall i | 0 <= i < |attempts| && attempts[i].start.Some? ::
              Earliest(attempts).Some? && Earliest(attempts).value <= attempts[i].start.value
    ensures Earliest(attempts).Some? ==> exists i :: 0 <= i < |attempts| && attempts[i].start == Earliest(attempts)
  {
    if attempts != [] {
      var n := |attempts| - 1;
      EarliestIsFirst(attempts[..n]);
      assert forall i | 0 <= i < n :: attempts[..n][i] == attempts[i];
      if Earliest(attempts[..n]).Some? {
        var i :| 0 <= i < n && attempts[..n][i].start == Earliest(attempts[..n]);
        assert attempts[i].start == Earliest(attempts[..n]);
      }
    }
  }

  lemma {:induction false} LatestIsLast(attempts: seq<Attempt>)
    ensures forall i | 0 <= i < |attempts| && attempts[i].end.Some? ::
              Latest(attempts).Some? && attempts[i].end.value <= Latest(attempts).value
    ensures Latest(attempts).Some? ==> exists i :: 0 <= i < |attempts| && attempts[i].end == Latest(attempts)
  {
    if attempts != [] {
      var n := |attempts| - 1;
      LatestIsLast(attempts[..n]);
      assert forall i | 0 <= i < n :: attempts[..n][i] == attempts[i];
      if Latest(attempts[..n]).Some? {
        var i :| 0 <= i < n && attempts[..n][i].end == Latest(attempts[..n]);
        assert attempts[i].end == Latest(attempts[..n]);
      }
    }
  }

  /** The swept jobs are those of the attempts. */
  lemma SweptComeFrom(attempts: seq<Attempt>, i: nat) returns (k: nat)
    requires i < |Swept(attempts)|
    ensures k < |attempts| && IsSwept(attempts[k]) && SpanOf(attempts[k]) == Swept(attempts)[i]
  {
    var kept := Filter(IsSwept, attempts);
    assert kept[i] in kept;
    var j :| 0 <= j < |attempts| && attempts[j] == kept[i];
    k := j;
  }

  /** A job is swept if and only if some terminal attempt has its two times, in order. */
  lemma SweptExactly(attempts: seq<Attempt>, job: Span)
    ensures job in Swept(attempts) <==>
              exists a :: a in attempts && a.terminal && a.start == Some(job.start) && a.end == Some(job.end)
                          && job.start <= job.end
  {
    var kept := Filter(IsSwept, attempts);
    if job in Swept(attempts) {
      var i :| 0 <= i < |kept| && Swept(attempts)[i] == job;
      assert kept[i] in kept;
    }
    if a :| a in attempts && a.terminal && a.start == Some(job.start) && a.end == Some(job.end) && job.start <= job.end {
      assert a in kept;
      var i :| 0 <= i < |kept| && kept[i] == a;
      assert Swept(attempts)[i] == job;
    }
  }

  /** No attempt that the sweeps leave out reaches beyond those they see. */
  ghost predicate NothingBeyond(attempts: seq<Attempt>)
    requires Swept(attempts) != []
  {
    forall i | 0 <= i < |attempts| ::
      && (attempts[i].start.Some? ==> FirstStart(Swept(attempts)) <= attempts[i].start.value)
      && (attempts[i].end.Some? ==> attempts[i].end.value <= LastEnd(Swept(attempts)))
  }

  /**
   * The reported wall time equals the gaps plus the busy time if and only if no running, rejected or
   * half-recorded attempt reaches beyond the swept jobs; otherwise it is larger.
   */
  lemma CycleWallExactly(attempts: seq<Attempt>, gaps: seq<Span>)
    requires Swept(attempts) != []
    requires Complement(gaps, Swept(attempts), FirstStart(Swept(attempts)), LastEnd(Swept(attempts)))
    ensures CycleWall(attempts).Some?
    ensures CycleWall(attempts).value >= Length(gaps) + |CellsOf(Swept(attempts))|
    ensures CycleWall(attempts).value == Length(gaps) + |CellsOf(Swept(attempts))| <==> NothingBeyond(attempts)
  {
    hide Complement, CellsOf, Length, Swept;
    var jobs := Swept(attempts);
    EarliestIsFirst(attempts);
    LatestIsLast(attempts);
    forall i | 0 <= i < |jobs| ensures IsJob(jobs[i]) {
      var k := SweptComeFrom(attempts, i);
    }
    WallTime(jobs, gaps);
    var a :| 0 <= a < |jobs| && jobs[a].start == FirstStart(jobs);
    var b :| 0 <= b < |jobs| && jobs[b].end == LastEnd(jobs);
    var first := SweptComeFrom(attempts, a);
    var last := SweptComeFrom(attempts, b);
    assert attempts[first].start == Some(FirstStart(jobs)) && attempts[last].end == Some(LastEnd(jobs));
    var i :| 0 <= i < |attempts| && attempts[i].start == Earliest(attempts);
    var j :| 0 <= j < |attempts| && attempts[j].end == Latest(attempts);
  }

  lemma SweptOne(a: Attempt, other: Attempt)
    requires IsSwept(a) && !IsSwept(other)
    ensures Swept([a, other]) == [SpanOf(a)]
  {
    assert [a, other] == [a] + [other];
    FilterAppend(IsSwept, [a], [other]);
    FilterAll(IsSwept, [a]);
    FilterNone(IsSwept, [other]);
    assert Filter(IsSwept, [a, other]) == [a];
  }

  lemma OneSpanCells(j: Span)
    ensures CellsOf([j]) == Cells(j.start, j.end)
  {
    assert [j][..0] == [];
  }

  lemma WallOfTwo(a: Attempt, b: Attempt)
    requires a.start.Some? && a.end.Some? && b.start.Some? && b.end.None?
    ensures CycleWall([a, b]) == Some(a.end.value - Min(a.start.value, b.start.value))
  {
    assert [a, b][..1] == [a] && [a][..0] == [];
    assert Earliest([a]) == a.start && Latest([a]) == a.end;
  }

  /** A job that is still running can make the reported wall time exceed gaps and work together. */
  lemma RunningJobAddsWall()
    ensures var attempts := [Attempt(Some(0), Some(10), true), Attempt(Some(-5), None, false)];
            Swept(attempts) == [Span(0, 10)] && CycleWall(attempts) == Some(15)
    ensures Complement([], [Span(0, 10)], 0, 10) && |CellsOf([Span(0, 10)])| == 10
  {
    hide Complement, CellsOf, Swept, CycleWall, Cells;
    SweptOne(Attempt(Some(0), Some(10), true), Attempt(Some(-5), None, false));
    WallOfTwo(Attempt(Some(0), Some(10), true), Attempt(Some(-5), None, false));
    OneJob(Span(0, 10));
    OneSpanCells(Span(0, 10));
  }
}
