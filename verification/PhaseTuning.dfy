/** MshcRockchipExecuteTuning: the search for a sampling phase on the circle of 360 phases. */
module PhaseTuning {
  const NUM_PHASES: nat := 360
  const BAD_PHASES_TO_SKIP: nat := 20
  const SAMPLE_PHASE_DEFAULT: nat := 0

  /** How every phase would answer the tuning command; each is tried at most once. */
  type Answers = s: seq<bool> | |s| == 360 witness seq(360, i => false)

  /** A range of good phases, both ends included; after the merge it may wrap around. */
  datatype Range = Range(start: nat, end: nat)

  // ---- which phases are tested ----

  /** Behind a bad phase the next few are skipped, but the last phase is always tested. */
  function NextIndex(ok: Answers, i: nat): (r: nat)
    requires i < NUM_PHASES
    ensures i < r <= NUM_PHASES
    ensures i < NUM_PHASES - 1 ==> r < NUM_PHASES
  {
    if ok[i] then i + 1
    else if i == NUM_PHASES - 1 then i + 1
    else if i + BAD_PHASES_TO_SKIP >= NUM_PHASES then NUM_PHASES - 1
    else i + BAD_PHASES_TO_SKIP
  }

  function TestedFrom(ok: Answers, i: nat): seq<nat>
    requires i <= NUM_PHASES
    decreases NUM_PHASES - i
  {
    if i == NUM_PHASES then [] else [i] + TestedFrom(ok, NextIndex(ok, i))
  }

  /** The phases that are tested and good, as seen when the scan stands at `i`. */
  predicate Good(ok: Answers, p: nat) { p < NUM_PHASES && p in TestedFrom(ok, 0) && ok[p] }

  lemma {:induction false} TestedAreAhead(ok: Answers, i: nat)
    requires i <= NUM_PHASES
    ensures forall p <- TestedFrom(ok, i) :: i <= p < NUM_PHASES
    decreases NUM_PHASES - i
  {
    if i < NUM_PHASES { TestedAreAhead(ok, NextIndex(ok, i)); }
  }

  /** The scan goes up, never tests a phase twice, and tests phase 359 last. */
  lemma {:induction false} ScanEndsAtLastPhase(ok: Answers, i: nat)
    requires i < NUM_PHASES
    ensures var t := TestedFrom(ok, i);
      && t != [] && t[0] == i && t[|t| - 1] == NUM_PHASES - 1
      && forall a, b :: 0 <= a < b < |t| ==> t[a] < t[b]
    decreases NUM_PHASES - i
  {
    var n := NextIndex(ok, i);
    if n < NUM_PHASES {
      ScanEndsAtLastPhase(ok, n);
      TestedAreAhead(ok, n);
      var t := TestedFrom(ok, i);
      assert t == [i] + TestedFrom(ok, n);
      forall a, b | 0 <= a < b < |t|
        ensures t[a] < t[b]
      {
        assert t[b] == TestedFrom(ok, n)[b - 1];
        if a > 0 { assert t[a] == TestedFrom(ok, n)[a - 1]; }
      }
    } else {
      assert TestedFrom(ok, i) == [i];
    }
  }

  /** The scan does not skip a window of 20 good phases. */
  lemma {:induction false} WindowIsHit(ok: Answers, a: nat, b: nat, i: nat) returns (p: nat)
    requires i <= b < 360 && b - a >= 19 && forall q: nat :: a <= q <= b ==> ok[q]
    ensures a <= p <= b && p in TestedFrom(ok, i)
    decreases 360 - i
  {
    if a <= i {
      p := i;
    } else {
      p := WindowIsHit(ok, a, b, NextIndex(ok, i));
    }
  }

  /** The answers with 19 good phases. */
  function Narrow(): Answers { seq(360, i => 1 <= i <= 19) }

  /** A window of 19 good phases may be skipped altogether. */
  lemma NarrowIsMissed()
    ensures forall p: nat :: p < 360 && p in TestedFrom(Narrow(), 0) ==> !Narrow()[p]
  {
    hide TestedFrom;
    var ok := Narrow();
    TestedNext(ok, 0);
    assert NextIndex(ok, 0) == 20;
    TestedAreAhead(ok, 20);
  }

  lemma TestedNext(ok: Answers, i: nat)
    requires i < 360
    ensures TestedFrom(ok, i) == [i] + TestedFrom(ok, NextIndex(ok, i))
  {
  }

  // ---- the runs of a map of good phases ----

  /** The runs of `true` in `g`, in order, as the scan builds them. */
  function Runs(g: seq<bool>): seq<Range> {
    if g == [] then []
    else
      var n := |g| - 1;
      Noted(Runs(g[..n]), g[n], n > 0 && g[n - 1], n)
  }

  /** One more phase, number n, good or not, after one that was good or not. */
  function Noted(r: seq<Range>, now: bool, before: bool, n: nat): seq<Range> {
    if !now then r
    else if before && r != [] then r[|r| - 1 := Range(r[|r| - 1].start, n)]
    else r + [Range(n, n)]
  }

  /** A maximal run. */
  predicate IsRun(g: seq<bool>, s: nat, e: nat) {
    && s <= e < |g| && (forall j :: s <= j <= e ==> g[j])
    && (s > 0 ==> !g[s - 1]) && (e < |g| - 1 ==> !g[e + 1])
  }

  /** The runs are in order and apart from each other. */
  predicate Apart(r: seq<Range>) { forall k, l :: 0 <= k < l < |r| ==> r[k].end + 1 < r[l].start }

  /** Ranges inside the first `n` phases, apart, and the last one touching the end if the last phase is good. */
  predicate Placed(r: seq<Range>, lastGood: bool, n: nat) {
    && (forall x <- r :: x.start <= x.end < n) && Apart(r)
    && (if lastGood then r != [] && r[|r| - 1].end + 1 == n else forall x <- r :: x.end + 1 < n)
  }

  lemma NotedPlaced(r: seq<Range>, now: bool, before: bool, n: nat)
    requires Placed(r, before, n)
    ensures Placed(Noted(r, now, before, n), now, n + 1)
  {
    var t := Noted(r, now, before, n);
    forall k, l | 0 <= k < l < |t|
      ensures t[k].end + 1 < t[l].start
    {
      assert r[k] in r;
      if l < |r| { assert r[k].end + 1 < r[l].start; }
    }
  }

  lemma {:induction false} RunsApart(g: seq<bool>)
    ensures Placed(Runs(g), g != [] && g[|g| - 1], |g|)
  {
    if g != [] {
      hide Placed;
      hide Noted;
      RunsApart(g[..|g| - 1]);
      NotedPlaced(Runs(g[..|g| - 1]), g[|g| - 1], |g| > 1 && g[|g| - 2], |g| - 1);
    }
  }

  /** A run seen before the last phase, after it. */
  lemma RunGrows(g: seq<bool>, s: nat, e: nat)
    requires g != [] && IsRun(g[..|g| - 1], s, e)
    ensures e < |g| - 2 || !g[|g| - 1] ==> IsRun(g, s, e)
    ensures e == |g| - 2 && g[|g| - 1] ==> IsRun(g, s, |g| - 1)
  {
    var n := |g| - 1;
    var h := g[..n];
    assert forall j :: 0 <= j < n ==> h[j] == g[j];
  }

  predicate AllRuns(g: seq<bool>, r: seq<Range>) {
    forall k :: 0 <= k < |r| ==> IsRun(g, r[k].start, r[k].end)
  }

  lemma NotedRuns(g: seq<bool>, r: seq<Range>)
    requires g != [] && AllRuns(g[..|g| - 1], r) && Apart(r) && forall x <- r :: x.start <= x.end < |g| - 1
    requires |g| > 1 && g[|g| - 2] ==> r != [] && r[|r| - 1].end == |g| - 2
    requires |g| > 1 && !g[|g| - 2] ==> forall x <- r :: x.end < |g| - 2
    ensures AllRuns(g, Noted(r, g[|g| - 1], |g| > 1 && g[|g| - 2], |g| - 1))
  {
    hide IsRun;
    var t := Noted(r, g[|g| - 1], |g| > 1 && g[|g| - 2], |g| - 1);
    forall k | 0 <= k < |t|
      ensures IsRun(g, t[k].start, t[k].end)
    {
      if k < |r| {
        assert r[k] in r && (k < |r| - 1 ==> r[k].end + 1 < r[|r| - 1].start);
        RunGrows(g, r[k].start, r[k].end);
      } else {
        SingleRun(g);
      }
    }
  }

  lemma {:induction false} RunsAreRuns(g: seq<bool>)
    ensures AllRuns(g, Runs(g)) && Apart(Runs(g))
  {
    hide AllRuns;
    hide Noted;
    RunsApart(g);
    if g != [] {
      RunsAreRuns(g[..|g| - 1]);
      RunsApart(g[..|g| - 1]);
      NotedRuns(g, Runs(g[..|g| - 1]));
    } else {
      NoRuns();
    }
  }

  lemma NoRuns()
    ensures AllRuns([], [])
  {
  }

  lemma SingleRun(g: seq<bool>)
    requires g != [] && g[|g| - 1] && (|g| > 1 ==> !g[|g| - 2])
    ensures IsRun(g, |g| - 1, |g| - 1)
  {
  }

  /** Every good phase lies in a run. */
  lemma {:induction false} RunsCover(g: seq<bool>, p: nat) returns (k: nat)
    requires p < |g| && g[p]
    ensures k < |Runs(g)| && Runs(g)[k].start <= p <= Runs(g)[k].end
    decreases |g|
  {
    var n := |g| - 1;
    RunsApart(g);
    if p == n {
      k := |Runs(g)| - 1;
    } else {
      k := RunsCover(g[..n], p);
    }
  }

  /** Maximal runs are exactly the recorded ones. */
  lemma RunsComplete(g: seq<bool>, s: nat, e: nat) returns (k: nat)
    requires IsRun(g, s, e)
    ensures k < |Runs(g)| && Runs(g)[k] == Range(s, e)
  {
    k := RunsCover(g, s);
    RunsAreRuns(g);
    var r := Runs(g)[k];
    assert IsRun(g, r.start, r.end);
  }

  lemma {:induction false} RunsAreFew(g: seq<bool>)
    ensures 2 * |Runs(g)| <= |g| + 1
    ensures g != [] && !g[|g| - 1] ==> 2 * |Runs(g)| <= |g|
  {
    if g != [] {
      RunsAreFew(g[..|g| - 1]);
    }
  }

  /** Phases that are skipped are not known to be good. */
  function Skipped(k: nat): (r: seq<bool>)
    ensures |r| == k && forall i :: 0 <= i < k ==> !r[i]
  {
    seq(k, i => false)
  }

  lemma {:induction false} RunsSkip(g: seq<bool>, k: nat)
    ensures Runs(g + Skipped(k)) == Runs(g)
    decreases k
  {
    var z := Skipped(k);
    if k == 0 {
      assert g + z == g;
    } else {
      assert (g + z)[..|g| + k - 1] == g + Skipped(k - 1);
      RunsSkip(g, k - 1);
    }
  }

  // ---- the circle ----

  function Around(i: nat, n: nat): (r: nat)
    requires i < 2 * n
    ensures r < n
  {
    if i < n then i else i - n
  }

  /** Phase `p` is one of the `len` phases from `s` on, going round. */
  predicate OnArc(p: nat, s: nat, len: nat, n: nat) {
    if s + len <= n then s <= p < s + len else s <= p < n || p < s + len - n
  }

  /** `len` neighbouring good phases on the circle, with a phase that is not good on either side. */
  predicate GoodArc(g: seq<bool>, s: nat, len: nat) {
    && s < |g| && 1 <= len < |g|
    && (forall p: nat :: p < |g| && OnArc(p, s, len, |g|) ==> g[p])
    && !g[Around(s + len, |g|)] && !g[if s == 0 then |g| - 1 else s - 1]
  }

  /** The wrap-around case: the last range is joined to the first. */
  function Merged(runs: seq<Range>, firstOk: bool, lastOk: bool): seq<Range> {
    if |runs| > 1 && firstOk && lastOk
    then [Range(runs[|runs| - 1].start, runs[0].end)] + runs[1..|runs| - 1]
    else runs
  }

  function Length(r: Range): (len: int) {
    var len := r.end - r.start + 1;
    if len < 0 then len + NUM_PHASES else len
  }

  lemma RunIsArc(g: seq<bool>, s: nat, e: nat)
    requires IsRun(g, s, e) && e - s + 1 < |g| && (s == 0 ==> !g[|g| - 1]) && (e == |g| - 1 ==> !g[0])
    ensures GoodArc(g, s, e - s + 1)
  {
  }

  lemma SplitRunIsArc(g: seq<bool>, s: nat, e: nat)
    requires g != [] && IsRun(g, s, |g| - 1) && IsRun(g, 0, e) && e + 1 < s
    ensures GoodArc(g, s, |g| - s + e + 1)
  {
    assert e < |g| - 1;
  }

  /** After the merge every range is an arc, and the length computed for it is its length on the circle. */
  lemma MergedAreArcs(g: seq<bool>, k: nat)
    requires |g| == NUM_PHASES && !(forall j :: 0 <= j < |g| ==> g[j])
    requires k < |Merged(Runs(g), g[0], g[|g| - 1])|
    ensures var r := Merged(Runs(g), g[0], g[|g| - 1])[k]; Length(r) >= 1 && GoodArc(g, r.start, Length(r))
  {
    hide GoodArc;
    hide Runs;
    hide IsRun;
    var n, runs := |g|, Runs(g);
    RunsAreRuns(g);
    RunBounds(g);
    if |runs| > 1 && g[0] && g[n - 1] {
      EndRuns(g);
      assert runs[0].end + 1 < runs[|runs| - 1].start;
      if k == 0 {
        SplitRunIsArc(g, runs[|runs| - 1].start, runs[0].end);
      } else {
        assert runs[0].end + 1 < runs[k].start && runs[k].end + 1 < runs[|runs| - 1].start;
        RunIsArc(g, runs[k].start, runs[k].end);
      }
    } else {
      if g[0] && g[n - 1] { EndRuns(g); }
      NotAll(g, runs[k]);
      EndsAreGood(g, runs[k]);
      RunIsArc(g, runs[k].start, runs[k].end);
    }
  }

  lemma RunBounds(g: seq<bool>)
    ensures forall k :: 0 <= k < |Runs(g)| ==> Runs(g)[k].start <= Runs(g)[k].end < |g|
  {
    RunsApart(g);
  }

  /** Where the first and the last phase are good, the first run starts and the last run ends the map. */
  lemma EndRuns(g: seq<bool>)
    requires g != [] && g[0] && g[|g| - 1]
    ensures var runs := Runs(g); runs != [] && runs[0].start == 0 && runs[|runs| - 1].end == |g| - 1
  {
    RunsApart(g);
    var k := RunsCover(g, 0);
  }

  lemma EndsAreGood(g: seq<bool>, r: Range)
    requires IsRun(g, r.start, r.end)
    ensures g[r.start] && g[r.end]
  {
  }

  lemma NotAll(g: seq<bool>, r: Range)
    requires IsRun(g, r.start, r.end) && !(forall j :: 0 <= j < |g| ==> g[j])
    ensures !(r.start == 0 && r.end == |g| - 1)
  {
  }

  /** Every arc of good phases is among the merged ranges. */
  lemma ArcsAreMerged(g: seq<bool>, s: nat, len: nat) returns (k: nat)
    requires |g| == NUM_PHASES && GoodArc(g, s, len)
    ensures var m := Merged(Runs(g), g[0], g[|g| - 1]); k < |m| && m[k].start == s && Length(m[k]) == len
  {
    hide GoodArc;
    hide Runs;
    hide IsRun;
    var n, runs := |g|, Runs(g);
    RunBounds(g);
    RunsApart(g);
    if s + len <= n {
      ArcIsRun(g, s, len);
      k := RunsComplete(g, s, s + len - 1);
      if |runs| > 1 && g[0] && g[n - 1] {
        EndRuns(g);
        InnerRun(g, s, len, k);
      }
    } else {
      k := 0;
      ArcIsTwoRuns(g, s, len);
      EndRuns(g);
      var a := RunsComplete(g, s, n - 1);
      var b := RunsComplete(g, 0, s + len - n - 1);
      assert a == |runs| - 1 && b == 0;
    }
  }

  lemma ArcIsRun(g: seq<bool>, s: nat, len: nat)
    requires GoodArc(g, s, len) && s + len <= |g|
    ensures IsRun(g, s, s + len - 1) && (s == 0 ==> !g[|g| - 1]) && (s + len == |g| ==> !g[0])
  {
    forall j | s <= j <= s + len - 1 ensures g[j] { assert OnArc(j, s, len, |g|); }
  }

  lemma ArcIsTwoRuns(g: seq<bool>, s: nat, len: nat)
    requires GoodArc(g, s, len) && s + len > |g|
    ensures IsRun(g, s, |g| - 1) && IsRun(g, 0, s + len - |g| - 1) && g[0] && g[|g| - 1]
    ensures s + len - |g| < s
  {
    forall j | 0 <= j < |g| && !(s + len - |g| <= j < s) ensures g[j] { assert OnArc(j, s, len, |g|); }
  }

  /** An arc that does not wrap is neither the first nor the last run when these are joined. */
  lemma InnerRun(g: seq<bool>, s: nat, len: nat, k: nat)
    requires GoodArc(g, s, len) && s + len <= |g| && g[0] && g[|g| - 1]
    requires k < |Runs(g)| && Runs(g)[k] == Range(s, s + len - 1)
    requires Runs(g)[0].start == 0 && Runs(g)[|Runs(g)| - 1].end == |g| - 1
    ensures 0 < k < |Runs(g)| - 1
  {
    ArcIsRun(g, s, len);
  }

  lemma AllGood(g: seq<bool>)
    requires |g| == NUM_PHASES
    ensures var m := Merged(Runs(g), g[0], g[|g| - 1]);
      (m != [] && m[0].start == 0 && m[0].end == NUM_PHASES - 1) <==> forall j :: 0 <= j < |g| ==> g[j]
  {
    var n, runs := |g|, Runs(g);
    RunsAreRuns(g);
    RunBounds(g);
    if forall j :: 0 <= j < n ==> g[j] {
      var _ := RunsComplete(g, 0, n - 1);
    } else if runs != [] {
      NotAll(g, runs[0]);
      if |runs| > 1 { assert runs[0].end + 1 < runs[|runs| - 1].start; }
    }
  }

  // ---- the search ----

  function GoodMap(ok: Answers): (g: seq<bool>)
    ensures |g| == NUM_PHASES
  {
    seq(NUM_PHASES, p requires 0 <= p < NUM_PHASES => Good(ok, p))
  }

  lemma FirstAndLast(ok: Answers)
    ensures GoodMap(ok)[0] == ok[0] && GoodMap(ok)[NUM_PHASES - 1] == ok[NUM_PHASES - 1]
  {
    ScanEndsAtLastPhase(ok, 0);
  }

  /** Notes a good phase: it starts a range or extends the last one. */
  method Record(ranges: array<Range>, rangeCount: nat, previousOk: bool, index: nat) returns (count: nat)
    requires rangeCount < ranges.Length && (previousOk ==> rangeCount > 0)
    modifies ranges
    ensures count <= ranges.Length && ranges[..count] == Noted(old(ranges[..rangeCount]), true, previousOk, index)
  {
    count := rangeCount;
    if !previousOk {
      count := count + 1;
      ranges[count - 1] := Range(index, ranges[count - 1].end);
    }
    ranges[count - 1] := Range(ranges[count - 1].start, index);
  }

  /** Where the scan stands: `g` is what is known of the phases below `index`, `rs` the ranges so far. */
  predicate Scanned(ok: Answers, index: nat, g: seq<bool>, tested: seq<nat>, rs: seq<Range>, previousOk: bool) {
    && index <= NUM_PHASES && |g| == index && rs == Runs(g) && previousOk == (index > 0 && g[index - 1])
    && Agrees(ok, g, tested) && tested + TestedFrom(ok, index) == TestedFrom(ok, 0)
  }

  lemma ScanStarts(ok: Answers)
    ensures Scanned(ok, 0, [], [], [], false)
  {
    NothingTested(ok);
  }

  lemma ScanRoom(ok: Answers, index: nat, g: seq<bool>, tested: seq<nat>, rs: seq<Range>, previousOk: bool)
    requires Scanned(ok, index, g, tested, rs, previousOk)
    ensures 2 * |rs| <= index + 1 && (previousOk ==> rs != [])
  {
    RunsAreFew(g);
    RunsApart(g);
  }

  lemma ScanStep(ok: Answers, index: nat, g: seq<bool>, tested: seq<nat>, rs: seq<Range>, previousOk: bool)
    requires Scanned(ok, index, g, tested, rs, previousOk) && index < NUM_PHASES
    ensures var next := NextIndex(ok, index);
      Scanned(ok, next, g + [ok[index]] + Skipped(next - index - 1), tested + [index],
              Noted(rs, ok[index], previousOk, index), ok[index])
  {
    hide Runs;
    hide Skipped;
    hide Noted;
    hide Agrees;
    var next := NextIndex(ok, index);
    RunsStep(g, ok[index]);
    RunsSkip(g + [ok[index]], next - index - 1);
    AgreesStep(ok, g, tested, next);
    assert tested + TestedFrom(ok, index) == (tested + [index]) + TestedFrom(ok, next);
  }

  lemma ScanDone(ok: Answers, g: seq<bool>, tested: seq<nat>, rs: seq<Range>, previousOk: bool)
    requires Scanned(ok, NUM_PHASES, g, tested, rs, previousOk)
    ensures tested == TestedFrom(ok, 0) && rs == Runs(GoodMap(ok))
  {
    AgreesAll(ok, g, tested);
  }

  /** The first loop: tries the phases and records the ranges of good ones. */
  method Scan(ok: Answers, ranges: array<Range>) returns (rangeCount: nat, firstOk: bool, currentOk: bool, ghost tested: seq<nat>)
    requires ranges.Length == NUM_PHASES / 2 + 1
    modifies ranges
    ensures tested == TestedFrom(ok, 0)
    ensures rangeCount <= ranges.Length && ranges[..rangeCount] == Runs(GoodMap(ok))
    ensures firstOk == ok[0] && currentOk == ok[NUM_PHASES - 1]
  {
    hide Runs;
    hide Skipped;
    hide GoodMap;
    hide Noted;
    hide Scanned;
    hide TestedFrom;
    var previousOk := false;
    firstOk, currentOk, rangeCount, tested := false, false, 0, [];
    var index: nat := 0;
    ghost var g: seq<bool> := [];
    ScanStarts(ok);
    while index < NUM_PHASES
      invariant index <= NUM_PHASES && rangeCount <= ranges.Length
      invariant Scanned(ok, index, g, tested, ranges[..rangeCount], previousOk)
      invariant index > 0 ==> firstOk == ok[0]
      invariant index == NUM_PHASES ==> currentOk == ok[NUM_PHASES - 1]
    {
      currentOk := ok[index];
      if index == 0 { firstOk := currentOk; }
      ghost var before := ranges[..rangeCount];
      ScanRoom(ok, index, g, tested, before, previousOk);
      ScanStep(ok, index, g, tested, before, previousOk);
      if currentOk {
        rangeCount := Record(ranges, rangeCount, previousOk, index);
      } else {
        NotGood(before, previousOk, index);
      }
      var next: nat := index + 1;
      if !currentOk && index != NUM_PHASES - 1 {
        next := index + BAD_PHASES_TO_SKIP;
        if next >= NUM_PHASES { next := NUM_PHASES - 1; }
      }
      g := g + [currentOk] + Skipped(next - index - 1);
      tested := tested + [index];
      previousOk := currentOk;
      index := next;
    }
    ScanDone(ok, g, tested, ranges[..rangeCount], previousOk);
  }

  lemma NotGood(r: seq<Range>, before: bool, n: nat)
    ensures Noted(r, false, before, n) == r
  {
  }

  lemma RunsStep(g: seq<bool>, now: bool)
    ensures Runs(g + [now]) == Noted(Runs(g), now, g != [] && g[|g| - 1], |g|)
  {
    hide Noted;
    assert (g + [now])[..|g|] == g;
  }

  /** So far, the map of good phases is the one that was tested. */
  predicate Agrees(ok: Answers, g: seq<bool>, tested: seq<nat>) {
    && |g| <= NUM_PHASES && (forall p <- tested :: p < |g|)
    && (forall p: nat :: p < |g| ==> (g[p] <==> p in tested && ok[p]))
  }

  lemma NothingTested(ok: Answers)
    ensures Agrees(ok, [], []) && [] == Runs([]) && [] + TestedFrom(ok, 0) == TestedFrom(ok, 0)
  {
  }

  lemma AgreesStep(ok: Answers, g: seq<bool>, tested: seq<nat>, next: nat)
    requires Agrees(ok, g, tested) && |g| < next <= NUM_PHASES
    ensures Agrees(ok, g + [ok[|g|]] + Skipped(next - |g| - 1), tested + [|g|])
  {
  }

  lemma AgreesAll(ok: Answers, g: seq<bool>, tested: seq<nat>)
    requires Agrees(ok, g, tested) && |g| == NUM_PHASES && tested == TestedFrom(ok, 0)
    ensures g == GoodMap(ok)
  {
  }

  /** What the result means: no good phase; or all good, and the default; or the middle of a longest arc. */
  ghost predicate Tuned(g: seq<bool>, found: bool, phase: nat) {
    if forall p: nat :: p < |g| ==> !g[p] then !found
    else if forall p: nat :: p < |g| ==> g[p] then found && phase == 0
    else found && exists s: nat, len: nat :: Longest(g, s, len) && phase == Around(s + len / 2, |g|)
  }

  ghost predicate Longest(g: seq<bool>, s: nat, len: nat) {
    GoodArc(g, s, len) && forall s2: nat, len2: nat :: GoodArc(g, s2, len2) ==> len2 <= len
  }

  /** The phase chosen is always one that was tested and found good. */
  lemma ChosenPhaseIsGood(ok: Answers, phase: nat)
    requires Tuned(GoodMap(ok), true, phase)
    ensures phase < NUM_PHASES && phase in TestedFrom(ok, 0) && ok[phase]
  {
    hide TestedFrom;
    hide OnArc;
    var g := GoodMap(ok);
    if exists p: nat :: p < |g| && !g[p] {
      var s: nat, len: nat :| Longest(g, s, len) && phase == Around(s + len / 2, |g|);
      MiddleIsGood(g, s, len);
    }
    assert g[phase];
  }

  lemma MiddleIsGood(g: seq<bool>, s: nat, len: nat)
    requires GoodArc(g, s, len)
    ensures s < |g| && len < |g| && g[Around(s + len / 2, |g|)]
  {
    assert OnArc(Around(s + len / 2, |g|), s, len, |g|);
  }

  /** Tuning does not fail where 20 phases in a row are good. */
  lemma WindowIsEnough(ok: Answers, a: nat, found: bool, phase: nat)
    requires a + 20 <= 360 && (forall q: nat :: a <= q < a + 20 ==> ok[q]) && Tuned(GoodMap(ok), found, phase)
    ensures found
  {
    var p := WindowIsHit(ok, a, a + 19, 0);
    assert GoodMap(ok)[p];
  }

  /** MshcRockchipExecuteTuning; `found` is false where it returns STATUS_IO_DEVICE_ERROR. */
  method ExecuteTuning(ok: Answers) returns (found: bool, phase: nat)
    ensures Tuned(GoodMap(ok), found, phase)
  {
    hide Runs;
    hide GoodMap;
    hide Tuned;
    hide TestedFrom;
    hide Length;
    hide GoodArc;
    ghost var g := GoodMap(ok);
    var ranges := new Range[NUM_PHASES / 2 + 1](i => Range(0, 0));
    var rangeCount, firstOk, currentOk, _ := Scan(ok, ranges);
    FirstAndLast(ok);
    ghost var runs := ranges[..rangeCount];
    if rangeCount == 0 {
      TunedNone(g);
      return false, 0;
    }
    if rangeCount > 1 && firstOk && currentOk {
      ranges[0] := Range(ranges[rangeCount - 1].start, ranges[0].end);
      rangeCount := rangeCount - 1;
    }
    ghost var merged := ranges[..rangeCount];
    assert merged == Merged(runs, firstOk, currentOk);
    AllGood(g);
    if ranges[0].start == 0 && ranges[0].end == NUM_PHASES - 1 {
      TunedDefault(g);
      return true, SAMPLE_PHASE_DEFAULT;
    }
    MergedLengths(g, merged);
    var longest, longestLength := FindLongest(ranges, rangeCount);
    assert merged == ranges[..rangeCount] && merged[longest] == ranges[longest];
    MergedAreArcs(g, longest);
    TunedLongest(g, merged, longest);
    var middle := ranges[longest].start + longestLength / 2;
    return true, middle % NUM_PHASES;
  }

  lemma MergedLengths(g: seq<bool>, m: seq<Range>)
    requires |g| == NUM_PHASES && !(forall j :: 0 <= j < |g| ==> g[j]) && m == Merged(Runs(g), g[0], g[|g| - 1])
    ensures forall k :: 0 <= k < |m| ==> Length(m[k]) >= 1
  {
    hide Length;
    forall k | 0 <= k < |m| ensures Length(m[k]) >= 1 { MergedAreArcs(g, k); }
  }

  /** The second loop: the first of the longest ranges. */
  method FindLongest(ranges: array<Range>, rangeCount: nat) returns (longest: nat, longestLength: int)
    requires 0 < rangeCount <= ranges.Length
    requires forall k :: 0 <= k < rangeCount ==> Length(ranges[..rangeCount][k]) >= 1
    ensures longest < rangeCount && longestLength == Length(ranges[longest])
    ensures forall k :: 0 <= k < rangeCount ==> Length(ranges[..rangeCount][k]) <= longestLength
    ensures forall k :: 0 <= k < longest ==> Length(ranges[..rangeCount][k]) < longestLength
  {
    var index := 0;
    longest, longestLength := 0, -1;
    while index < rangeCount
      invariant 0 <= index <= rangeCount
      invariant index == 0 <==> longestLength == -1
      invariant longest < rangeCount && (index > 0 ==> longestLength == Length(ranges[longest]))
      invariant forall k :: 0 <= k < index ==> Length(ranges[..rangeCount][k]) <= longestLength
      invariant forall k :: 0 <= k < longest ==> Length(ranges[..rangeCount][k]) < longestLength
    {
      var length: int := ranges[index].end - ranges[index].start + 1;
      if length < 0 { length := length + NUM_PHASES; }
      assert ranges[..rangeCount][index] == ranges[index] && length == Length(ranges[index]);
      if longestLength < length { longestLength, longest := length, index; }
      index := index + 1;
    }
  }

  lemma TunedNone(g: seq<bool>)
    requires |g| == NUM_PHASES && Runs(g) == []
    ensures Tuned(g, false, 0)
  {
    if p: nat :| p < |g| && g[p] {
      var k := RunsCover(g, p);
    }
  }

  lemma TunedDefault(g: seq<bool>)
    requires |g| == NUM_PHASES && forall p :: 0 <= p < |g| ==> g[p]
    ensures Tuned(g, true, SAMPLE_PHASE_DEFAULT)
  {
    assert g[0];
  }

  lemma TunedLongest(g: seq<bool>, m: seq<Range>, longest: nat)
    requires |g| == NUM_PHASES && !(forall p :: 0 <= p < |g| ==> g[p])
    requires m == Merged(Runs(g), g[0], g[|g| - 1]) && longest < |m| && Length(m[longest]) >= 1
    requires GoodArc(g, m[longest].start, Length(m[longest]))
    requires forall k :: 0 <= k < |m| ==> Length(m[k]) <= Length(m[longest])
    ensures Tuned(g, true, Around(m[longest].start + Length(m[longest]) / 2, NUM_PHASES))
    ensures Around(m[longest].start + Length(m[longest]) / 2, NUM_PHASES) == (m[longest].start + Length(m[longest]) / 2) % NUM_PHASES
  {
    hide GoodArc;
    hide Length;
    hide Merged;
    hide Runs;
    var s, len := m[longest].start, Length(m[longest]);
    NotTrivial(g, s, len);
    forall s2: nat, len2: nat | GoodArc(g, s2, len2)
      ensures len2 <= len
    {
      var k := ArcsAreMerged(g, s2, len2);
    }
    assert Longest(g, s, len);
  }

  lemma NotTrivial(g: seq<bool>, s: nat, len: nat)
    requires GoodArc(g, s, len)
    ensures s < |g| && len < |g| && g[s]
  {
    assert OnArc(s, s, len, |g|);
  }
}