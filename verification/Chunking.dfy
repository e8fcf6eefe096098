/** Clause-primary chunking with windowed fallback (app/services/chunking.py). */
module Chunking {
  import opened Wrappers
  import opened Text
  import opened Parsing

  const MAX_CHUNK_CHARS: nat := 8000
  const OVERLAP_CHARS: nat := 200

  datatype Chunk = Chunk(text: string, charStart: nat, charEnd: nat)

  // ----- Windows over one range -----

  /** `text.rfind(c, lo, hi)`. */
  function RFind(text: string, c: char, lo: nat, hi: nat): (r: int)
    requires lo <= hi <= |text|
    ensures r == -1 || lo <= r < hi
    decreases hi
  {
    if lo == hi then -1 else if text[hi - 1] == c then hi - 1 else RFind(text, c, lo, hi - 1)
  }

  lemma {:induction false} RFindIsLast(text: string, c: char, lo: nat, hi: nat)
    requires lo <= hi <= |text|
    ensures var r := RFind(text, c, lo, hi);
            (r >= 0 ==> text[r] == c) && forall k :: lo <= k < hi && r < k ==> text[k] != c
    decreases hi
  {
    if lo < hi && text[hi - 1] != c {
      RFindIsLast(text, c, lo, hi - 1);
    }
  }

  function Max(a: int, b: int): int {
    if a < b then b else a
  }

  function Min(a: int, b: int): int {
    if b < a then b else a
  }

  /** The last space or newline strictly after `floor` and before `limit`, else `limit`. */
  function SnapBackward(text: string, limit: nat, floor: nat): (stop: nat)
    requires floor < limit <= |text|
    ensures floor < stop <= limit
  {
    var cut := Max(RFind(text, ' ', floor, limit), RFind(text, '\n', floor, limit));
    if cut > floor then cut else limit
  }

  predicate Qualifies(bound: int, pos: nat) {
    pos < bound <= pos + MAX_CHUNK_CHARS && bound - pos >= MAX_CHUNK_CHARS / 2
  }

  /** `max(stops)` over the qualifying bounds, if there is one. */
  function BestStop(bounds: seq<int>, pos: nat): (r: Option<int>)
    ensures r.Some? ==> Qualifies(r.value, pos)
  {
    if bounds == [] then None
    else
      var rest := BestStop(bounds[1..], pos);
      if !Qualifies(bounds[0], pos) then rest
      else if rest.None? then Some(bounds[0])
      else Some(Max(bounds[0], rest.value))
  }

  lemma {:induction false} BestStopIsMax(bounds: seq<int>, pos: nat)
    ensures var r := BestStop(bounds, pos);
            && (r.Some? ==> r.value in bounds)
            && forall b <- bounds :: Qualifies(b, pos) ==> r.Some? && b <= r.value
  {
    if bounds != [] {
      BestStopIsMax(bounds[1..], pos);
    }
  }

  function StopAfter(text: string, pos: nat, bounds: seq<int>): (stop: nat)
    requires pos + MAX_CHUNK_CHARS <= |text|
    ensures pos < stop <= pos + MAX_CHUNK_CHARS
  {
    var best := BestStop(bounds, pos);
    if best.Some? then best.value else SnapBackward(text, pos + MAX_CHUNK_CHARS, pos)
  }

  /** Where the window after `[pos, stop)` begins; `RunEnd` is `_snap_forward`. */
  function NextPos(text: string, pos: nat, stop: nat): (next: nat)
    requires pos < stop <= |text|
    ensures pos < next <= stop
    ensures stop - OVERLAP_CHARS <= next
  {
    var nxt := RunEnd(text, Max(stop - OVERLAP_CHARS, pos + 1));
    Max(Min(nxt, stop), pos + 1)
  }

  function Windows(text: string, pos: nat, end: nat, bounds: seq<int>): seq<Span>
    requires end <= |text|
    decreases end - pos
  {
    if pos >= end then []
    else if end - pos <= MAX_CHUNK_CHARS then [Span(pos, end)]
    else
      var stop := StopAfter(text, pos, bounds);
      [Span(pos, stop)] + Windows(text, NextPos(text, pos, stop), end, bounds)
  }

  method SplitRange(text: string, start: nat, end: nat, bounds: seq<int>) returns (windows: seq<Span>)
    requires end <= |text|
    ensures windows == Windows(text, start, end, bounds)
  {
    windows := [];
    var pos := start;
    ghost var all := Windows(text, start, end, bounds);
    assert windows + all == all;
    while pos < end
      invariant windows + Windows(text, pos, end, bounds) == all
      decreases end - pos
    {
      if end - pos <= MAX_CHUNK_CHARS {
        windows := windows + [Span(pos, end)];
        return;
      }
      var stop := StopAfter(text, pos, bounds);
      windows := windows + [Span(pos, stop)];
      pos := NextPos(text, pos, stop);
    }
  }

  // ----- Shape of the windows -----

  /** `b` may follow `a`: it starts later, inside or right at the end of `a`, at most the overlap before it. */
  predicate Follows(a: Span, b: Span) {
    a.start < b.start <= a.end <= b.start + OVERLAP_CHARS
  }

  ghost predicate Chained(windows: seq<Span>) {
    forall i, j :: 0 <= i && j == i + 1 < |windows| ==> Follows(windows[i], windows[j])
  }

  predicate FitsCap(w: Span) {
    w.start < w.end <= w.start + MAX_CHUNK_CHARS
  }

  ghost predicate Tiles(windows: seq<Span>, start: nat, end: nat) {
    && windows != []
    && windows[0].start == start
    && windows[|windows| - 1].end == end
    && (forall w <- windows :: FitsCap(w) && start <= w.start && w.end <= end)
    && Chained(windows)
  }

  lemma {:induction false} WindowsTile(text: string, pos: nat, end: nat, bounds: seq<int>)
    requires pos < end <= |text|
    ensures Tiles(Windows(text, pos, end, bounds), pos, end)
    decreases end - pos
  {
    if end - pos > MAX_CHUNK_CHARS {
      var stop := StopAfter(text, pos, bounds);
      var next := NextPos(text, pos, stop);
      WindowsTile(text, next, end, bounds);
    }
  }

  predicate Contains(w: Span, i: nat) {
    w.start <= i < w.end
  }

  /** Chained windows leave no gap: every position of the range lies in one of them. */
  lemma {:induction false} TilesCover(windows: seq<Span>, start: nat, end: nat, i: nat, k: nat) returns (w: Span)
    requires Tiles(windows, start, end) && k < |windows| && windows[k].start <= i < end
    ensures w in windows && Contains(w, i)
    decreases |windows| - k
  {
    w := windows[k];
    if w.end <= i {
      assert Follows(windows[k], windows[k + 1]);
      w := TilesCover(windows, start, end, i, k + 1);
    }
  }

  lemma {:induction false} StartsClimb(windows: seq<Span>, i: nat, j: nat)
    requires Chained(windows) && i <= j < |windows|
    ensures windows[j].start >= windows[i].start + (j - i)
  {
    if i < j {
      StartsClimb(windows, i, j - 1);
      assert Follows(windows[j - 1], windows[j]);
    }
  }

  /** Windows that end at the same position lie within OVERLAP of each other in the list, so at most OVERLAP + 1 do. */
  lemma {:induction false} FewWindowsEndTogether(windows: seq<Span>, start: nat, end: nat, i: nat, j: nat)
    requires Tiles(windows, start, end) && i <= j < |windows| && windows[i].end == windows[j].end
    ensures j - i <= OVERLAP_CHARS
  {
    if i < j {
      assert windows[j] in windows && Follows(windows[i], windows[i + 1]);
      StartsClimb(windows, i + 1, j);
    }
  }

  /**
   * A seam shares text with its window if and only if the re-included tail holds a character that is not whitespace.
   */
  lemma {:induction false} SeamOverlap(text: string, pos: nat, stop: nat)
    requires pos < stop <= |text|
    ensures NextPos(text, pos, stop) < stop
       <==> exists k :: Max(stop - OVERLAP_CHARS, pos + 1) <= k < stop && !IsSpace(text[k])
  {
    var from := Max(stop - OVERLAP_CHARS, pos + 1);
    var nxt := RunEnd(text, from);
    RunEndIsFirst(text, from);
    if nxt < stop {
      assert !IsSpace(text[nxt]);
    } else {
      assert forall k :: from <= k < stop ==> IsSpace(text[k]);
    }
  }

  // ----- Where the windows stop and resume -----

  predicate IsCut(text: string, k: nat) {
    k < |text| && (text[k] == ' ' || text[k] == '\n')
  }

  /** No cut character lies strictly between `stop` and `horizon`. */
  ghost predicate NoCutBetween(text: string, stop: nat, horizon: nat) {
    forall k: nat :: stop < k < horizon ==> !IsCut(text, k)
  }

  lemma {:induction false} SnapIsLastCut(text: string, limit: nat, floor: nat)
    requires floor < limit <= |text|
    ensures var stop := SnapBackward(text, limit, floor);
            if stop < limit then IsCut(text, stop) && NoCutBetween(text, stop, limit)
            else NoCutBetween(text, floor, limit)
  {
    RFindIsLast(text, ' ', floor, limit);
    RFindIsLast(text, '\n', floor, limit);
  }

  /** `b` is a bound between half the cap and the whole cap away from `start`. */
  predicate InReach(bounds: seq<int>, start: nat, b: int) {
    b in bounds && start + MAX_CHUNK_CHARS / 2 <= b <= start + MAX_CHUNK_CHARS
  }

  /** `stop` is the last cut character of the budget that begins after `start`, or its end if there is none. */
  ghost predicate AtLastCut(text: string, start: nat, stop: nat) {
    var budget := start + MAX_CHUNK_CHARS;
    && start < stop <= budget <= |text|
    && if stop < budget then IsCut(text, stop) && NoCutBetween(text, stop, budget)
       else NoCutBetween(text, start, budget)
  }

  /** The window ends at the furthest bound in reach, and at the last cut only if no bound is. */
  ghost predicate StopsWell(text: string, bounds: seq<int>, start: nat, stop: nat) {
    if exists b :: InReach(bounds, start, b) then
      InReach(bounds, start, stop) && forall b :: InReach(bounds, start, b) ==> b <= stop
    else AtLastCut(text, start, stop)
  }

  /** The next window begins with the first character of the overlap that is not whitespace, or at the seam. */
  ghost predicate ResumesWell(text: string, w: Span, next: nat) {
    var overlap := Max(w.end - OVERLAP_CHARS, w.start + 1);
    && overlap <= next <= w.end <= |text|
    && (forall k :: overlap <= k < next ==> IsSpace(text[k]))
    && (next < w.end ==> !IsSpace(text[next]))
  }

  lemma {:induction false} StopAfterStopsWell(text: string, pos: nat, bounds: seq<int>)
    requires pos + MAX_CHUNK_CHARS <= |text|
    ensures StopsWell(text, bounds, pos, StopAfter(text, pos, bounds))
  {
    BestStopIsMax(bounds, pos);
    SnapIsLastCut(text, pos + MAX_CHUNK_CHARS, pos);
    forall b ensures InReach(bounds, pos, b) <==> b in bounds && Qualifies(b, pos) {
    }
    if b :| InReach(bounds, pos, b) {
      assert BestStop(bounds, pos).Some?;
    }
  }

  lemma {:induction false} NextPosResumesWell(text: string, pos: nat, stop: nat)
    requires pos < stop <= |text|
    ensures ResumesWell(text, Span(pos, stop), NextPos(text, pos, stop))
  {
    RunEndIsFirst(text, Max(stop - OVERLAP_CHARS, pos + 1));
  }

  /**
   * The windows of any range: a window is the last one exactly when the rest fits, and every other one stops at the
   * furthest bound in reach or else at the last cut, and is resumed right after the whitespace of the overlap.
   */
  lemma {:induction false} WindowsStopAndResumeWell(text: string, pos: nat, end: nat, bounds: seq<int>, k: nat)
    requires end <= |text| && k < |Windows(text, pos, end, bounds)|
    ensures var ws := Windows(text, pos, end, bounds);
            && (k + 1 == |ws| <==> end - ws[k].start <= MAX_CHUNK_CHARS)
            && (k + 1 < |ws| ==>
                  StopsWell(text, bounds, ws[k].start, ws[k].end) && ResumesWell(text, ws[k], ws[k + 1].start))
    decreases k
  {
    if end - pos > MAX_CHUNK_CHARS {
      var stop := StopAfter(text, pos, bounds);
      var next := NextPos(text, pos, stop);
      WindowsTile(text, next, end, bounds);
      if k > 0 {
        WindowsStopAndResumeWell(text, next, end, bounds, k - 1);
      } else {
        StopAfterStopsWell(text, pos, bounds);
        NextPosResumesWell(text, pos, stop);
      }
    }
  }

  // ----- How many windows there can be -----

  const STRIDE: nat := MAX_CHUNK_CHARS / 2 - OVERLAP_CHARS

  predicate IsShort(pos: nat, stop: nat) {
    stop - pos < MAX_CHUNK_CHARS / 2
  }

  /** A short window ends at the last cut character within its budget. */
  lemma {:induction false} ShortStop(text: string, pos: nat, bounds: seq<int>)
    requires pos + MAX_CHUNK_CHARS <= |text|
    requires IsShort(pos, StopAfter(text, pos, bounds))
    ensures IsCut(text, StopAfter(text, pos, bounds))
    ensures NoCutBetween(text, StopAfter(text, pos, bounds), pos + MAX_CHUNK_CHARS)
  {
    SnapIsLastCut(text, pos + MAX_CHUNK_CHARS, pos);
  }

  /** Of two windows in a row that are both short and not the last, the second ends where the first does. */
  lemma {:induction false} ShortPairEndsTogether(text: string, pos: nat, end: nat, bounds: seq<int>, k: nat)
    requires end <= |text|
    requires var ws := Windows(text, pos, end, bounds);
             k + 2 < |ws| && IsShort(ws[k].start, ws[k].end) && IsShort(ws[k + 1].start, ws[k + 1].end)
    ensures Windows(text, pos, end, bounds)[k].end == Windows(text, pos, end, bounds)[k + 1].end
    decreases k
  {
    var stop := StopAfter(text, pos, bounds);
    var next := NextPos(text, pos, stop);
    if k > 0 {
      ShortPairEndsTogether(text, next, end, bounds, k - 1);
    } else {
      assert end - next > MAX_CHUNK_CHARS;
      ShortStop(text, pos, bounds);
      ShortStop(text, next, bounds);
    }
  }

  predicate SameEnd(windows: seq<Span>, k: nat) {
    k + 1 < |windows| && windows[k].end == windows[k + 1].end
  }

  lemma {:induction false} RunEndsTogether(windows: seq<Span>, i: nat, j: nat)
    requires i <= j < |windows| && forall k :: i <= k < j ==> SameEnd(windows, k)
    ensures windows[i].end == windows[j].end
  {
    if i < j {
      RunEndsTogether(windows, i, j - 1);
      assert SameEnd(windows, j - 1);
    }
  }

  /** At most OVERLAP + 1 short windows come in a row before the last window, and they all end at one cut. */
  lemma {:induction false} FewShortWindowsInARow(
      text: string, pos: nat, end: nat, bounds: seq<int>, i: nat, j: nat)
    requires pos < end <= |text|
    requires var ws := Windows(text, pos, end, bounds);
             i <= j < |ws| - 1 && forall k :: i <= k <= j ==> IsShort(ws[k].start, ws[k].end)
    ensures Windows(text, pos, end, bounds)[i].end == Windows(text, pos, end, bounds)[j].end
    ensures j - i <= OVERLAP_CHARS
  {
    var ws := Windows(text, pos, end, bounds);
    forall k | i <= k < j ensures SameEnd(ws, k) {
      ShortPairEndsTogether(text, pos, end, bounds, k);
    }
    RunEndsTogether(ws, i, j);
    WindowsTile(text, pos, end, bounds);
    FewWindowsEndTogether(ws, pos, end, i, j);
  }

  /** `(OVERLAP + 2) * (length / STRIDE + 1)`, see `BoundFormula`. */
  function Bound(length: nat): nat {
    OVERLAP_CHARS + 2 + if length < STRIDE then 0 else Bound(length - STRIDE)
  }

  lemma {:induction false} BoundFormula(length: nat)
    ensures Bound(length) == (OVERLAP_CHARS + 2) * (length / STRIDE + 1)
  {
    if length >= STRIDE {
      BoundFormula(length - STRIDE);
      assert length / 3800 == (length - 3800) / 3800 + 1;
    }
  }

  lemma {:induction false} BoundGrows(small: nat, large: nat)
    requires small <= large
    ensures Bound(small) <= Bound(large)
  {
    if small >= STRIDE {
      BoundGrows(small - STRIDE, large - STRIDE);
    }
  }

  /** Moving at least one stride ahead pays for one long window and the short run before it. */
  lemma {:induction false} BoundDrops(near: nat, far: nat)
    requires near + STRIDE <= far
    ensures Bound(near) + OVERLAP_CHARS + 2 <= Bound(far)
  {
    BoundGrows(near, far - STRIDE);
  }

  lemma {:induction false} FirstWindow(
      text: string, pos: nat, end: nat, bounds: seq<int>) returns (stop: nat, next: nat)
    requires pos + MAX_CHUNK_CHARS < end <= |text|
    ensures pos < next <= stop <= pos + MAX_CHUNK_CHARS && stop <= next + OVERLAP_CHARS
    ensures |Windows(text, pos, end, bounds)| == 1 + |Windows(text, next, end, bounds)|
    ensures IsShort(pos, stop) ==> IsCut(text, stop) && NoCutBetween(text, stop, pos + MAX_CHUNK_CHARS)
  {
    stop := StopAfter(text, pos, bounds);
    next := NextPos(text, pos, stop);
    if IsShort(pos, stop) {
      ShortStop(text, pos, bounds);
    }
  }

  /** One window of at least half the cap pays for the count before the next one. */
  lemma {:induction false} LongWindowPays(pos: nat, stop: nat, next: nat, end: nat, count: nat)
    requires pos < next <= stop <= next + OVERLAP_CHARS && next < end && !IsShort(pos, stop)
    requires count <= Bound(end - next)
    ensures count + 1 + OVERLAP_CHARS + 1 <= Bound(end - pos)
  {
    BoundDrops(end - next, end - pos);
  }

  lemma {:induction false} ShortWindowCosts(pos: nat, stop: nat, next: nat, end: nat, count: nat)
    requires pos < next <= stop && next < end
    requires count + OVERLAP_CHARS + 1 <= Bound(end - next) + (stop - next)
    ensures count + 1 + OVERLAP_CHARS + 1 <= Bound(end - pos) + (stop - pos)
    ensures stop <= next + OVERLAP_CHARS ==> count + 1 <= Bound(end - pos)
  {
    BoundGrows(end - next, end - pos);
  }

  /**
   * While the windows stay short they all end at one cut character and their
   * starts creep towards it, so at most `stop - pos` more of them come before
   * a window of at least half the cap.
   */
  lemma {:induction false} CreepingWindows(text: string, pos: nat, end: nat, bounds: seq<int>, stop: nat, horizon: nat)
    requires pos <= stop <= pos + OVERLAP_CHARS && pos < end <= |text|
    requires stop + MAX_CHUNK_CHARS / 2 <= horizon
    requires IsCut(text, stop) && NoCutBetween(text, stop, horizon)
    ensures |Windows(text, pos, end, bounds)| + OVERLAP_CHARS + 1 <= Bound(end - pos) + (stop - pos)
    decreases end - pos
  {
    if end - pos > MAX_CHUNK_CHARS {
      var cut, next := FirstWindow(text, pos, end, bounds);
      if IsShort(pos, cut) {
        assert cut == stop;
        CreepingWindows(text, next, end, bounds, stop, horizon);
        ShortWindowCosts(pos, stop, next, end, |Windows(text, next, end, bounds)|);
      } else {
        WindowBound(text, next, end, bounds);
        LongWindowPays(pos, cut, next, end, |Windows(text, next, end, bounds)|);
      }
    }
  }

  /** The number of windows is linear in the length of the range, for every text and every bounds list. */
  lemma {:induction false} WindowBound(text: string, pos: nat, end: nat, bounds: seq<int>)
    requires pos < end <= |text|
    ensures |Windows(text, pos, end, bounds)| <= Bound(end - pos)
    decreases end - pos
  {
    if end - pos > MAX_CHUNK_CHARS {
      var stop, next := FirstWindow(text, pos, end, bounds);
      if IsShort(pos, stop) {
        CreepingWindows(text, next, end, bounds, stop, pos + MAX_CHUNK_CHARS);
        ShortWindowCosts(pos, stop, next, end, |Windows(text, next, end, bounds)|);
      } else {
        WindowBound(text, next, end, bounds);
        LongWindowPays(pos, stop, next, end, |Windows(text, next, end, bounds)|);
      }
    }
  }

  /** At most 202 windows for every 3800 characters begun, whatever the text and the bounds. */
  lemma {:induction false} WindowCountLinear(text: string, start: nat, end: nat, bounds: seq<int>)
    requires end <= |text|
    ensures |Windows(text, start, end, bounds)| <= (OVERLAP_CHARS + 2) * (Max(end - start, 0) / STRIDE + 1)
  {
    if start < end {
      WindowBound(text, start, end, bounds);
      BoundFormula(end - start);
      assert Max(end - start, 0) == end - start;
    } else {
      assert Max(end - start, 0) == 0;
    }
  }

  /** `stop` is the only place to cut near it, and the tail before it is solid. */
  ghost predicate LoneCut(text: string, stop: nat) {
    && OVERLAP_CHARS <= stop
    && IsCut(text, stop)
    && NoCutBetween(text, stop, stop + MAX_CHUNK_CHARS)
    && forall k :: stop - OVERLAP_CHARS <= k < stop ==> !IsSpace(text[k])
  }

  lemma {:induction false} LoneStop(text: string, pos: nat, stop: nat, next: nat)
    requires LoneCut(text, stop) && pos < stop < pos + MAX_CHUNK_CHARS <= |text|
    requires next == Max(stop - OVERLAP_CHARS, pos + 1)
    ensures StopAfter(text, pos, []) == stop && NextPos(text, pos, stop) == next
  {
    SnapIsLastCut(text, pos + MAX_CHUNK_CHARS, pos);
    RunEndIsFirst(text, next);
  }

  lemma {:induction false} CreepStep(text: string, pos: nat, end: nat, stop: nat, next: nat)
    requires LoneCut(text, stop) && pos < stop < pos + MAX_CHUNK_CHARS < end <= |text|
    requires next == Max(stop - OVERLAP_CHARS, pos + 1)
    ensures Windows(text, pos, end, []) == [Span(pos, stop)] + Windows(text, next, end, [])
  {
    LoneStop(text, pos, stop, next);
  }

  function Slivers(from: nat, stop: nat): (spans: seq<Span>)
    requires from <= stop
    ensures |spans| == stop - from
    decreases stop - from
  {
    if from == stop then [] else [Span(from, stop)] + Slivers(from + 1, stop)
  }

  lemma {:induction false} PrefixCons<T>(head: T, a: seq<T>, b: seq<T>)
    requires a <= b
    ensures [head] + a <= [head] + b
  {
  }

  /** Within OVERLAP of the cut the next window starts one character later. */
  lemma {:induction false} SliverStep(text: string, pos: nat, end: nat, stop: nat)
    requires LoneCut(text, stop) && stop - OVERLAP_CHARS <= pos < stop && stop + MAX_CHUNK_CHARS < end <= |text|
    ensures Windows(text, pos, end, []) == [Span(pos, stop)] + Windows(text, pos + 1, end, [])
  {
    CreepStep(text, pos, end, stop, pos + 1);
  }

  lemma {:induction false} SliversBeforeCut(text: string, pos: nat, end: nat, stop: nat)
    requires LoneCut(text, stop) && stop - OVERLAP_CHARS <= pos <= stop && stop + MAX_CHUNK_CHARS < end <= |text|
    ensures Slivers(pos, stop) <= Windows(text, pos, end, [])
    decreases stop - pos
  {
    if pos < stop {
      SliversBeforeCut(text, pos + 1, end, stop);
      SliverStep(text, pos, end, stop);
      PrefixCons(Span(pos, stop), Slivers(pos + 1, stop), Windows(text, pos + 1, end, []));
    }
  }

  /** The short run is real: one lone cut costs `OVERLAP + 1` windows that all end at it. */
  lemma {:induction false} SliverRunAttained(text: string, pos: nat, end: nat, stop: nat)
    requires LoneCut(text, stop) && stop + MAX_CHUNK_CHARS < end <= |text|
    requires pos + OVERLAP_CHARS < stop < pos + MAX_CHUNK_CHARS / 2
    ensures [Span(pos, stop)] + Slivers(stop - OVERLAP_CHARS, stop) <= Windows(text, pos, end, [])
  {
    var from := stop - OVERLAP_CHARS;
    var later := Windows(text, from, end, []);
    CreepStep(text, pos, end, stop, from);
    SliversBeforeCut(text, from, end, stop);
    PrefixCons(Span(pos, stop), Slivers(from, stop), later);
  }

  /** A window of one character shares nothing with the next one, whatever the text. */
  lemma {:induction false} SliverSeamIsBare(text: string, pos: nat)
    requires pos < |text|
    ensures NextPos(text, pos, pos + 1) == pos + 1
  {
  }

  /** A text with one space among letters. */
  function OneSpace(n: nat, at: nat): string {
    seq(n, i => if i == at then ' ' else 'x')
  }

  /**
   * The short run occurs: such a text, cut from its beginning, starts with OVERLAP + 1 windows that end at the space.
   */
  lemma {:induction false} OneSpaceCreeps(n: nat, at: nat)
    requires OVERLAP_CHARS < at < MAX_CHUNK_CHARS / 2 && at + MAX_CHUNK_CHARS < n
    ensures [Span(0, at)] + Slivers(at - OVERLAP_CHARS, at) <= Windows(OneSpace(n, at), 0, n, [])
    ensures |Slivers(at - OVERLAP_CHARS, at)| == OVERLAP_CHARS
  {
    assert LoneCut(OneSpace(n, at), at);
    SliverRunAttained(OneSpace(n, at), 0, n, at);
  }

  /** The last window of that run is followed by one that starts right at its end, although its text is solid. */
  lemma {:induction false} BareSeamOccurs(n: nat, at: nat)
    requires OVERLAP_CHARS < at < MAX_CHUNK_CHARS / 2 && at + MAX_CHUNK_CHARS < n
    ensures var windows := Windows(OneSpace(n, at), 0, n, []);
            && OVERLAP_CHARS + 1 < |windows|
            && windows[OVERLAP_CHARS] == Span(at - 1, at) && windows[OVERLAP_CHARS + 1].start == at
            && !IsSpace(OneSpace(n, at)[at - 1])
  {
    var text := OneSpace(n, at);
    OneSpaceCreeps(n, at);
    LastSliver(at - OVERLAP_CHARS, at);
    PrefixAt([Span(0, at)] + Slivers(at - OVERLAP_CHARS, at), Windows(text, 0, n, []), OVERLAP_CHARS);
    WindowsTile(text, 0, n, []);
    SliverIsFollowed(Windows(text, 0, n, []), 0, n, OVERLAP_CHARS);
  }

  lemma {:induction false} PrefixAt<T>(a: seq<T>, b: seq<T>, k: nat)
    requires a <= b && k < |a|
    ensures b[k] == a[k]
  {
  }

  lemma {:induction false} SliverIsFollowed(windows: seq<Span>, start: nat, end: nat, k: nat)
    requires Tiles(windows, start, end) && k < |windows| && windows[k].end == windows[k].start + 1 < end
    ensures k + 1 < |windows| && windows[k + 1].start == windows[k].end
  {
    assert k + 1 < |windows| ==> Follows(windows[k], windows[k + 1]);
  }

  lemma {:induction false} LastSliver(from: nat, stop: nat)
    requires from < stop
    ensures Slivers(from, stop)[stop - from - 1] == Span(stop - 1, stop)
    decreases stop - from
  {
    if from + 1 < stop {
      LastSliver(from + 1, stop);
    }
  }
}
