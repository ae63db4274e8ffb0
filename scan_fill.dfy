/** The span computation of `Shape.ScanFill` (Shape.cs, lines 283-340): the
    outline points are sorted by X, grouped into columns, each column's Ys
    are sorted, and the first gap wider than one pixel between consecutive
    Ys becomes the one fill span of that column. The model returns the
    spans instead of drawing them. */
module ScanFill {
  import opened Wrappers
  import opened Geometry
  import LineRaster

  // ---------------------------------------------------------------------
  // Sorting

  /** Ordered by X, as `List.Sort` with the X-difference comparator leaves
      the outline. */
  predicate SortedByX(s: seq<Pixel>)
  {
    forall i, j :: 0 <= i < j < |s| ==> s[i].x <= s[j].x
  }

  /** Non-decreasing integers. */
  predicate Ascending(s: seq<int>)
  {
    forall i, j :: 0 <= i < j < |s| ==> s[i] <= s[j]
  }

  /** Exchanging two positions keeps the elements. */
  lemma SwapPerm<T>(s: seq<T>, i: int, j: int)
    requires 0 <= i < |s| && 0 <= j < |s|
    ensures multiset(s[i := s[j]][j := s[i]]) == multiset(s)
  {
  }

  /** Lists with the same elements and the same first u elements have
      the same elements after u. */
  lemma SuffixPerm<T>(a: seq<T>, b: seq<T>, u: int)
    requires 0 <= u <= |a| && u <= |b| && a[..u] == b[..u] && multiset(a) == multiset(b)
    ensures multiset(a[u..]) == multiset(b[u..])
  {
    var p := a[..u];
    assert a == p + a[u..] && b == p + b[u..];
    calc {
      multiset(a[u..]);
      multiset(p + a[u..]) - multiset(p);
      multiset(a) - multiset(p);
      multiset(b) - multiset(p);
      multiset(p + b[u..]) - multiset(p);
      multiset(b[u..]);
    }
  }

  /** s[..k + 1] is in X order, except pairs whose second element is at
      m: the invariant of one insertion step. */
  predicate SortedExcept(s: seq<Pixel>, k: int, m: int)
    requires k < |s|
  {
    forall i, j :: 0 <= i < j <= k && j != m ==> s[i].x <= s[j].x
  }

  lemma SinkStep(s: seq<Pixel>, k: int, m: int)
    requires 0 < m <= k < |s| && SortedExcept(s, k, m) && s[m - 1].x > s[m].x
    ensures SortedExcept(s[m - 1 := s[m]][m := s[m - 1]], k, m - 1)
  {
  }

  lemma SinkDone(s: seq<Pixel>, k: int, m: int)
    requires 0 <= m <= k < |s| && SortedExcept(s, k, m) && (m == 0 || s[m - 1].x <= s[m].x)
    ensures SortedByX(s[..k + 1])
  {
    if m > 0 {
      assert forall i :: 0 <= i < m ==> s[i].x <= s[m - 1].x;
    }
  }

  /** One insertion step: the pixel at k sinks left past every pixel
      with a larger X. */
  method Sink(a: array<Pixel>, k: int)
    requires 0 <= k < a.Length && SortedByX(a[..k])
    modifies a
    ensures SortedByX(a[..k + 1]) && multiset(a[..]) == multiset(old(a[..]))
  {
    var m := k;
    assert SortedExcept(a[..], k, m) by {
      assert forall i :: 0 <= i < k ==> a[..][i] == a[..k][i];
    }
    while m > 0 && a[m - 1].x > a[m].x
      invariant 0 <= m <= k
      invariant SortedExcept(a[..], k, m)
      invariant multiset(a[..]) == multiset(old(a[..]))
    {
      ghost var s := a[..];
      a[m - 1], a[m] := a[m], a[m - 1];
      assert a[..] == s[m - 1 := s[m]][m := s[m - 1]];
      SwapPerm(s, m - 1, m);
      SinkStep(s, k, m);
      m := m - 1;
    }
    SinkDone(a[..], k, m);
    assert a[..k + 1] == a[..][..k + 1];
  }

  /** `point.Sort(...)`: the library sort of the caller's list in place
      by X. The library's own algorithm is not part of this model; an
      insertion sort meets the same contract. */
  method SortByX(a: array<Pixel>)
    modifies a
    ensures SortedByX(a[..]) && multiset(a[..]) == multiset(old(a[..]))
  {
    var k := 0;
    while k < a.Length
      invariant 0 <= k <= a.Length
      invariant SortedByX(a[..k])
      invariant multiset(a[..]) == multiset(old(a[..]))
    {
      Sink(a, k);
      k := k + 1;
    }
    assert a[..k] == a[..];
  }

  /** Inserting y into an ascending list, before the first element not
      below it. */
  function Insert(y: int, s: seq<int>): seq<int>
  {
    if s == [] || y <= s[0] then [y] + s else [s[0]] + Insert(y, s[1..])
  }

  /** Insertion sort: the reference order of a column's Ys. */
  function SortInts(s: seq<int>): seq<int>
  {
    if s == [] then [] else Insert(s[0], SortInts(s[1..]))
  }

  /** Insertion adds exactly y. */
  lemma {:induction false} InsertPerm(y: int, s: seq<int>)
    ensures multiset(Insert(y, s)) == multiset(s) + multiset{y}
  {
    if s != [] && y > s[0] {
      InsertPerm(y, s[1..]);
      assert s == [s[0]] + s[1..];
    }
  }

  /** Insertion into an ascending list keeps it ascending. */
  lemma {:induction false} InsertSorted(y: int, s: seq<int>)
    requires Ascending(s)
    ensures Ascending(Insert(y, s))
  {
    if s != [] && y > s[0] {
      var t := s[1..];
      InsertSorted(y, t);
      InsertPerm(y, t);
      var r := Insert(y, t);
      forall k | 0 <= k < |r|
        ensures s[0] <= r[k]
      {
        assert r[k] in multiset(t) + multiset{y};
        if r[k] in multiset(t) {
          var i :| 0 <= i < |t| && t[i] == r[k];
          assert t[i] == s[i + 1];
        }
      }
    }
  }

  /** The reference sort keeps its input's elements. */
  lemma {:induction false} SortIntsPerm(s: seq<int>)
    ensures multiset(SortInts(s)) == multiset(s) && |SortInts(s)| == |s|
  {
    if s != [] {
      SortIntsPerm(s[1..]);
      InsertPerm(s[0], SortInts(s[1..]));
      assert s == [s[0]] + s[1..];
    }
    assert |multiset(SortInts(s))| == |SortInts(s)| && |multiset(s)| == |s|;
  }

  /** The reference sort orders its input. */
  lemma {:induction false} SortIntsSorted(s: seq<int>)
    ensures Ascending(SortInts(s))
  {
    if s != [] {
      SortIntsSorted(s[1..]);
      InsertSorted(s[0], SortInts(s[1..]));
    }
  }

  /** The head of an ascending list is its least element. */
  lemma HeadLeast(a: seq<int>, y: int)
    requires Ascending(a) && y in a
    ensures a[0] <= y
  {
    var i :| 0 <= i < |a| && a[i] == y;
  }

  /** An ascending list is determined by its elements: whatever order the
      Ys of a column arrive in, sorting gives one list. */
  lemma {:induction false} SortedUnique(a: seq<int>, b: seq<int>)
    requires Ascending(a) && Ascending(b) && multiset(a) == multiset(b)
    ensures a == b
    decreases |a|
  {
    if a != [] && b != [] {
      assert a[0] in multiset(b) && b[0] in multiset(a);
      HeadLeast(a, b[0]);
      HeadLeast(b, a[0]);
      SuffixPerm(a, b, 1);
      SortedUnique(a[1..], b[1..]);
      assert a == [a[0]] + a[1..] && b == [b[0]] + b[1..];
    } else {
      assert |multiset(a)| == |a| && |multiset(b)| == |b|;
    }
  }

  /** The inner `for v` loop of the exchange sort at position u: every
      later element smaller than the one at u is swapped into u, so that
      afterwards the element at u is the least of ys[u..]. */
  method ExchangePass(ys0: seq<int>, u: int) returns (ys: seq<int>)
    requires 0 <= u < |ys0|
    ensures |ys| == |ys0| && ys[..u] == ys0[..u] && multiset(ys) == multiset(ys0)
    ensures forall k :: u < k < |ys| ==> ys[u] <= ys[k]
  {
    ys := ys0;
    var v := u + 1;
    while v < |ys|
      invariant u + 1 <= v <= |ys| == |ys0|
      invariant ys[..u] == ys0[..u]
      invariant multiset(ys) == multiset(ys0)
      invariant forall k :: u < k < v ==> ys[u] <= ys[k]
    {
      if ys[u] > ys[v] {
        SwapPerm(ys, u, v);
        ys := ys[u := ys[v]][v := ys[u]];
      }
      v := v + 1;
    }
  }

  /** Every element before position u is at most every later element. */
  predicate Settled(ys: seq<int>, u: int)
  {
    forall i, j :: 0 <= i < j < |ys| && i < u ==> ys[i] <= ys[j]
  }

  lemma SettledStep(before: seq<int>, ys: seq<int>, u: int)
    requires 0 <= u < |ys| == |before| && Settled(before, u)
    requires ys[..u] == before[..u] && multiset(ys) == multiset(before)
    requires forall k :: u < k < |ys| ==> ys[u] <= ys[k]
    ensures Settled(ys, u + 1)
  {
    SuffixPerm(ys, before, u);
    forall i, j | 0 <= i < j < |ys| && i < u + 1
      ensures ys[i] <= ys[j]
    {
      if i < u {
        assert ys[i] == ys[..u][i] == before[i];
        if j < u {
          assert ys[j] == ys[..u][j] == before[j];
        } else {
          assert ys[j] == ys[u..][j - u];
          assert ys[j] in multiset(before[u..]);
          var k :| 0 <= k < |before[u..]| && before[u..][k] == ys[j];
          assert before[i] <= before[u + k];
        }
      }
    }
  }

  /** The exchange sort of `x_Each_y` (the nested `for u` / `for v`
      loops): it orders the column's Ys, keeps them, and so yields the
      reference sort of its input. */
  method ExchangeSort(ys0: seq<int>) returns (ys: seq<int>)
    ensures Ascending(ys) && multiset(ys) == multiset(ys0)
    ensures ys == SortInts(ys0)
  {
    ys := ys0;
    var u := 0;
    while u < |ys| - 1
      invariant 0 <= u && (u <= |ys| - 1 || u == 0)
      invariant multiset(ys) == multiset(ys0)
      invariant Settled(ys, u)
      decreases |ys| - u
    {
      ghost var before := ys;
      ys := ExchangePass(ys, u);
      SettledStep(before, ys, u);
      u := u + 1;
    }
    SortIntsSorted(ys0);
    SortIntsPerm(ys0);
    SortedUnique(ys, SortInts(ys0));
  }

  // ---------------------------------------------------------------------
  // Columns

  /** The Ys of the pixels of s in column x, in list order. */
  function Col(s: seq<Pixel>, x: int): seq<int>
  {
    if s == [] then []
    else if s[0].x == x then [s[0].y] + Col(s[1..], x)
    else Col(s[1..], x)
  }

  lemma {:induction false} ColConcat(a: seq<Pixel>, b: seq<Pixel>, x: int)
    ensures Col(a + b, x) == Col(a, x) + Col(b, x)
    decreases |a|
  {
    if a == [] {
      assert a + b == b;
    } else {
      var t := a + b;
      assert t != [] && t[0] == a[0] && t[1..] == a[1..] + b;
      ColConcat(a[1..], b, x);
      if a[0].x == x {
        assert Col(t, x) == [a[0].y] + Col(a[1..] + b, x);
        assert Col(a, x) == [a[0].y] + Col(a[1..], x);
      } else {
        assert Col(t, x) == Col(a[1..] + b, x);
        assert Col(a, x) == Col(a[1..], x);
      }
    }
  }

  lemma {:induction false} ColAbsent(s: seq<Pixel>, x: int)
    requires forall k :: 0 <= k < |s| ==> s[k].x != x
    ensures Col(s, x) == []
  {
    if s != [] {
      ColAbsent(s[1..], x);
    }
  }

  lemma {:induction false} ColLength(s: seq<Pixel>, x: int)
    ensures |Col(s, x)| <= |s|
  {
    if s != [] {
      ColLength(s[1..], x);
    }
  }

  /** y occurs in column x as often as the pixel (x, y) occurs in s. */
  lemma {:induction false} ColCount(s: seq<Pixel>, x: int, y: int)
    ensures multiset(Col(s, x))[y] == multiset(s)[Pixel(x, y)]
  {
    if s != [] {
      ColCount(s[1..], x, y);
      assert s == [s[0]] + s[1..];
    }
  }

  /** The end of the run of equal X that starts at i, scanning from j:
      where the `while (j < size_list)` loop stops. */
  function RunEnd(s: seq<Pixel>, i: int, j: int): (r: int)
    requires 0 <= i < |s| && i <= j <= |s|
    ensures j <= r <= |s| && i < r
    decreases |s| - j
  {
    if j < |s| && s[j].x == s[i].x then RunEnd(s, i, j + 1) else j
  }

  /** The run [i, RunEnd) shares the X of i, and the next pixel (if any)
      does not. */
  lemma {:induction false} RunEndSpec(s: seq<Pixel>, i: int, j: int)
    requires 0 <= i < |s| && i <= j <= |s|
    requires forall k :: i <= k < j ==> s[k].x == s[i].x
    ensures var r := RunEnd(s, i, j);
      && (forall k :: i <= k < r ==> s[k].x == s[i].x)
      && (r == |s| || s[r].x != s[i].x)
    decreases |s| - j
  {
    if j < |s| && s[j].x == s[i].x {
      RunEndSpec(s, i, j + 1);
    }
  }

  /** The `while (j < size_list)` loop: collects the Ys of the run of
      pixels that share the X of pts[i]. */
  method CollectColumn(pts: array<Pixel>, i: int) returns (ys: seq<int>, j: int)
    requires 0 <= i < pts.Length
    ensures j == RunEnd(pts[..], i, i) && ys == Col(pts[i..j], pts[i].x)
  {
    ys, j := [], i;
    while j < pts.Length
      invariant i <= j <= pts.Length
      invariant RunEnd(pts[..], i, j) == RunEnd(pts[..], i, i)
      invariant ys == Col(pts[i..j], pts[i].x)
      decreases pts.Length - j
    {
      if pts[i].x == pts[j].x {
        assert pts[i..j + 1] == pts[i..j] + [pts[j]];
        ColConcat(pts[i..j], [pts[j]], pts[i].x);
        ys := ys + [pts[j].y];
      } else {
        break;
      }
      j := j + 1;
    }
  }

  // ---------------------------------------------------------------------
  // Gaps

  /** The first t' >= t with a gap wider than one pixel after ys[t']:
      the `for t` loop with its `break`. */
  function FirstGapFrom(ys: seq<int>, t: nat): Option<nat>
    decreases |ys| - t
  {
    if t + 1 >= |ys| then None
    else if ys[t + 1] - ys[t] > 1 then Some(t)
    else FirstGapFrom(ys, t + 1)
  }

  function FirstGap(ys: seq<int>): Option<nat>
  {
    FirstGapFrom(ys, 0)
  }

  lemma {:induction false} FirstGapFromSpec(ys: seq<int>, t: nat)
    ensures var g := FirstGapFrom(ys, t);
      && (g.Some? ==>
            && t <= g.value && g.value + 1 < |ys| && ys[g.value + 1] - ys[g.value] > 1
            && forall k :: t <= k < g.value ==> ys[k + 1] - ys[k] <= 1)
      && (g.None? ==> forall k :: t <= k && k + 1 < |ys| ==> ys[k + 1] - ys[k] <= 1)
    decreases |ys| - t
  {
    if t + 1 < |ys| && ys[t + 1] - ys[t] <= 1 {
      FirstGapFromSpec(ys, t + 1);
    }
  }

  /** The gap found is exactly the first one wider than one pixel:
      FirstGap(ys) is t iff ys[t + 1] - ys[t] > 1 and no earlier
      consecutive pair is that far apart. */
  lemma FirstGapIff(ys: seq<int>, t: nat)
    ensures FirstGap(ys) == Some(t) <==>
      (t + 1 < |ys| && ys[t + 1] - ys[t] > 1 && forall k :: 0 <= k < t ==> ys[k + 1] - ys[k] <= 1)
  {
    FirstGapFromSpec(ys, 0);
  }

  /** No gap is found when every consecutive pair is at most one apart. */
  lemma NoGapIff(ys: seq<int>)
    ensures FirstGap(ys) == None <==> forall k :: 0 <= k && k + 1 < |ys| ==> ys[k + 1] - ys[k] <= 1
  {
    FirstGapFromSpec(ys, 0);
  }

  /** A fill span: column x, rows lo to hi inclusive. */
  datatype Span = Span(x: int, lo: int, hi: int)

  /** The span of a column whose sorted Ys are ys: the rows strictly
      inside its first gap wider than one pixel, if there is one. */
  function GapSpan(x: int, ys: seq<int>): (r: seq<Span>)
    ensures |r| <= 1
    ensures forall k :: 0 <= k < |r| ==> r[k].x == x && r[k].lo <= r[k].hi
  {
    FirstGapFromSpec(ys, 0);
    match FirstGap(ys)
    case None => []
    case Some(t) => [Span(x, ys[t] + 1, ys[t + 1] - 1)]
  }

  /** A column with at most one outline pixel gets no span. */
  lemma ShortNoSpan(x: int, ys: seq<int>)
    requires |ys| <= 1
    ensures GapSpan(x, SortInts(ys)) == []
  {
    SortIntsPerm(ys);
  }

  /** The `for t` loop over the sorted Ys: the first gap wider than one. */
  method FindGap(ys: seq<int>) returns (g: Option<nat>)
    ensures g == FirstGap(ys) && (g.Some? ==> g.value + 1 < |ys|)
  {
    FirstGapFromSpec(ys, 0);
    g := None;
    var t := 0;
    while t < |ys| - 1
      invariant FirstGapFrom(ys, t) == FirstGap(ys)
    {
      if ys[t + 1] - ys[t] > 1 {
        g := Some(t);
        break;
      }
      t := t + 1;
    }
  }

  // ---------------------------------------------------------------------
  // Spans

  /** The spans the outer `while (i < size_list - 1)` loop emits from
      index i of the sorted outline s: a run of two or more pixels with
      the X of s[i] gives the span of its sorted Ys and the loop goes on
      after the run; a lone pixel is skipped. */
  function SpansFrom(s: seq<Pixel>, i: nat): seq<Span>
    decreases |s| - i
  {
    if i + 1 >= |s| then []
    else if s[i].x == s[i + 1].x then
      var j := RunEnd(s, i, i);
      GapSpan(s[i].x, SortInts(Col(s[i..j], s[i].x))) + SpansFrom(s, j)
    else SpansFrom(s, i + 1)
  }

  /** The spans of the whole sorted outline. */
  function Spans(s: seq<Pixel>): seq<Span>
  {
    SpansFrom(s, 0)
  }

  /** One group of the outer loop that starts a run at i: collect the
      run's Ys, exchange-sort them, and take the first gap wider than one
      pixel (when the run has more than one pixel). */
  method FillColumn(pts: array<Pixel>, i: int) returns (span: seq<Span>, j: int)
    requires 0 <= i < pts.Length
    ensures j == RunEnd(pts[..], i, i)
    ensures span == GapSpan(pts[i].x, SortInts(Col(pts[..][i..j], pts[i].x)))
  {
    var ys;
    ys, j := CollectColumn(pts, i);
    ys := ExchangeSort(ys);
    span := [];
    if |ys| > 1 {
      var t := FindGap(ys);
      if t.Some? {
        span := [Span(pts[i].x, ys[t.value] + 1, ys[t.value + 1] - 1)];
      }
    }
    assert pts[..][i..j] == pts[i..j];
  }

  /** The outer loop at the start of a run of two or more pixels. */
  lemma SpansFromRun(s: seq<Pixel>, i: nat)
    requires i + 1 < |s| && s[i].x == s[i + 1].x
    ensures var j := RunEnd(s, i, i);
      SpansFrom(s, i) == GapSpan(s[i].x, SortInts(Col(s[i..j], s[i].x))) + SpansFrom(s, j)
  {
  }

  /** `Shape.ScanFill` without its drawing: sorts the caller's outline in
      place by X and returns the fill span of each column. */
  method ScanFill(pts: array<Pixel>) returns (spans: seq<Span>)
    modifies pts
    ensures SortedByX(pts[..]) && multiset(pts[..]) == multiset(old(pts[..]))
    ensures spans == Spans(pts[..])
  {
    SortByX(pts);
    ghost var s := pts[..];
    var i, n := 0, pts.Length;
    spans := [];
    while i < n - 1
      invariant 0 <= i <= n && pts[..] == s
      invariant spans + SpansFrom(s, i) == Spans(s)
      decreases n - i
    {
      if pts[i].x == pts[i + 1].x {
        var span, j := FillColumn(pts, i);
        SpansFromRun(s, i);
        spans := spans + span;
        i := j;
      } else {
        i := i + 1;
      }
    }
  }

  /** A list of spans filtered to column x. */
  function SpansAt(r: seq<Span>, x: int): seq<Span>
  {
    if r == [] then []
    else if r[0].x == x then [r[0]] + SpansAt(r[1..], x)
    else SpansAt(r[1..], x)
  }

  lemma {:induction false} SpansAtConcat(a: seq<Span>, b: seq<Span>, x: int)
    ensures SpansAt(a + b, x) == SpansAt(a, x) + SpansAt(b, x)
    decreases |a|
  {
    if a == [] {
      assert a + b == b;
    } else {
      var t := a + b;
      assert t != [] && t[0] == a[0] && t[1..] == a[1..] + b;
      SpansAtConcat(a[1..], b, x);
      if a[0].x == x {
        assert SpansAt(t, x) == [a[0]] + SpansAt(a[1..] + b, x);
      } else {
        assert SpansAt(t, x) == SpansAt(a[1..] + b, x);
      }
    }
  }

  /** Strictly increasing X: at most one span per column, in column
      order. */
  predicate Increasing(r: seq<Span>)
  {
    forall i, j :: 0 <= i < j < |r| ==> r[i].x < r[j].x
  }

  /** Every span covers at least one row. */
  predicate Proper(r: seq<Span>)
  {
    forall k :: 0 <= k < |r| ==> r[k].lo <= r[k].hi
  }

  /** Past the end of a run at i, a sorted outline has no pixel in the
      run's column. */
  lemma AfterRunAbsent(s: seq<Pixel>, i: nat, j: nat)
    requires SortedByX(s) && i < j <= |s| && (j < |s| ==> s[j].x != s[i].x)
    ensures Col(s[j..], s[i].x) == []
  {
    forall k | 0 <= k < |s[j..]|
      ensures s[j..][k].x != s[i].x
    {
      assert s[j..][k] == s[j + k];
      assert s[i].x <= s[j].x <= s[j + k].x;
    }
    ColAbsent(s[j..], s[i].x);
  }

  lemma ColSingle(q: Pixel, x: int)
    ensures Col([q], x) == if q.x == x then [q.y] else []
  {
    assert [q][1..] == [];
  }

  /** Filtering g + rest at column x, where g is the span of a column x0
      with Ys ys and rest's spans at x are those of the Ys right: the Ys
      of the whole column x are left + right, with left the Ys of x0 when
      x is x0 (and then right is empty), and none otherwise. */
  lemma MergeColumn(g: seq<Span>, rest: seq<Span>, x0: int, ys: seq<int>, x: int, left: seq<int>, right: seq<int>)
    requires g == GapSpan(x0, SortInts(ys))
    requires SpansAt(rest, x) == GapSpan(x, SortInts(right))
    requires x == x0 ==> left == ys && right == []
    requires x != x0 ==> left == []
    ensures SpansAt(g + rest, x) == GapSpan(x, SortInts(left + right))
  {
    SpansAtConcat(g, rest, x);
    if x == x0 {
      ShortNoSpan(x, []);
      assert SpansAt(g, x) == g;
      assert left + right == left;
    } else {
      assert SpansAt(g, x) == [];
      assert left + right == right;
    }
  }

  /** SpansFromAt for a run of two or more pixels at i, given the claim
      from the end of the run. */
  lemma SpansAtRun(s: seq<Pixel>, i: nat, x: int)
    requires SortedByX(s) && i + 1 < |s| && s[i].x == s[i + 1].x
    requires var j := RunEnd(s, i, i);
      SpansAt(SpansFrom(s, j), x) == GapSpan(x, SortInts(Col(s[j..], x)))
    ensures SpansAt(SpansFrom(s, i), x) == GapSpan(x, SortInts(Col(s[i..], x)))
  {
    var j := RunEnd(s, i, i);
    RunEndSpec(s, i, i);
    SpansFromRun(s, i);
    var left, right := Col(s[i..j], x), Col(s[j..], x);
    assert s[i..] == s[i..j] + s[j..];
    ColConcat(s[i..j], s[j..], x);
    if x == s[i].x {
      AfterRunAbsent(s, i, j);
    } else {
      assert forall k :: 0 <= k < |s[i..j]| ==> s[i..j][k] == s[i + k];
      ColAbsent(s[i..j], x);
    }
    MergeColumn(GapSpan(s[i].x, SortInts(Col(s[i..j], s[i].x))), SpansFrom(s, j),
                s[i].x, Col(s[i..j], s[i].x), x, left, right);
  }

  /** SpansFromAt for a lone pixel at i, given the claim from i + 1. */
  lemma SpansAtLone(s: seq<Pixel>, i: nat, x: int)
    requires SortedByX(s) && i + 1 < |s| && s[i].x != s[i + 1].x
    requires SpansAt(SpansFrom(s, i + 1), x) == GapSpan(x, SortInts(Col(s[i + 1..], x)))
    ensures SpansAt(SpansFrom(s, i), x) == GapSpan(x, SortInts(Col(s[i..], x)))
  {
    assert s[i..] == [s[i]] + s[i + 1..];
    ColConcat([s[i]], s[i + 1..], x);
    ColSingle(s[i], x);
    assert SpansFrom(s, i) == SpansFrom(s, i + 1);
    if x == s[i].x {
      AfterRunAbsent(s, i, i + 1);
      ShortNoSpan(x, []);
      ShortNoSpan(x, [s[i].y]);
      assert Col(s[i..], x) == [s[i].y] + [];
    } else {
      assert Col(s[i..], x) == [] + Col(s[i + 1..], x) == Col(s[i + 1..], x);
      assert SortInts(Col(s[i..], x)) == SortInts(Col(s[i + 1..], x));
    }
  }

  /** Restricted to column x, the spans emitted from index i of a sorted
      outline are the span of the sorted Ys of column x in s[i..]. */
  lemma {:induction false} SpansFromAt(s: seq<Pixel>, i: nat, x: int)
    requires SortedByX(s) && i <= |s|
    ensures SpansAt(SpansFrom(s, i), x) == GapSpan(x, SortInts(Col(s[i..], x)))
    decreases |s| - i
  {
    if i + 1 >= |s| {
      ColLength(s[i..], x);
      ShortNoSpan(x, Col(s[i..], x));
    } else if s[i].x == s[i + 1].x {
      SpansFromAt(s, RunEnd(s, i, i), x);
      SpansAtRun(s, i, x);
    } else {
      SpansFromAt(s, i + 1, x);
      SpansAtLone(s, i, x);
    }
  }

  /** The run case of SpansFromIncreasing: the run's span lies in
      column s[i].x, left of every later span. */
  lemma IncreasingRun(s: seq<Pixel>, i: nat)
    requires SortedByX(s) && i + 1 < |s| && s[i].x == s[i + 1].x
    requires var r := SpansFrom(s, RunEnd(s, i, i));
      && Increasing(r) && Proper(r)
      && forall k :: 0 <= k < |r| ==> RunEnd(s, i, i) < |s| && s[RunEnd(s, i, i)].x <= r[k].x
    ensures var r := SpansFrom(s, i);
      && Increasing(r) && Proper(r)
      && forall k :: 0 <= k < |r| ==> s[i].x <= r[k].x
  {
    var j := RunEnd(s, i, i);
    RunEndSpec(s, i, i);
    SpansFromRun(s, i);
    var g := GapSpan(s[i].x, SortInts(Col(s[i..j], s[i].x)));
    var rest := SpansFrom(s, j);
    assert forall k :: 0 <= k < |rest| ==> s[i].x < rest[k].x by {
      if j < |s| {
        assert s[i].x <= s[j].x;
      }
    }
    var r := g + rest;
    assert forall k :: 0 <= k < |r| ==> r[k] == (if k < |g| then g[k] else rest[k - |g|]);
  }

  /** From index i of a sorted outline the spans are in strictly
      increasing column order, none left of s[i], each covering at least
      one row. */
  lemma {:induction false} SpansFromIncreasing(s: seq<Pixel>, i: nat)
    requires SortedByX(s) && i <= |s|
    ensures var r := SpansFrom(s, i);
      && Increasing(r) && Proper(r)
      && forall k :: 0 <= k < |r| ==> i < |s| && s[i].x <= r[k].x
    decreases |s| - i
  {
    if i + 1 < |s| {
      if s[i].x == s[i + 1].x {
        SpansFromIncreasing(s, RunEnd(s, i, i));
        IncreasingRun(s, i);
      } else {
        SpansFromIncreasing(s, i + 1);
      }
    }
  }

  /** At most one span per column, in column order, each covering at
      least one row. */
  lemma OneSpanPerColumn(s: seq<Pixel>)
    requires SortedByX(s)
    ensures Increasing(Spans(s)) && Proper(Spans(s))
  {
    SpansFromIncreasing(s, 0);
  }

  /** For a sorted outline, the spans in column x are exactly the span of
      the first gap wider than one pixel between the sorted Ys of the
      outline pixels in that column: one span if there is such a gap,
      none otherwise. */
  lemma SpansAreFirstGaps(s: seq<Pixel>, x: int)
    requires SortedByX(s)
    ensures SpansAt(Spans(s), x) == GapSpan(x, SortInts(Col(s, x)))
  {
    SpansFromAt(s, 0, x);
    assert s[0..] == s;
  }

  /** A column with at most one outline pixel gets no span. */
  lemma SinglePixelColumnNoSpan(s: seq<Pixel>, x: int)
    requires SortedByX(s) && |Col(s, x)| <= 1
    ensures SpansAt(Spans(s), x) == []
  {
    SpansAreFirstGaps(s, x);
    ShortNoSpan(x, Col(s, x));
  }

  lemma SpansAtHead(r: seq<Span>, x: int)
    ensures r != [] ==> SpansAt(r, x) == (if r[0].x == x then [r[0]] else []) + SpansAt(r[1..], x)
  {
  }

  /** In an increasing list, filtering at the column of r[k] gives r[k]
      alone, and filtering left of r's first column gives nothing. */
  lemma {:induction false} SpansAtIncreasing(r: seq<Span>, x: int)
    requires Increasing(r)
    ensures r != [] && x == r[0].x ==> SpansAt(r, x) == [r[0]]
    ensures r != [] && x < r[0].x ==> SpansAt(r, x) == []
  {
    if r != [] && x <= r[0].x {
      assert forall k :: 0 <= k < |r[1..]| ==> r[1..][k] == r[k + 1];
      SpansAtAbsent(r[1..], x);
    }
  }

  lemma {:induction false} SpansAtAbsent(r: seq<Span>, x: int)
    requires forall k :: 0 <= k < |r| ==> r[k].x != x
    ensures SpansAt(r, x) == []
  {
    if r != [] {
      SpansAtAbsent(r[1..], x);
    }
  }

  /** Increasing span lists that agree column by column are equal. */
  lemma {:induction false} IncreasingDetermined(a: seq<Span>, b: seq<Span>)
    requires Increasing(a) && Increasing(b)
    requires forall x :: SpansAt(a, x) == SpansAt(b, x)
    ensures a == b
    decreases |a|
  {
    if a != [] && b != [] {
      SpansAtIncreasing(a, a[0].x);
      SpansAtIncreasing(b, a[0].x);
      SpansAtIncreasing(a, b[0].x);
      SpansAtIncreasing(b, b[0].x);
      assert a[0] == b[0];
      forall x
        ensures SpansAt(a[1..], x) == SpansAt(b[1..], x)
      {
        SpansAtHead(a, x);
        SpansAtHead(b, x);
        var h := if a[0].x == x then [a[0]] else [];
        assert SpansAt(a[1..], x) == SpansAt(a, x)[|h|..];
        assert SpansAt(b[1..], x) == SpansAt(b, x)[|h|..];
      }
      IncreasingDetermined(a[1..], b[1..]);
      assert a == [a[0]] + a[1..] && b == [b[0]] + b[1..];
    } else {
      SpansAtIncreasing(a, if a == [] then 0 else a[0].x);
      SpansAtIncreasing(b, if b == [] then 0 else b[0].x);
    }
  }

  /** Two outlines with the same points give every column the same sorted Ys. */
  lemma ColumnsAgree(s1: seq<Pixel>, s2: seq<Pixel>, x: int)
    requires multiset(s1) == multiset(s2)
    ensures SortInts(Col(s1, x)) == SortInts(Col(s2, x))
  {
    forall y
      ensures multiset(Col(s1, x))[y] == multiset(Col(s2, x))[y]
    {
      ColCount(s1, x, y);
      ColCount(s2, x, y);
    }
    assert multiset(Col(s1, x)) == multiset(Col(s2, x));
    SortIntsSorted(Col(s1, x));
    SortIntsSorted(Col(s2, x));
    SortIntsPerm(Col(s1, x));
    SortIntsPerm(Col(s2, x));
    SortedUnique(SortInts(Col(s1, x)), SortInts(Col(s2, x)));
  }

  /** The spans depend only on which pixels the outline holds, not on
      the order the (unstable) sort leaves pixels of equal X in. */
  lemma SpansIgnoreOrder(s1: seq<Pixel>, s2: seq<Pixel>)
    requires SortedByX(s1) && SortedByX(s2) && multiset(s1) == multiset(s2)
    ensures Spans(s1) == Spans(s2)
  {
    OneSpanPerColumn(s1);
    OneSpanPerColumn(s2);
    forall x
      ensures SpansAt(Spans(s1), x) == SpansAt(Spans(s2), x)
    {
      SpansAreFirstGaps(s1, x);
      SpansAreFirstGaps(s2, x);
      ColumnsAgree(s1, s2, x);
    }
    IncreasingDetermined(Spans(s1), Spans(s2));
  }

  /** The spans of any sorted arrangement of an outline, column by column:
      the first gap of that column's outline Ys. */
  lemma SpansOfOutline(outline: seq<Pixel>, t: seq<Pixel>)
    requires SortedByX(t) && multiset(t) == multiset(outline)
    ensures Increasing(Spans(t)) && Proper(Spans(t))
    ensures forall x :: SpansAt(Spans(t), x) == GapSpan(x, SortInts(Col(outline, x)))
  {
    OneSpanPerColumn(t);
    forall x
      ensures SpansAt(Spans(t), x) == GapSpan(x, SortInts(Col(outline, x)))
    {
      SpansAreFirstGaps(t, x);
      ColumnsAgree(t, outline, x);
    }
  }

  /** A `Draw` method's `ScanFill(points, ...)` call: the outline is copied
      into a fresh buffer that `ScanFill` sorts, so the caller sees only the
      spans. */
  method FillOutline(outline: seq<Pixel>) returns (spans: seq<Span>)
    ensures Increasing(spans) && Proper(spans)
    ensures forall x :: SpansAt(spans, x) == GapSpan(x, SortInts(Col(outline, x)))
  {
    var buffer := new Pixel[|outline|](i requires 0 <= i < |outline| => outline[i]);
    assert buffer[..] == outline;
    spans := ScanFill(buffer);
    SpansOfOutline(outline, buffer[..]);
  }

  // ---------------------------------------------------------------------
  // Span pixels

  /** The pixels of a span: column x, rows lo to hi, bottom up. */
  function SpanPixels(sp: Span): seq<Pixel>
    requires sp.lo <= sp.hi
  {
    seq(sp.hi - sp.lo + 1, k => Pixel(sp.x, sp.lo + k))
  }

  lemma {:induction false} MinorMonotone(m: LineRaster.Axis, r: seq<Pixel>, i: nat, j: nat)
    requires LineRaster.UnitSteps(m, r) && i <= j < |r|
    ensures LineRaster.Minor(m, r[i]) <= LineRaster.Minor(m, r[j])
    decreases j - i
  {
    if i < j {
      MinorMonotone(m, r, i, j - 1);
    }
  }

  /** A span is drawn as `Bresenham((X, lo), (X, hi))`, which is exactly
      the pixels (X, y) with lo <= y <= hi. */
  lemma SpanDrawn(sp: Span)
    requires sp.lo <= sp.hi
    ensures LineRaster.BresenhamPoints(ToPoint(Pixel(sp.x, sp.lo)), ToPoint(Pixel(sp.x, sp.hi))) == SpanPixels(sp)
  {
    var a, b := Pixel(sp.x, sp.lo), Pixel(sp.x, sp.hi);
    LineRaster.BresenhamForward(a, b);
    var r := LineRaster.BresenhamPoints(ToPoint(a), ToPoint(b));
    forall k | 0 <= k < |r|
      ensures r[k] == Pixel(sp.x, sp.lo + k)
    {
      LineRaster.UnitStepsMajor(LineRaster.AlongY, r, k);
      MinorMonotone(LineRaster.AlongY, r, 0, k);
      MinorMonotone(LineRaster.AlongY, r, k, |r| - 1);
    }
  }
}
