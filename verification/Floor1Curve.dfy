/** Floor type 1: its setup, and the curve drawn through its points. */
module Floor1Curve {
  import opened Bits
  import opened Integers
  import opened Floor1

  // ----- lines -----

  /** What the error accumulator of `draw_line` stands for after `dx` steps: together with the
      distance from `y0` it makes up the product that the division form divides. */
  ghost predicate OnLine(dx: int, y0: int, y1: int, adx: int, y: int, err: int) {
    && 0 <= err < adx
    && Abs(y - y0) * adx + err == Abs(y1 - y0) * dx
    && (y1 >= y0 ==> y >= y0) && (y1 < y0 ==> y <= y0)
  }

  /** The accumulator and the division agree. */
  lemma OnLineIsPredict(x: int, x0: int, x1: int, y0: int, y1: int, y: int, err: int)
    requires x0 < x1 && x0 <= x && OnLine(x - x0, y0, y1, x1 - x0, y, err)
    ensures y == Predict(x, x0, x1, y0, y1)
  {
    NonNegative(Abs(y1 - y0), x - x0);
    DivModUnique(Abs(y1 - y0) * (x - x0), x1 - x0, Abs(y - y0), err);
  }

  /** One step of the accumulator. */
  lemma OnLineStep(dx: int, y0: int, y1: int, adx: int, y: int, err: int, base: int, rest: int)
    requires adx > 0 && OnLine(dx, y0, y1, adx, y, err) && 0 <= rest < adx
    requires base == TruncDiv(y1 - y0, adx) && Abs(y1 - y0) == Abs(base) * adx + rest
    requires y1 >= y0 ==> base >= 0
    requires y1 < y0 ==> base <= 0
    ensures var sy := if y1 < y0 then base - 1 else base + 1;
      if err + rest >= adx then OnLine(dx + 1, y0, y1, adx, y + sy, err + rest - adx)
      else OnLine(dx + 1, y0, y1, adx, y + base, err + rest)
  {
    hide TruncDiv;
    var ady := Abs(y1 - y0);
    assert ady * (dx + 1) == ady * dx + ady;
    var sy := if y1 < y0 then base - 1 else base + 1;
    assert Abs(y + base - y0) == Abs(y - y0) + Abs(base);
    assert Abs(y + sy - y0) == Abs(y - y0) + Abs(base) + 1;
    Spread(Abs(y - y0), Abs(base), adx);
  }

  lemma Spread(a: int, b: int, d: int)
    ensures (a + b) * d == a * d + b * d && (a + b + 1) * d == a * d + b * d + d
  {
  }

  /** The whole steps and what is left. */
  lemma BaseAndRest(dy: int, adx: int)
    requires adx > 0
    ensures var base, rest := TruncDiv(dy, adx), Abs(dy) - Abs(TruncDiv(dy, adx)) * adx;
      0 <= rest < adx && (dy >= 0 ==> base >= 0) && (dy < 0 ==> base <= 0)
  {
    hide TruncDiv, Abs;
    DivMod(Abs(dy), adx);
    TruncSize(dy, adx);
    assert Abs(dy) / adx * adx == adx * (Abs(dy) / adx);
  }

  lemma TruncSize(dy: int, adx: int)
    requires adx > 0
    ensures Abs(TruncDiv(dy, adx)) == Abs(dy) / adx
    ensures (dy >= 0 ==> TruncDiv(dy, adx) >= 0) && (dy < 0 ==> TruncDiv(dy, adx) <= 0)
  {
    QuotientSign(Abs(dy), adx);
  }

  lemma QuotientSign(x: nat, p: nat)
    requires p > 0
    ensures x / p >= 0
  {
  }

  /** `draw_line`; the output is the index into the table of amplitudes. */
  method DrawLine(output: array<int>, x0: int, y0: int, x1: int, y1: int, n: nat)
    requires 0 <= x0 < x1 && n <= output.Length
    modifies output
    ensures forall x :: x0 <= x < x1 && x < n ==> output[x] == Predict(x, x0, x1, y0, y1) % 256
    ensures forall x :: 0 <= x < output.Length && !(x0 <= x < x1 && x < n) ==> output[x] == old(output[x])
  {
    hide Predict, TruncDiv, OnLine, Abs;
    var dy, adx := y1 - y0, x1 - x0;
    var base := TruncDiv(dy, adx);
    var sy := if dy < 0 then base - 1 else base + 1;
    var ady := Abs(dy) - Abs(base) * adx;
    BaseAndRest(dy, adx);
    var y, err := y0, 0;
    var end := if x1 > n then n else x1;
    if x0 < end {
      StartOnLine(y0, y1, adx);
      OnLineIsPredict(x0, x0, x1, y0, y1, y, err);
      output[x0] := y % 256;
      for x := x0 + 1 to end
        invariant OnLine(x - 1 - x0, y0, y1, adx, y, err)
        invariant forall i :: x0 <= i < x ==> output[i] == Predict(i, x0, x1, y0, y1) % 256
        invariant forall i :: 0 <= i < output.Length && !(x0 <= i < x) ==> output[i] == old(output[i])
      {
        OnLineStep(x - 1 - x0, y0, y1, adx, y, err, base, ady);
        err := err + ady;
        if err >= adx {
          err := err - adx;
          y := y + sy;
        } else {
          y := y + base;
        }
        OnLineIsPredict(x, x0, x1, y0, y1, y, err);
        output[x] := y % 256;
      }
    }
  }

  lemma StartOnLine(y0: int, y1: int, adx: int)
    requires adx > 0
    ensures OnLine(0, y0, y1, adx, y0, 0)
  {
  }

  // ----- setup -----

  /** The ids of the first `n` points in the order of their x: what `qsort` leaves in `sorted_order`. */
  function SortOrder(xs: seq<nat>, n: nat): (order: seq<nat>)
    requires n <= |xs|
    ensures Ascending(xs, order) && SameIds(order, n) && |order| == n
  {
    hide Ascending, Insert, SameIds;
    if n == 0 then NoIds(xs); [] else
      InsertAscending(xs, n - 1, SortOrder(xs, n - 1));
      InsertIds(xs, n - 1, SortOrder(xs, n - 1));
      Insert(xs, n - 1, SortOrder(xs, n - 1))
  }

  ghost predicate SameIds(order: seq<nat>, n: nat) {
    multiset(order) == multiset(Ids(n))
  }

  lemma NoIds(xs: seq<nat>)
    ensures Ascending(xs, []) && SameIds([], 0)
  {
  }

  lemma InsertIds(xs: seq<nat>, id: nat, order: seq<nat>)
    requires Ascending(xs, order) && id < |xs| && SameIds(order, id)
    ensures SameIds(Insert(xs, id, order), id + 1)
  {
  }

  function Ids(n: nat): (ids: seq<nat>)
    ensures |ids| == n && forall i :: 0 <= i < n ==> ids[i] == i
  {
    if n == 0 then [] else Ids(n - 1) + [n - 1]
  }

  predicate Ascending(xs: seq<nat>, order: seq<nat>) {
    && (forall i :: 0 <= i < |order| ==> order[i] < |xs|)
    && (forall i, j :: 0 <= i < j < |order| ==> xs[order[i]] <= xs[order[j]])
  }

  function Insert(xs: seq<nat>, id: nat, order: seq<nat>): (r: seq<nat>)
    requires Ascending(xs, order) && id < |xs|
    ensures multiset(r) == multiset(order) + multiset{id} && |r| == |order| + 1
    decreases |order|
  {
    if order == [] || xs[id] < xs[order[0]] then [id] + order
    else
      assert order == [order[0]] + order[1..];
      [order[0]] + Insert(xs, id, order[1..])
  }

  lemma {:induction false} InsertAscending(xs: seq<nat>, id: nat, order: seq<nat>)
    requires Ascending(xs, order) && id < |xs|
    ensures Ascending(xs, Insert(xs, id, order))
    ensures Insert(xs, id, order)[0] == id || (order != [] && Insert(xs, id, order)[0] == order[0])
    decreases |order|
  {
    if order != [] && xs[id] >= xs[order[0]] {
      InsertAscending(xs, id, order[1..]);
    }
  }

  /** Everyone is in the order, and nobody twice. */
  lemma OrderHas(xs: seq<nat>, n: nat, id: nat)
    requires n <= |xs| && id < n
    ensures exists q :: 0 <= q < n && SortOrder(xs, n)[q] == id
  {
    assert Ids(n)[id] == id;
    assert id in multiset(Ids(n));
    assert id in multiset(SortOrder(xs, n));
  }

  lemma OrderInjective(xs: seq<nat>, n: nat, p: nat, q: nat)
    requires n <= |xs| && p < q < n
    ensures SortOrder(xs, n)[p] != SortOrder(xs, n)[q]
  {
    var order := SortOrder(xs, n);
    if order[p] == order[q] {
      assert order == order[..q] + order[q..];
      assert order[..q][p] == order[p] && order[q..][0] == order[q];
      assert multiset(order)[order[p]] == multiset(order[..q])[order[p]] + multiset(order[q..])[order[p]] >= 2;
      IdsOnce(n, order[p]);
    }
  }

  lemma {:induction false} IdsOnce(n: nat, id: nat)
    ensures multiset(Ids(n))[id] <= 1 && (id >= n ==> multiset(Ids(n))[id] == 0)
  {
    if n > 0 {
      IdsOnce(n - 1, id);
    }
  }

  ghost predicate Distinct(xs: seq<nat>) {
    forall i, j :: 0 <= i < j < |xs| ==> xs[i] != xs[j]
  }

  /** No two points next to each other in the order share their x. */
  ghost predicate Strict(xs: seq<nat>, order: seq<nat>)
    requires Ascending(xs, order)
  {
    forall q :: 0 <= q < |order| - 1 ==> xs[order[q]] != xs[order[q + 1]]
  }

  /** That holds exactly if no two points share it at all. */
  lemma DistinctIffStrict(xs: seq<nat>)
    ensures Distinct(xs) <==> Strict(xs, SortOrder(xs, |xs|))
  {
    hide SortOrder, SameIds, Ascending;
    if Distinct(xs) {
      DistinctIsStrict(xs);
    }
    if Strict(xs, SortOrder(xs, |xs|)) {
      forall i, j | 0 <= i < j < |xs|
        ensures xs[i] != xs[j]
      {
        StrictApart(xs, i, j);
      }
    }
  }

  lemma DistinctIsStrict(xs: seq<nat>)
    requires Distinct(xs)
    ensures Strict(xs, SortOrder(xs, |xs|))
  {
    hide SortOrder, SameIds;
    var order := SortOrder(xs, |xs|);
    forall q | 0 <= q < |xs| - 1
      ensures xs[order[q]] != xs[order[q + 1]]
    {
      OrderInjective(xs, |xs|, q, q + 1);
    }
  }

  lemma StrictApart(xs: seq<nat>, i: nat, j: nat)
    requires i < |xs| && j < |xs| && i != j && Strict(xs, SortOrder(xs, |xs|))
    ensures xs[i] != xs[j]
  {
    hide SortOrder, Strict, SameIds, Ascending;
    var order := SortOrder(xs, |xs|);
    OrderHas(xs, |xs|, i);
    OrderHas(xs, |xs|, j);
    var p :| 0 <= p < |xs| && order[p] == i;
    var q :| 0 <= q < |xs| && order[q] == j;
    if p < q {
      StrictOrder(xs, order, p, q);
    } else {
      StrictOrder(xs, order, q, p);
    }
  }

  lemma StrictOrder(xs: seq<nat>, order: seq<nat>, p: nat, q: nat)
    requires Ascending(xs, order) && p < q < |order| && Strict(xs, order)
    ensures xs[order[p]] < xs[order[q]]
  {
    assert xs[order[p]] <= xs[order[p + 1]] && xs[order[p]] != xs[order[p + 1]];
    assert p + 1 == q || xs[order[p + 1]] <= xs[order[q]];
  }

  /** `neighbors`: the closest points on either side among the first `n`, or 0 where there is none. */
  method Neighbors(x: seq<nat>, n: nat) returns (low: nat, high: nat)
    requires n < |x| && forall i :: 0 <= i < n ==> x[i] < 65536
    ensures low == 0 || low < n
    ensures high == 0 || high < n
    ensures (exists i :: 0 <= i < n && x[i] < x[n]) ==> low < n && x[low] < x[n]
    ensures forall i :: 0 <= i < n && x[i] < x[n] ==> x[i] <= x[low]
    ensures (exists i :: 0 <= i < n && x[i] > x[n]) ==> high < n && x[high] > x[n]
    ensures forall i :: 0 <= i < n && x[i] > x[n] ==> x[i] >= x[high]
  {
    low, high := 0, 0;
    var below: int, above: int := -1, 65536;
    for i := 0 to n
      invariant below == -1 ==> low == 0 && forall j :: 0 <= j < i ==> x[j] >= x[n]
      invariant below != -1 ==> low < i && below == x[low] < x[n]
      invariant forall j :: 0 <= j < i && x[j] < x[n] ==> x[j] <= below
      invariant above == 65536 ==> high == 0 && forall j :: 0 <= j < i ==> x[j] <= x[n]
      invariant above != 65536 ==> high < i && above == x[high] > x[n]
      invariant forall j :: 0 <= j < i && x[j] > x[n] ==> x[j] >= above
    {
      if x[i] > below && x[i] < x[n] {
        low, below := i, x[i];
      }
      if x[i] < above && x[i] > x[n] {
        high, above := i, x[i];
      }
    }
  }

  /** The points as the setup header gives them: both ends first, everyone else between them or
      on the left end. */
  predicate Points(xs: seq<nat>) {
    && |xs| >= 2 && xs[0] == 0 < xs[1] < 65536
    && forall i :: 2 <= i < |xs| ==> xs[i] < xs[1]
  }

  /** The setup of a floor: accepted exactly if the points are distinct; then every point has
      neighbours on both sides. */
  method Setup(xs: seq<nat>, multiplier: nat) returns (ok: bool, f: Floor, order: seq<nat>)
    requires Points(xs) && 1 <= multiplier <= 4
    ensures ok <==> Distinct(xs)
    ensures ok ==> f.xs == xs && f.multiplier == multiplier && Config(f) && order == SortOrder(xs, |xs|)
  {
    hide SortOrder, SameIds;
    order := SortOrder(xs, |xs|);
    f := Floor(xs, multiplier, [0, 0], [0, 0]);
    DistinctIffStrict(xs);
    for j := 0 to |xs| - 1
      invariant forall q :: 0 <= q < j ==> xs[order[q]] != xs[order[q + 1]]
    {
      if xs[order[j]] == xs[order[j + 1]] {
        assert !Strict(xs, order);
        return false, f, order;
      }
    }
    assert Strict(xs, order);
    ok := true;
    for j := 2 to |xs|
      invariant f.xs == xs && f.multiplier == multiplier && |f.low| == |f.high| == j
      invariant forall i :: 2 <= i < j ==> Close(xs, i, f.low[i], f.high[i])
    {
      var low, high := Neighbors(xs, j);
      assert xs[0] < xs[j] < xs[1];
      f := f.(low := f.low + [low], high := f.high + [high]);
    }
    CloseIsBracketed(f);
  }

  predicate Close(xs: seq<nat>, j: nat, low: nat, high: nat)
    requires j < |xs|
  {
    && low < j && high < j && xs[low] < xs[j] < xs[high]
    && (forall i :: 0 <= i < j && xs[i] < xs[j] ==> xs[i] <= xs[low])
    && (forall i :: 0 <= i < j && xs[i] > xs[j] ==> xs[i] >= xs[high])
  }

  lemma CloseIsBracketed(f: Floor)
    requires |f.xs| == |f.low| == |f.high| >= 2 && 1 <= f.multiplier <= 4
    requires forall j :: 2 <= j < |f.xs| ==> Close(f.xs, j, f.low[j], f.high[j])
    ensures Config(f)
  {
    forall j | 2 <= j < |f.xs|
      ensures Bracketed(f, j)
    {
      assert Close(f.xs, j, f.low[j], f.high[j]);
    }
  }

  // ----- the curve -----

  /** The points that are drawn, of the first `q` in sorted order; an amplitude below zero marks
      one that is not. */
  function Kept(f: Floor, order: seq<nat>, ys: seq<int>, q: nat): (pts: seq<(nat, int)>)
    requires q <= |order| && Ascending(f.xs, order) && |ys| == |f.xs|
    ensures |pts| <= q
  {
    if q == 0 then [] else
      var j := order[q - 1];
      Kept(f, order, ys, q - 1) + if ys[j] >= 0 then [(f.xs[j], ys[j] * f.multiplier)] else []
  }

  predicate Rising(pts: seq<(nat, int)>) {
    forall i, j :: 0 <= i < j < |pts| ==> pts[i].0 < pts[j].0
  }

  /** The curve: lines from point to point, and the last amplitude from the last point on. */
  function LineAt(pts: seq<(nat, int)>, x: nat): (y: int)
    requires pts != [] && Rising(pts) && pts[0].0 <= x
  {
    var n := |pts|;
    if x >= pts[n - 1].0 then pts[n - 1].1
    else if x >= pts[n - 2].0 then Predict(x, pts[n - 2].0, pts[n - 1].0, pts[n - 2].1, pts[n - 1].1)
    else LineAt(pts[..n - 1], x)
  }

  /** It passes through every point. */
  lemma {:induction false} LineThroughPoint(pts: seq<(nat, int)>, i: nat)
    requires i < |pts| && Rising(pts)
    ensures pts[0].0 <= pts[i].0 && LineAt(pts, pts[i].0) == pts[i].1
  {
    hide Predict;
    var n := |pts|;
    if i == n - 2 {
      PredictAtStart(pts[i].0, pts[n - 1].0, pts[i].1, pts[n - 1].1);
    } else if i < n - 2 {
      LineThroughPoint(pts[..n - 1], i);
    }
  }

  lemma PredictAtStart(x0: int, x1: int, y0: int, y1: int)
    requires x0 < x1
    ensures Predict(x0, x0, x1, y0, y1) == y0
  {
  }

  predicate Bytes(pts: seq<(nat, int)>) {
    forall i :: 0 <= i < |pts| ==> 0 <= pts[i].1 <= 255
  }

  /** Between points that index the table, the curve does. */
  lemma {:induction false} LineInTable(pts: seq<(nat, int)>, x: nat)
    requires pts != [] && Rising(pts) && Bytes(pts) && pts[0].0 <= x
    ensures 0 <= LineAt(pts, x) <= 255
  {
    hide Predict;
    var n := |pts|;
    if x < pts[n - 1].0 {
      if x >= pts[n - 2].0 {
        PredictBetween(x, pts[n - 2].0, pts[n - 1].0, pts[n - 2].1, pts[n - 1].1);
      } else {
        LineInTable(pts[..n - 1], x);
      }
    }
  }

  /** The points kept are in the order of their x, and their amplitudes index the table. */
  lemma {:induction false} KeptPoints(f: Floor, ys: seq<int>, q: nat)
    requires Config(f) && Points(f.xs) && Distinct(f.xs) && q <= |f.xs| == |ys|
    requires ys[0] >= 0 && forall i :: 0 <= i < |ys| ==> ys[i] < Range(f)
    ensures var pts := Kept(f, SortOrder(f.xs, |f.xs|), ys, q);
      && Rising(pts) && Bytes(pts) && (q > 0 ==> |pts| > 0 && pts[0] == (0, ys[0] * f.multiplier))
      && forall i :: 0 <= i < |pts| && q > 0 ==> pts[i].0 <= f.xs[SortOrder(f.xs, |f.xs|)[q - 1]]
  {
    hide SortOrder, SameIds, Config, Range;
    if q > 0 {
      KeptPoints(f, ys, q - 1);
      var order := SortOrder(f.xs, |f.xs|);
      var pts, j := Kept(f, order, ys, q - 1), order[q - 1];
      AmplitudeInTable(f, ys[j]);
      FirstIsFirst(f.xs);
      if q > 1 {
        DistinctIffStrict(f.xs);
        assert f.xs[order[q - 2]] <= f.xs[order[q - 1]] && f.xs[order[q - 2]] != f.xs[order[q - 2 + 1]];
      } else {
        assert Kept(f, order, ys, 0) == [];
      }
    }
  }

  lemma AmplitudeInTable(f: Floor, y: int)
    requires Config(f) && y < Range(f)
    ensures y >= 0 ==> 0 <= y * f.multiplier <= 255
  {
    if y >= 0 {
      TimesMono(f.multiplier, y, Range(f) - 1);
      NonNegative(y, f.multiplier);
    }
  }

  lemma FirstIsFirst(xs: seq<nat>)
    requires Points(xs) && Distinct(xs)
    ensures SortOrder(xs, |xs|)[0] == 0
  {
    hide SortOrder, SameIds;
    var order := SortOrder(xs, |xs|);
    OrderHas(xs, |xs|, 0);
    var q :| 0 <= q < |xs| && order[q] == 0;
    assert q == 0 || xs[order[0]] <= xs[order[q]];
  }

  /** `do_floor`: every place of the output gets the curve's value exactly once. */
  method DoFloor(f: Floor, order: seq<nat>, finalY: array<int>, target: array<int>, n2: nat)
    requires Config(f) && Points(f.xs) && Distinct(f.xs) && order == SortOrder(f.xs, |f.xs|)
    requires finalY.Length == |f.xs| && finalY[0] >= 0 && finalY != target && n2 <= target.Length
    requires forall i :: 0 <= i < |f.xs| ==> finalY[i] < Range(f)
    modifies target
    ensures var pts := Kept(f, order, finalY[..], |f.xs|);
      && pts != [] && Rising(pts) && pts[0].0 == 0
      && forall x :: 0 <= x < n2 ==> target[x] == LineAt(pts, x)
    ensures forall x :: n2 <= x < target.Length ==> target[x] == old(target[x])
  {
    hide SortOrder, SameIds, Config, Range, Predict, Rising, Bytes, LineAt;
    ghost var ys := finalY[..];
    KeptPoints(f, ys, 1);
    FirstIsFirst(f.xs);
    ghost var pts := Kept(f, order, ys, 1);
    assert Kept(f, order, ys, 0) == [];
    var lx, ly := 0, finalY[0] * f.multiplier;
    for q := 1 to |f.xs|
      invariant finalY[..] == ys
      invariant pts == Kept(f, order, ys, q) && pts != [] && Rising(pts) && pts[0].0 == 0
      invariant pts[|pts| - 1] == (lx, ly)
      invariant forall x :: 0 <= x < lx && x < n2 ==> target[x] == LineAt(pts, x)
      invariant forall x :: n2 <= x < target.Length ==> target[x] == old(target[x])
    {
      var j := order[q];
      KeptPoints(f, ys, q + 1);
      if finalY[j] >= 0 {
        var hy, hx := finalY[j] * f.multiplier, f.xs[j];
        KeptMore(pts, (hx, hy));
        if lx != hx {
          DrawLine(target, lx, ly, hx, hy, n2);
        }
        pts := pts + [(hx, hy)];
        lx, ly := hx, hy;
      }
    }
    if lx < n2 {
      LastPoint(pts);
      for x := lx to n2
        invariant finalY[..] == ys
        invariant forall i :: 0 <= i < x ==> target[i] == LineAt(pts, i)
        invariant forall i :: n2 <= i < target.Length ==> target[i] == old(target[i])
      {
        target[x] := ly;
      }
    }
  }

  lemma LastPoint(pts: seq<(nat, int)>)
    requires pts != [] && Rising(pts)
    ensures forall x :: pts[|pts| - 1].0 <= x ==> pts[0].0 <= x && LineAt(pts, x) == pts[|pts| - 1].1
  {
  }

  /** A further point: the curve before the last point stays, then comes a line. */
  lemma KeptMoreAt(pts: seq<(nat, int)>, p: (nat, int), x: nat)
    requires pts != [] && Rising(pts) && Rising(pts + [p]) && Bytes(pts + [p]) && pts[0].0 <= x < p.0
    ensures pts[|pts| - 1].0 < p.0
    ensures LineAt(pts + [p], x) ==
      if x < pts[|pts| - 1].0 then LineAt(pts, x)
      else Predict(x, pts[|pts| - 1].0, p.0, pts[|pts| - 1].1, p.1) % 256
  {
    hide Predict, Rising, Bytes;
    var all, n := pts + [p], |pts|;
    assert all[n - 1] == pts[n - 1] && all[n] == p && all[..n] == pts && all[0] == pts[0];
    LastRises(pts, p);
    LineInTable(all, x);
  }

  lemma LastRises(pts: seq<(nat, int)>, p: (nat, int))
    requires pts != [] && Rising(pts + [p])
    ensures Rising(pts) && pts[|pts| - 1].0 < p.0 && pts[0].0 <= pts[|pts| - 1].0
  {
    var all := pts + [p];
    assert forall i :: 0 <= i < |pts| ==> all[i] == pts[i];
    assert all[|pts|] == p;
  }

  lemma KeptMore(pts: seq<(nat, int)>, p: (nat, int))
    requires pts != [] && Rising(pts + [p]) && Bytes(pts + [p]) && pts[0].0 == 0
    ensures Rising(pts) && pts[|pts| - 1].0 < p.0
    ensures forall x :: 0 <= x < pts[|pts| - 1].0 ==> LineAt(pts + [p], x) == LineAt(pts, x)
    ensures forall x :: pts[|pts| - 1].0 <= x < p.0 ==>
      LineAt(pts + [p], x) == Predict(x, pts[|pts| - 1].0, p.0, pts[|pts| - 1].1, p.1) % 256
  {
    hide Predict, Rising, Bytes, LineAt;
    LastRises(pts, p);
    forall x | 0 <= x < pts[|pts| - 1].0
      ensures LineAt(pts + [p], x) == LineAt(pts, x)
    {
      KeptMoreAt(pts, p, x);
    }
    forall x | pts[|pts| - 1].0 <= x < p.0
      ensures LineAt(pts + [p], x) == Predict(x, pts[|pts| - 1].0, p.0, pts[|pts| - 1].1, p.1) % 256
    {
      KeptMoreAt(pts, p, x);
    }
  }

  /** Points that are not used are marked before the curve is drawn. */
  method MarkUnused(f: Floor, finalY: array<int>, step2Flag: array<bool>)
    requires finalY.Length == |f.xs| <= step2Flag.Length
    modifies finalY
    ensures forall j :: 0 <= j < |f.xs| ==> finalY[j] == if step2Flag[j] then old(finalY[j]) else -1
  {
    for j := 0 to |f.xs|
      invariant forall i :: 0 <= i < j ==> finalY[i] == if step2Flag[i] then old(finalY[i]) else -1
      invariant forall i :: j <= i < |f.xs| ==> finalY[i] == old(finalY[i])
    {
      if !step2Flag[j] {
        finalY[j] := -1;
      }
    }
  }
}
