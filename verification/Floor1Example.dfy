/** One floor from its points and coded values to its curve. */
module Floor1Example {
  import opened Floor1
  import opened Floor1Curve

  /** Points at 0, 8, 4 and 6, multiplier 2. */
  const XS: seq<nat> := [0, 8, 4, 6]
  const VALUES: seq<nat> := [10, 20, 3, 0]
  const ORDER: seq<nat> := [0, 2, 3, 1]
  const DRAWN: seq<(nat, int)> := [(0, 20), (4, 26), (8, 40)]

  lemma OrderIs()
    ensures SortOrder(XS, 4) == ORDER && Distinct(XS)
  {
    hide SameIds, SortOrder;
    OrderHas(XS, 4, 0);
    OrderHas(XS, 4, 1);
    OrderHas(XS, 4, 2);
    OrderHas(XS, 4, 3);
    OnlyOrder(SortOrder(XS, 4));
  }

  lemma OnlyOrder(order: seq<nat>)
    requires |order| == 4 && Ascending(XS, order) && 0 in order && 1 in order && 2 in order && 3 in order
    ensures order == ORDER
  {
  }

  /** The neighbours of the points at 4 and 6. */
  lemma NeighboursAre(f: Floor)
    requires f.xs == XS && Config(f)
    ensures f.low[2] == 0 && f.high[2] == 1 && f.low[3] == 2 && f.high[3] == 1
  {
    assert Bracketed(f, 2) && Bracketed(f, 3);
    assert Above(f, 3, 1) && Below(f, 3, 2);
  }

  /** 15 is predicted for the third point and the value 3 means two below; the last one is where it
      is predicted to be. */
  lemma AmplitudesAre(f: Floor)
    requires f.xs == XS && f.multiplier == 2 && Config(f)
    ensures Amplitudes(f, VALUES, 4) == [10, 20, 13, 16]
  {
    hide Predict;
    NeighboursAre(f);
    Lines();
    assert Amplitudes(f, VALUES, 1) == [10] && Amplitudes(f, VALUES, 2) == [10, 20];
    assert Prediction(f, [10, 20], 2) == 15;
    assert Amplitudes(f, VALUES, 3) == [10, 20, 13];
    assert Prediction(f, [10, 20, 13], 3) == 16;
  }

  lemma Lines()
    ensures Predict(4, 0, 8, 10, 20) == 15 && Predict(6, 4, 8, 13, 20) == 16
  {
  }

  lemma UsedAre(f: Floor)
    requires f.xs == XS && Config(f)
    ensures Used(f, VALUES, 4, 0) && Used(f, VALUES, 4, 1) && Used(f, VALUES, 4, 2) && !Used(f, VALUES, 4, 3)
  {
    NeighboursAre(f);
  }

  lemma DrawnAre(f: Floor)
    requires f.xs == XS && f.multiplier == 2
    ensures Ascending(XS, ORDER) && Kept(f, ORDER, [10, 20, 13, -1], 4) == DRAWN && Rising(DRAWN)
  {
    var ys := [10, 20, 13, -1];
    assert Kept(f, ORDER, ys, 1) == [(0, 20)];
    assert Kept(f, ORDER, ys, 2) == [(0, 20), (4, 26)];
    assert Kept(f, ORDER, ys, 3) == [(0, 20), (4, 26)];
  }

  const CURVE: seq<int> := [20, 21, 23, 24, 26, 29, 33, 36, 40, 40]

  lemma CurveIs(x: nat)
    requires x < 10 && Rising(DRAWN)
    ensures LineAt(DRAWN, x) == CURVE[x]
  {
    hide Predict;
    Slopes();
    var two := DRAWN[..2];
    assert two == [(0, 20), (4, 26)];
  }

  lemma Slopes()
    ensures forall x :: 0 <= x < 4 ==> Predict(x, 0, 4, 20, 26) == CURVE[x]
    ensures forall x :: 4 <= x < 8 ==> Predict(x, 4, 8, 26, 40) == CURVE[x]
  {
    forall x | 0 <= x < 8
      ensures x < 4 ==> Predict(x, 0, 4, 20, 26) == CURVE[x]
      ensures x >= 4 ==> Predict(x, 4, 8, 26, 40) == CURVE[x]
    {
      assert x in {0, 1, 2, 3, 4, 5, 6, 7};
    }
  }

  lemma Usable(f: Floor)
    requires f.xs == XS && Config(f)
    ensures Range(f) >= 64
  {
  }

  method Unwrapped(f: Floor) returns (finalY: array<int>)
    requires f.xs == XS && f.multiplier == 2 && Config(f)
    ensures fresh(finalY) && finalY[..] == [10, 20, 13, -1]
  {
    hide Config, Used, Amplitudes;
    finalY := new int[4] [10, 20, 3, 0];
    var flags := new bool[4];
    assert finalY[..4] == VALUES;
    AmplitudesAre(f);
    UsedAre(f);
    UnwrapAll(f, finalY, flags);
    assert finalY[..4][0] == 10 && finalY[..4][1] == 20 && finalY[..4][2] == 13;
    MarkUnused(f, finalY, flags);
  }

  method Drawn(f: Floor, finalY: array<int>) returns (target: array<int>)
    requires f.xs == XS && f.multiplier == 2 && Config(f) && finalY[..] == [10, 20, 13, -1]
    requires SortOrder(XS, 4) == ORDER && Distinct(XS) && Points(XS)
    ensures fresh(target) && target[..] == CURVE
  {
    hide Config, SortOrder, Kept, Rising, LineAt, Distinct, Ascending, Range, Points;
    assert finalY[..][0] == 10 && finalY[..][1] == 20 && finalY[..][2] == 13 && finalY[..][3] == -1;
    target := new int[10];
    Usable(f);
    DrawnAre(f);
    DoFloor(f, ORDER, finalY, target, 10);
    CurveAll();
  }

  lemma CurveAll()
    requires Rising(DRAWN)
    ensures forall x :: 0 <= x < 10 ==> LineAt(DRAWN, x) == CURVE[x]
  {
    hide LineAt;
    forall x | 0 <= x < 10
      ensures LineAt(DRAWN, x) == CURVE[x]
    {
      CurveIs(x);
    }
  }

  /** The whole way: the point at 6 is not drawn, so one line goes from 4 to 8, and the last value
      is kept from there on. */
  method DrawFloor() returns (target: array<int>)
    ensures fresh(target) && target[..] == CURVE
  {
    hide Config, SortOrder, Distinct, Ascending, Points;
    OrderIs();
    FromStart();
    var ok, f, order := Setup(XS, 2);
    var finalY := Unwrapped(f);
    target := Drawn(f, finalY);
  }

  lemma FromStart()
    ensures Points(XS)
  {
  }
}
