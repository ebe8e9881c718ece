/** The monotone cubic through a curve's control points (web/acceleration-curve.js), with
    Fritsch-Carlson tangents, over real numbers. The benchmark's second implementation
    (host/replay/quality.js) is shown to be the same function. */
module AccelerationCurve {
  datatype Point = Point(speed: real, percent: real)

  /** Points the curve can be drawn through: at least one, with strictly increasing speeds. */
  ghost predicate Drawable(points: seq<Point>) {
    points != [] && forall i, j | 0 <= i < j < |points| :: points[i].speed < points[j].speed
  }

  /** The slope between a point and the next. */
  function Secant(points: seq<Point>, i: nat): real
    requires i + 1 < |points| && points[i].speed < points[i + 1].speed
  {
    (points[i + 1].percent - points[i].percent) / (points[i + 1].speed - points[i].speed)
  }

  /** The weighted harmonic mean of two slopes over steps `h0` and `h1`. */
  function HarmonicMean(s0: real, s1: real, h0: real, h1: real): real
    requires s0 * s1 > 0.0 && h0 > 0.0 && h1 > 0.0
  {
    HarmonicDefined(s0, s1, h0, h1);
    (2.0 * h1 + h0 + (h1 + 2.0 * h0)) / ((2.0 * h1 + h0) / s0 + (h1 + 2.0 * h0) / s1)
  }

  lemma SignsAgree(s0: real, s1: real)
    requires s0 * s1 > 0.0
    ensures (s0 > 0.0 && s1 > 0.0) || (s0 < 0.0 && s1 < 0.0)
  {
  }

  lemma HarmonicDefined(s0: real, s1: real, h0: real, h1: real)
    requires s0 * s1 > 0.0 && h0 > 0.0 && h1 > 0.0
    ensures s0 != 0.0 && s1 != 0.0
    ensures (2.0 * h1 + h0) / s0 + (h1 + 2.0 * h0) / s1 != 0.0
    ensures s0 > 0.0 ==> (2.0 * h1 + h0) / s0 > 0.0 && (h1 + 2.0 * h0) / s1 > 0.0
    ensures s0 < 0.0 ==> (2.0 * h1 + h0) / s0 < 0.0 && (h1 + 2.0 * h0) / s1 < 0.0
  {
    SignsAgree(s0, s1);
    QuotientSign(2.0 * h1 + h0, s0);
    QuotientSign(h1 + 2.0 * h0, s1);
  }

  lemma QuotientSign(a: real, b: real)
    requires a > 0.0 && b != 0.0
    ensures b > 0.0 ==> a / b > 0.0
    ensures b < 0.0 ==> a / b < 0.0
  {
    assert a / b * b == a;
  }

  /** The slope the curve has at a point: zero at both ends and at an extremum, else the
      harmonic mean of the slopes on either side. */
  function Tangent(points: seq<Point>, i: nat): real
    requires Drawable(points) && i < |points|
  {
    if i == 0 || i == |points| - 1 then 0.0
    else
      var s0, s1 := Secant(points, i - 1), Secant(points, i);
      if s0 * s1 > 0.0
      then HarmonicMean(s0, s1, points[i].speed - points[i - 1].speed, points[i + 1].speed - points[i].speed)
      else 0.0
  }

  // ----- the slope at a point is at most three times the slope beside it -----

  lemma HarmonicBound(s0: real, s1: real, h0: real, h1: real)
    requires s0 > 0.0 && s1 > 0.0 && h0 > 0.0 && h1 > 0.0
    ensures s0 * s1 > 0.0
    ensures 0.0 < HarmonicMean(s0, s1, h0, h1) <= 3.0 * s0
    ensures HarmonicMean(s0, s1, h0, h1) <= 3.0 * s1
  {
    assert s0 * s1 > 0.0;
    HarmonicDefined(s0, s1, h0, h1);
    var w0, w1 := 2.0 * h1 + h0, h1 + 2.0 * h0;
    MeanBound(w0, w1, s0, s1, h0 + h1);
  }

  /** A mean of positive slopes with weights that sum to 3·h, each at least h. */
  lemma MeanBound(w0: real, w1: real, s0: real, s1: real, h: real)
    requires s0 > 0.0 && s1 > 0.0 && h > 0.0 && w0 >= h && w1 >= h && w0 + w1 == 3.0 * h
    requires w0 / s0 + w1 / s1 != 0.0
    ensures 0.0 < (w0 + w1) / (w0 / s0 + w1 / s1) <= 3.0 * s0
    ensures (w0 + w1) / (w0 / s0 + w1 / s1) <= 3.0 * s1
  {
    var q0, q1 := w0 / s0, w1 / s1;
    assert q0 * s0 == w0 && q1 * s1 == w1;
    QuotientSign(w0, s0);
    QuotientSign(w1, s1);
    QuotientBound(w0 + w1, q0, q1, s0, h);
    QuotientBound(w0 + w1, q1, q0, s1, h);
  }

  lemma QuotientBound(w: real, q: real, other: real, s: real, h: real)
    requires w == 3.0 * h && q > 0.0 && other > 0.0 && s > 0.0 && h > 0.0 && q * s >= h
    ensures 0.0 < w / (q + other) <= 3.0 * s
  {
    var m := w / (q + other);
    assert m * (q + other) == w;
    QuotientSign(w, q + other);
    if m > 3.0 * s {
      Products(m, 3.0 * s, q);
      Positive(m, other);
    }
  }

  lemma Products(a: real, b: real, q: real)
    requires a > b && q > 0.0
    ensures a * q > b * q
  {
  }

  lemma Positive(a: real, b: real)
    requires a > 0.0 && b > 0.0
    ensures a * b > 0.0
  {
  }

  lemma HarmonicNegates(s0: real, s1: real, h0: real, h1: real)
    requires s0 < 0.0 && s1 < 0.0 && h0 > 0.0 && h1 > 0.0
    ensures s0 * s1 > 0.0 && -s0 * -s1 > 0.0
    ensures HarmonicMean(s0, s1, h0, h1) == -HarmonicMean(-s0, -s1, h0, h1)
  {
    Positive(-s0, -s1);
    HarmonicDefined(s0, s1, h0, h1);
    HarmonicDefined(-s0, -s1, h0, h1);
    var w0, w1 := 2.0 * h1 + h0, h1 + 2.0 * h0;
    Negated(w0, s0);
    Negated(w1, s1);
    NegatedBelow(w0 + w1, w0 / s0 + w1 / s1);
  }

  lemma Negated(a: real, b: real)
    requires b != 0.0
    ensures a / -b == -(a / b)
  {
    assert a / b * b == a;
    assert a / -b * -b == a;
  }

  lemma NegatedBelow(a: real, b: real)
    requires b != 0.0
    ensures a / b == -(a / -b)
  {
    Negated(a, b);
  }

  /** A tangent as a share of three times a slope it sits beside. */
  ghost predicate Share(m: real, s: real, a: real) {
    0.0 <= a <= 1.0 && m == 3.0 * a * s
  }

  lemma ShareOf(m: real, s: real) returns (a: real)
    requires (0.0 <= m <= 3.0 * s) || (3.0 * s <= m <= 0.0)
    ensures Share(m, s, a)
  {
    if s == 0.0 {
      a := 0.0;
    } else {
      a := m / (3.0 * s);
      assert a * (3.0 * s) == m;
      if a < 0.0 || a > 1.0 {
        ShareSign(a, 3.0 * s, m);
      }
      assert 3.0 * a * s == a * (3.0 * s);
    }
  }

  lemma ShareSign(a: real, d: real, m: real)
    requires d != 0.0 && a * d == m && ((0.0 <= m <= d) || (d <= m <= 0.0))
    ensures 0.0 <= a <= 1.0
  {
    if a < 0.0 {
      if d > 0.0 { Positive(-a, d); } else { Positive(-a, -d); }
    } else if a > 1.0 {
      if d > 0.0 { Positive(a - 1.0, d); } else { Positive(a - 1.0, -d); }
    }
  }

  /** A tangent is a share of three times the slope on either side of it. */
  lemma TangentShare(points: seq<Point>, i: nat, segment: nat) returns (a: real)
    requires Drawable(points) && i < |points| && segment + 1 < |points| && (segment == i || segment + 1 == i)
    ensures Share(Tangent(points, i), Secant(points, segment), a)
  {
    var m := Tangent(points, i);
    if 0 < i < |points| - 1 {
      var s0, s1 := Secant(points, i - 1), Secant(points, i);
      if s0 * s1 > 0.0 {
        var h0, h1 := points[i].speed - points[i - 1].speed, points[i + 1].speed - points[i].speed;
        SignsAgree(s0, s1);
        if s0 > 0.0 {
          HarmonicBound(s0, s1, h0, h1);
        } else {
          HarmonicNegates(s0, s1, h0, h1);
          HarmonicBound(-s0, -s1, h0, h1);
        }
        a := ShareOf(m, if segment == i then s1 else s0);
        return;
      }
    }
    a := 0.0;
  }

  // ----- one segment -----

  /** The cubic between two points, `t` of the way along, with slopes `m0` and `m1`. */
  function Hermite(y0: real, y1: real, m0: real, m1: real, h: real, t: real): real {
    var t2 := t * t;
    var t3 := t2 * t;
    (2.0 * t3 - 3.0 * t2 + 1.0) * y0 + (t3 - 2.0 * t2 + t) * h * m0
    + (-2.0 * t3 + 3.0 * t2) * y1 + (t3 - t2) * h * m1
  }

  /** The four cubics from 0 to 1 whose end slopes are 0 or 3. */
  function Flat(t: real): real { 3.0 * (t * t) - 2.0 * (t * t * t) }
  function Early(t: real): real { t * t * t - 3.0 * (t * t) + 3.0 * t }
  function Late(t: real): real { t * t * t }
  function Both(t: real): real { 4.0 * (t * t * t) - 6.0 * (t * t) + 3.0 * t }

  /** How much of the way from one end to the other the segment is, with its end slopes the
      shares `a` and `b` of three times the secant. */
  function Progress(a: real, b: real, t: real): real {
    Mean((1.0 - a) * (1.0 - b), a * (1.0 - b), (1.0 - a) * b, a * b, Flat(t), Early(t), Late(t), Both(t))
  }

  function Mean(w0: real, w1: real, w2: real, w3: real, x0: real, x1: real, x2: real, x3: real): real {
    w0 * x0 + w1 * x1 + w2 * x2 + w3 * x3
  }

  lemma MeanGrows(w0: real, w1: real, w2: real, w3: real, x0: real, x1: real, x2: real, x3: real,
                  y0: real, y1: real, y2: real, y3: real)
    requires w0 >= 0.0 && w1 >= 0.0 && w2 >= 0.0 && w3 >= 0.0
    requires x0 <= y0 && x1 <= y1 && x2 <= y2 && x3 <= y3
    ensures Mean(w0, w1, w2, w3, x0, x1, x2, x3) <= Mean(w0, w1, w2, w3, y0, y1, y2, y3)
  {
    Weighted(w0, x0, y0);
    Weighted(w1, x1, y1);
    Weighted(w2, x2, y2);
    Weighted(w3, x3, y3);
  }

  /** A part of the way from one value to another. */
  function Between(y0: real, y1: real, part: real): real {
    y0 + Scale(y1 - y0, part)
  }

  function Scale(d: real, part: real): real {
    d * part
  }

  /** The segment is a mean of the four cubics. */
  lemma HermiteIsProgress(y0: real, y1: real, m0: real, m1: real, h: real, s: real, a: real, b: real, t: real)
    requires y1 - y0 == h * s && Share(m0, s, a) && Share(m1, s, b)
    ensures Hermite(y0, y1, m0, m1, h, t) == Between(y0, y1, Progress(a, b, t))
  {
    var d := y1 - y0;
    assert h * m0 == 3.0 * a * d;
    assert h * m1 == 3.0 * b * d;
    var A, B := t * t * t - 2.0 * (t * t) + t, t * t * t - t * t;
    ProgressLinear(a, b, t);
    HermiteShares(y0, d, a, b, h, m0, m1, t);
    assert d * (Flat(t) + 3.0 * a * A + 3.0 * b * B) == d * Flat(t) + 3.0 * a * d * A + 3.0 * b * d * B;
  }

  lemma ProgressLinear(a: real, b: real, t: real)
    ensures Progress(a, b, t) == Flat(t) + 3.0 * a * (t * t * t - 2.0 * (t * t) + t) + 3.0 * b * (t * t * t - t * t)
  {
    var A, B := t * t * t - 2.0 * (t * t) + t, t * t * t - t * t;
    var f := Flat(t);
    assert Early(t) == f + 3.0 * A && Late(t) == f + 3.0 * B && Both(t) == f + 3.0 * A + 3.0 * B;
    Bilinear(a, b, f, 3.0 * A, 3.0 * B);
  }

  lemma Bilinear(a: real, b: real, f: real, x: real, y: real)
    ensures (1.0 - a) * (1.0 - b) * f + a * (1.0 - b) * (f + x) + (1.0 - a) * b * (f + y) + a * b * (f + x + y)
         == f + a * x + b * y
  {
  }

  lemma HermiteShares(y0: real, d: real, a: real, b: real, h: real, m0: real, m1: real, t: real)
    requires h * m0 == 3.0 * a * d && h * m1 == 3.0 * b * d
    ensures Hermite(y0, y0 + d, m0, m1, h, t)
         == y0 + d * Flat(t) + 3.0 * a * d * (t * t * t - 2.0 * (t * t) + t) + 3.0 * b * d * (t * t * t - t * t)
  {
    var A, B := t * t * t - 2.0 * (t * t) + t, t * t * t - t * t;
    assert A * h * m0 == A * (h * m0);
    assert B * h * m1 == B * (h * m1);
  }

  lemma CubeGrows(v: real, w: real)
    requires v <= w
    ensures v * v * v <= w * w * w
  {
    var square := w * w + w * v + v * v;
    Square(w + v);
    Square(w);
    Square(v);
    assert 2.0 * square == (w + v) * (w + v) + w * w + v * v;
    Grows(w - v, square);
    assert (w - v) * square == w * w * w - v * v * v;
  }

  lemma Square(a: real)
    ensures a * a >= 0.0
  {
  }

  lemma Grows(a: real, b: real)
    requires a >= 0.0 && b >= 0.0
    ensures a * b >= 0.0
  {
  }

  lemma FlatGrows(t: real, u: real)
    requires 0.0 <= t <= u <= 1.0
    ensures Flat(t) <= Flat(u)
  {
    Grows(t, 1.0 - t);
    Grows(u, 1.0 - u);
    Grows(t, 1.0 - u);
    Grows(u, 1.0 - t);
    var slope := 3.0 * (u + t) - 2.0 * (u * u + u * t + t * t);
    assert slope == 2.0 * (t * (1.0 - t)) + 2.0 * (u * (1.0 - u)) + t * (1.0 - u) + u * (1.0 - t);
    Grows(u - t, slope);
    assert (u - t) * slope == Flat(u) - Flat(t);
  }

  lemma CubicsGrow(t: real, u: real)
    requires 0.0 <= t <= u <= 1.0
    ensures Flat(t) <= Flat(u) && Early(t) <= Early(u) && Late(t) <= Late(u) && Both(t) <= Both(u)
  {
    FlatGrows(t, u);
    CubeGrows(t, u);
    CubeGrows(1.0 - u, 1.0 - t);
    assert Early(t) == 1.0 - (1.0 - t) * (1.0 - t) * (1.0 - t);
    assert Early(u) == 1.0 - (1.0 - u) * (1.0 - u) * (1.0 - u);
    CubeGrows(2.0 * t - 1.0, 2.0 * u - 1.0);
    BothIsCube(t);
    BothIsCube(u);
  }

  lemma BothIsCube(t: real)
    ensures 2.0 * Both(t) == (2.0 * t - 1.0) * (2.0 * t - 1.0) * (2.0 * t - 1.0) + 1.0
  {
  }

  lemma ProgressGrows(a: real, b: real, t: real, u: real)
    requires 0.0 <= a <= 1.0 && 0.0 <= b <= 1.0 && 0.0 <= t <= u <= 1.0
    ensures 0.0 <= Progress(a, b, t) <= Progress(a, b, u) <= 1.0
    ensures Progress(a, b, 0.0) == 0.0 && Progress(a, b, 1.0) == 1.0
  {
    ProgressStep(a, b, 0.0, t);
    ProgressStep(a, b, t, u);
    ProgressStep(a, b, u, 1.0);
    assert (1.0 - a) * (1.0 - b) + a * (1.0 - b) + (1.0 - a) * b + a * b == 1.0;
  }

  lemma ProgressStep(a: real, b: real, t: real, u: real)
    requires 0.0 <= a <= 1.0 && 0.0 <= b <= 1.0 && 0.0 <= t <= u <= 1.0
    ensures Progress(a, b, t) <= Progress(a, b, u)
  {
    hide Flat, Early, Late, Both, Mean;
    CubicsGrow(t, u);
    Grows(1.0 - a, 1.0 - b);
    Grows(a, 1.0 - b);
    Grows(1.0 - a, b);
    Grows(a, b);
    MeanGrows((1.0 - a) * (1.0 - b), a * (1.0 - b), (1.0 - a) * b, a * b,
              Flat(t), Early(t), Late(t), Both(t), Flat(u), Early(u), Late(u), Both(u));
  }

  lemma Weighted(w: real, x: real, y: real)
    requires w >= 0.0 && x <= y
    ensures w * x <= w * y
  {
  }

  // ----- the whole curve -----

  /** The segment a speed inside the points falls in, looked for from segment `i` on. */
  function SegmentFrom(points: seq<Point>, speed: real, i: nat): (k: nat)
    requires Drawable(points) && i + 1 < |points| && points[i].speed <= speed < points[|points| - 1].speed
    ensures i <= k && k + 1 < |points| && points[k].speed <= speed < points[k + 1].speed
    decreases |points| - i
  {
    if speed < points[i + 1].speed then i else SegmentFrom(points, speed, i + 1)
  }

  /** The value of segment `k` at a speed. */
  function SegmentValue(points: seq<Point>, k: nat, speed: real): real
    requires Drawable(points) && k + 1 < |points|
  {
    Hermite(points[k].percent, points[k + 1].percent, Tangent(points, k), Tangent(points, k + 1),
            points[k + 1].speed - points[k].speed, Portion(points, k, speed))
  }

  /** How much of the way from point `k` to the next a speed is. */
  function Portion(points: seq<Point>, k: nat, speed: real): real
    requires Drawable(points) && k + 1 < |points|
  {
    (speed - points[k].speed) / (points[k + 1].speed - points[k].speed)
  }

  /** The curve: the segment a speed falls in, or the nearer end point's percent outside all of them. */
  function Sensitivity(points: seq<Point>, speed: real): real
    requires Drawable(points)
  {
    var last := |points| - 1;
    if speed <= points[0].speed then points[0].percent
    else if speed >= points[last].speed then points[last].percent
    else SegmentValue(points, SegmentFrom(points, speed, 0), speed)
  }

  lemma SegmentShares(points: seq<Point>, k: nat) returns (a: real, b: real)
    requires Drawable(points) && k + 1 < |points|
    ensures Share(Tangent(points, k), Secant(points, k), a) && Share(Tangent(points, k + 1), Secant(points, k), b)
    ensures 0.0 <= a <= 1.0 && 0.0 <= b <= 1.0
  {
    a := TangentShare(points, k, k);
    b := TangentShare(points, k + 1, k);
  }

  lemma SecantRise(points: seq<Point>, k: nat)
    requires Drawable(points) && k + 1 < |points|
    ensures points[k + 1].percent - points[k].percent == (points[k + 1].speed - points[k].speed) * Secant(points, k)
  {
    TimesQuotient(points[k + 1].percent - points[k].percent, points[k + 1].speed - points[k].speed);
  }

  lemma TimesQuotient(a: real, b: real)
    requires b != 0.0
    ensures a == b * (a / b)
  {
  }

  lemma SegmentProgress(points: seq<Point>, k: nat, a: real, b: real, speed: real)
    requires Drawable(points) && k + 1 < |points|
    requires Share(Tangent(points, k), Secant(points, k), a) && Share(Tangent(points, k + 1), Secant(points, k), b)
    ensures SegmentValue(points, k, speed)
         == Between(points[k].percent, points[k + 1].percent, Progress(a, b, Portion(points, k, speed)))
  {
    hide Progress, Hermite, Tangent, Share, Secant, Portion, Between;
    var h, s := points[k + 1].speed - points[k].speed, Secant(points, k);
    SecantRise(points, k);
    HermiteIsProgress(points[k].percent, points[k + 1].percent, Tangent(points, k), Tangent(points, k + 1), h, s, a, b,
                      Portion(points, k, speed));
  }

  lemma PortionGrows(points: seq<Point>, k: nat, v: real, w: real)
    requires Drawable(points) && k + 1 < |points| && points[k].speed <= v <= w <= points[k + 1].speed
    ensures 0.0 <= Portion(points, k, v) <= Portion(points, k, w) <= 1.0 && Portion(points, k, points[k].speed) == 0.0
  {
    var h := points[k + 1].speed - points[k].speed;
    Within(v - points[k].speed, h);
    Within(w - points[k].speed, h);
    Ordered(v - points[k].speed, w - points[k].speed, h);
    Within(0.0, h);
  }

  /** Inside a segment the value goes from one end's percent to the other's, never back. */
  lemma SegmentMonotone(points: seq<Point>, k: nat, v: real, w: real)
    requires Drawable(points) && k + 1 < |points| && points[k].speed <= v <= w <= points[k + 1].speed
    ensures SegmentValue(points, k, points[k].speed) == points[k].percent
    ensures points[k].percent <= points[k + 1].percent ==>
              points[k].percent <= SegmentValue(points, k, v) <= SegmentValue(points, k, w) <= points[k + 1].percent
    ensures points[k].percent >= points[k + 1].percent ==>
              points[k].percent >= SegmentValue(points, k, v) >= SegmentValue(points, k, w) >= points[k + 1].percent
  {
    hide Progress, SegmentValue, Tangent, Share, Secant, Portion, Between;
    var start := points[k].speed;
    PortionGrows(points, k, v, w);
    var a, b := SegmentShares(points, k);
    SegmentProgress(points, k, a, b, v);
    SegmentProgress(points, k, a, b, w);
    SegmentProgress(points, k, a, b, start);
    ProgressGrows(a, b, Portion(points, k, v), Portion(points, k, w));
    Along(points[k].percent, points[k + 1].percent, Progress(a, b, Portion(points, k, v)), Progress(a, b, Portion(points, k, w)));
    Along(points[k].percent, points[k + 1].percent, 0.0, 0.0);
  }

  lemma Within(x: real, h: real)
    requires 0.0 <= x <= h && h > 0.0
    ensures 0.0 <= x / h <= 1.0
    ensures x == 0.0 ==> x / h == 0.0
  {
  }

  lemma Ordered(x: real, y: real, h: real)
    requires x <= y && h > 0.0
    ensures x / h <= y / h
  {
  }

  lemma Along(y0: real, y1: real, x: real, y: real)
    requires 0.0 <= x <= y <= 1.0
    ensures y0 <= y1 ==> y0 <= Between(y0, y1, x) <= Between(y0, y1, y) <= y1
    ensures y0 >= y1 ==> y0 >= Between(y0, y1, x) >= Between(y0, y1, y) >= y1
    ensures Between(y0, y1, 0.0) == y0
  {
    hide Scale;
    Scaled(y1 - y0, x, y);
  }

  lemma Scaled(d: real, x: real, y: real)
    requires 0.0 <= x <= y <= 1.0
    ensures d >= 0.0 ==> 0.0 <= Scale(d, x) <= Scale(d, y) <= d
    ensures d <= 0.0 ==> 0.0 >= Scale(d, x) >= Scale(d, y) >= d
    ensures Scale(d, 0.0) == 0.0
  {
  }

  /** The curve passes through its points. */
  lemma ThroughPoints(points: seq<Point>, k: nat)
    requires Drawable(points) && k < |points|
    ensures Sensitivity(points, points[k].speed) == points[k].percent
  {
    if 0 < k < |points| - 1 {
      var i := SegmentFrom(points, points[k].speed, 0);
      assert i == k;
      SegmentMonotone(points, k, points[k].speed, points[k].speed);
    }
  }

  /** No overshoot: whatever bounds the points' percents bounds the curve, at every speed. */
  lemma NoOvershoot(points: seq<Point>, speed: real, low: real, high: real)
    requires Drawable(points) && forall i | 0 <= i < |points| :: low <= points[i].percent <= high
    ensures low <= Sensitivity(points, speed) <= high
  {
    if points[0].speed < speed < points[|points| - 1].speed {
      hide SegmentValue;
      var k := SegmentFrom(points, speed, 0);
      SegmentMonotone(points, k, speed, speed);
    }
  }

  ghost predicate Rising(points: seq<Point>) {
    forall i, j | 0 <= i <= j < |points| :: points[i].percent <= points[j].percent
  }

  /** Between points `SegmentAt` and the next, the curve of rising points stays between them. */
  lemma Bracketed(points: seq<Point>, speed: real) returns (k: nat)
    requires Drawable(points) && Rising(points) && points[0].speed < speed < points[|points| - 1].speed
    ensures k + 1 < |points| && points[k].speed <= speed < points[k + 1].speed
    ensures Sensitivity(points, speed) == SegmentValue(points, k, speed)
    ensures points[k].percent <= Sensitivity(points, speed) <= points[k + 1].percent
  {
    k := SegmentFrom(points, speed, 0);
    SegmentMonotone(points, k, speed, speed);
  }

  lemma RisingCurve(points: seq<Point>, v: real, w: real)
    requires Drawable(points) && Rising(points) && v <= w
    ensures Sensitivity(points, v) <= Sensitivity(points, w)
  {
    hide SegmentValue;
    var first, last := points[0], points[|points| - 1];
    NoOvershoot(points, v, first.percent, last.percent);
    NoOvershoot(points, w, first.percent, last.percent);
    if first.speed < v && w < last.speed {
      var i := Bracketed(points, v);
      var j := Bracketed(points, w);
      if i == j {
        SegmentMonotone(points, i, v, w);
      } else {
        assert i < j;
      }
    }
  }

  /** The curve rises everywhere exactly when its points do. */
  lemma RisesIffPointsDo(points: seq<Point>)
    requires Drawable(points)
    ensures Rising(points) <==> forall v, w | v <= w :: Sensitivity(points, v) <= Sensitivity(points, w)
  {
    hide Sensitivity;
    if Rising(points) {
      forall v, w | v <= w ensures Sensitivity(points, v) <= Sensitivity(points, w) {
        RisingCurve(points, v, w);
      }
    } else {
      var i, j :| 0 <= i <= j < |points| && points[i].percent > points[j].percent;
      ThroughPoints(points, i);
      ThroughPoints(points, j);
      assert points[i].speed <= points[j].speed;
    }
  }

  /** Cursor speed never falls as ball speed grows, when the points rise from a percent of at
      least zero. */
  lemma CursorSpeedRises(points: seq<Point>, v: real, w: real)
    requires Drawable(points) && Rising(points) && points[0].percent >= 0.0 && 0.0 <= v <= w
    ensures v * Sensitivity(points, v) <= w * Sensitivity(points, w)
  {
    hide Sensitivity;
    RisingCurve(points, v, w);
    NoOvershoot(points, v, points[0].percent, points[|points| - 1].percent);
    ProductRises(v, w, Sensitivity(points, v), Sensitivity(points, w));
  }

  lemma ProductRises(v: real, w: real, x: real, y: real)
    requires 0.0 <= v <= w && 0.0 <= x <= y
    ensures v * x <= w * y
  {
  }

  // ----- which mean, and which cubic -----

  /** The mean's reciprocal is that of the slopes' reciprocals, the slope over the shorter step
      counting more: two thirds for a step that is nothing beside the other. */
  lemma HarmonicWeights(s0: real, s1: real, h0: real, h1: real)
    requires s0 * s1 > 0.0 && h0 > 0.0 && h1 > 0.0
    ensures HarmonicMean(s0, s1, h0, h1) * ((h0 + 2.0 * h1) * s1 + (2.0 * h0 + h1) * s0) == 3.0 * (h0 + h1) * (s0 * s1)
  {
    HarmonicDefined(s0, s1, h0, h1);
    var w0, w1 := 2.0 * h1 + h0, h1 + 2.0 * h0;
    var q0, q1 := w0 / s0, w1 / s1;
    assert q0 * s0 == w0 && q1 * s1 == w1;
    var mean := HarmonicMean(s0, s1, h0, h1);
    assert mean * (q0 + q1) == w0 + w1;
    CrossMultiplied(mean, q0, q1, s0, s1, w0, w1);
  }

  lemma CrossMultiplied(mean: real, q0: real, q1: real, s0: real, s1: real, w0: real, w1: real)
    requires q0 * s0 == w0 && q1 * s1 == w1 && mean * (q0 + q1) == w0 + w1
    ensures mean * (w0 * s1 + w1 * s0) == (w0 + w1) * (s0 * s1)
  {
    assert w0 * s1 == q0 * (s0 * s1);
    assert w1 * s0 == q1 * (s0 * s1);
    Factored(mean, q0, q1, s0 * s1);
  }

  lemma Factored(m: real, q0: real, q1: real, p: real)
    ensures m * (q0 * p + q1 * p) == m * (q0 + q1) * p
  {
  }

  /** Slopes that are equal have that mean. */
  lemma MeanOfEqual(s: real, h0: real, h1: real)
    requires s != 0.0 && h0 > 0.0 && h1 > 0.0
    ensures s * s > 0.0 && HarmonicMean(s, s, h0, h1) == s
  {
    SameSign(s, s);
    HarmonicWeights(s, s, h0, h1);
    var mean, w := HarmonicMean(s, s, h0, h1), 3.0 * (h0 + h1);
    assert mean * ((h0 + 2.0 * h1) * s + (2.0 * h0 + h1) * s) == mean * (w * s);
    Cancelled(mean, s, w);
  }

  lemma Cancelled(m: real, s: real, w: real)
    requires s != 0.0 && w > 0.0 && m * (w * s) == w * (s * s)
    ensures m == s
  {
    var p := w * s;
    assert (m - s) * p == 0.0;
    assert p != 0.0;
  }

  /** A segment leaves its first point with the slope there and meets the next with that one's:
      what is left is of second order in the distance. */
  lemma EndSlopes(y0: real, y1: real, m0: real, m1: real, h: real, t: real)
    ensures Hermite(y0, y1, m0, m1, h, t) - (y0 + m0 * (t * h))
         == t * t * ((3.0 - 2.0 * t) * (y1 - y0) + (t - 2.0) * (m0 * h) + (t - 1.0) * (m1 * h))
    ensures Hermite(y0, y1, m0, m1, h, t) - (y1 + m1 * ((t - 1.0) * h))
         == (t - 1.0) * (t - 1.0) * ((1.0 + 2.0 * t) * (y0 - y1) + t * (m0 * h) + (t + 1.0) * (m1 * h))
  {
  }

  /** Through points in a line the curve is that line, between all but the first and the last two. */
  lemma StraightStays(points: seq<Point>, k: nat, speed: real)
    requires Drawable(points) && 0 < k && k + 2 < |points| && points[k].speed <= speed < points[k + 1].speed
    requires Secant(points, k - 1) == Secant(points, k) == Secant(points, k + 1)
    ensures Sensitivity(points, speed) == points[k].percent + Secant(points, k) * (speed - points[k].speed)
  {
    hide Hermite, HarmonicMean, Secant, Tangent, Sensitivity;
    var s, h, along := Secant(points, k), points[k + 1].speed - points[k].speed, speed - points[k].speed;
    StraightTangent(points, k);
    StraightTangent(points, k + 1);
    SecantRise(points, k);
    InSegment(points, k, speed);
    StraightLine(points[k].percent, points[k + 1].percent, s, h, along / h);
    TimesQuotient(along, h);
  }

  lemma InSegment(points: seq<Point>, k: nat, speed: real)
    requires Drawable(points) && 0 < k && k + 1 < |points| && points[k].speed <= speed < points[k + 1].speed
    ensures Sensitivity(points, speed) == SegmentValue(points, k, speed)
  {
    hide SegmentValue;
    SegmentFound(points, speed, k, 0);
  }

  lemma StraightTangent(points: seq<Point>, i: nat)
    requires Drawable(points) && 0 < i < |points| - 1 && Secant(points, i - 1) == Secant(points, i)
    ensures Tangent(points, i) == Secant(points, i)
  {
    hide HarmonicMean, Secant;
    if Secant(points, i) != 0.0 {
      MeanOfEqual(Secant(points, i), points[i].speed - points[i - 1].speed, points[i + 1].speed - points[i].speed);
    }
  }

  lemma {:induction false} SegmentFound(points: seq<Point>, speed: real, k: nat, i: nat)
    requires Drawable(points) && i <= k && k + 1 < |points| && points[k].speed <= speed < points[k + 1].speed
    ensures SegmentFrom(points, speed, i) == k
    decreases k - i
  {
    if i < k {
      SegmentFound(points, speed, k, i + 1);
    }
  }

  lemma StraightLine(y0: real, y1: real, s: real, h: real, t: real)
    requires s * h == y1 - y0
    ensures Hermite(y0, y1, s, s, h, t) == y0 + s * (t * h)
  {
    EndSlopes(y0, y1, s, s, h, t);
    var d := y1 - y0;
    assert (3.0 - 2.0 * t) * d + (t - 2.0) * d + (t - 1.0) * d == 0.0;
  }

  // ----- as the code computes it -----

  method Tangents(points: seq<Point>) returns (result: array<real>)
    requires Drawable(points)
    ensures result.Length == |points| && forall i | 0 <= i < |points| :: result[i] == Tangent(points, i)
  {
    result := new real[|points|](_ => 0.0);
    var i := 1;
    while i < |points| - 1
      invariant 1 <= i && (|points| > 1 ==> i <= |points| - 1)
      invariant forall k | 0 <= k < i && k < |points| :: result[k] == Tangent(points, k)
      invariant forall k | i <= k < |points| :: result[k] == 0.0
    {
      var h0, h1 := points[i].speed - points[i - 1].speed, points[i + 1].speed - points[i].speed;
      var s0, s1 := (points[i].percent - points[i - 1].percent) / h0, (points[i + 1].percent - points[i].percent) / h1;
      if s0 * s1 > 0.0 {
        result[i] := HarmonicMean(s0, s1, h0, h1);
      }
      i := i + 1;
    }
  }

  method Evaluate(points: seq<Point>, speed: real) returns (percent: real)
    requires Drawable(points)
    ensures percent == Sensitivity(points, speed)
  {
    var m := Tangents(points);
    var last := |points| - 1;
    if speed <= points[0].speed { return points[0].percent; }
    if speed >= points[last].speed { return points[last].percent; }
    var i: nat := 0;
    while speed >= points[i + 1].speed
      invariant i + 1 < |points| && points[i].speed <= speed
      invariant SegmentFrom(points, speed, i) == SegmentFrom(points, speed, 0)
      decreases |points| - i
    {
      i := i + 1;
    }
    var h := points[i + 1].speed - points[i].speed;
    return Hermite(points[i].percent, points[i + 1].percent, m[i], m[i + 1], h, (speed - points[i].speed) / h);
  }

  // ----- the benchmark's own copy -----

  function Sign(x: real): int {
    if x > 0.0 then 1 else if x < 0.0 then -1 else 0
  }

  /** curvePercent's tangent. */
  function BenchmarkTangent(points: seq<Point>, i: nat): real
    requires Drawable(points) && i < |points|
  {
    if i == 0 || i == |points| - 1 then 0.0
    else
      var h0, h1 := points[i].speed - points[i - 1].speed, points[i + 1].speed - points[i].speed;
      var d0, d1 := Secant(points, i - 1), Secant(points, i);
      if d0 == 0.0 || d1 == 0.0 || Sign(d0) != Sign(d1) then 0.0
      else
        SameSign(d0, d1);
        HarmonicMean(d0, d1, h0, h1)
  }

  lemma SameSign(x: real, y: real)
    ensures x * y > 0.0 <==> x != 0.0 && y != 0.0 && Sign(x) == Sign(y)
  {
    if x > 0.0 && y > 0.0 { Positive(x, y); }
    if x < 0.0 && y < 0.0 { Positive(-x, -y); }
    if x > 0.0 && y < 0.0 { Positive(x, -y); }
    if x < 0.0 && y > 0.0 { Positive(-x, y); }
  }

  /** curvePercent. */
  function BenchmarkPercent(points: seq<Point>, speed: real): real
    requires Drawable(points)
  {
    var n := |points|;
    if speed <= points[0].speed then points[0].percent
    else if speed >= points[n - 1].speed then points[n - 1].percent
    else
      var i := SegmentFrom(points, speed, 0);
      var h := points[i + 1].speed - points[i].speed;
      var t := (speed - points[i].speed) / h;
      points[i].percent * (2.0 * (t * t * t) - 3.0 * (t * t) + 1.0)
      + BenchmarkTangent(points, i) * h * (t * t * t - 2.0 * (t * t) + t)
      + points[i + 1].percent * (-2.0 * (t * t * t) + 3.0 * (t * t))
      + BenchmarkTangent(points, i + 1) * h * (t * t * t - t * t)
  }

  /** The benchmark judges by the curve the tuner draws. */
  lemma BenchmarkAgrees(points: seq<Point>, speed: real)
    requires Drawable(points)
    ensures BenchmarkPercent(points, speed) == Sensitivity(points, speed)
  {
    hide Tangent, BenchmarkTangent, Hermite, SegmentFrom;
    if points[0].speed < speed < points[|points| - 1].speed {
      var i := SegmentFrom(points, speed, 0);
      TangentsAgree(points, i);
      TangentsAgree(points, i + 1);
      var h := points[i + 1].speed - points[i].speed;
      Rearranged(points[i].percent, points[i + 1].percent, Tangent(points, i), Tangent(points, i + 1), h,
                 (speed - points[i].speed) / h);
    }
  }

  lemma Rearranged(y0: real, y1: real, m0: real, m1: real, h: real, t: real)
    ensures Hermite(y0, y1, m0, m1, h, t)
         == y0 * (2.0 * (t * t * t) - 3.0 * (t * t) + 1.0) + m0 * h * (t * t * t - 2.0 * (t * t) + t)
            + y1 * (-2.0 * (t * t * t) + 3.0 * (t * t)) + m1 * h * (t * t * t - t * t)
  {
  }

  lemma TangentsAgree(points: seq<Point>, i: nat)
    requires Drawable(points) && i < |points|
    ensures BenchmarkTangent(points, i) == Tangent(points, i)
  {
    if 0 < i < |points| - 1 {
      SameSign(Secant(points, i - 1), Secant(points, i));
    }
  }
}
