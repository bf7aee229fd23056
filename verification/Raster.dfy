/** Integer lines and discs (GUI/Algo/algo.c). */
module Raster {
  import opened Words

  datatype Point = Point(x: int, y: int)

  /** Values of a C `int`; every result the code computes is shown to be one. */
  predicate Int32(v: int) { -0x8000_0000 <= v < 0x8000_0000 }

  function Abs(v: int): nat { if v < 0 then -v else v }
  function Sign(v: int): int { if v < 0 then -1 else 1 }

  /** `n * minor / major` to the nearest integer. */
  function Nearest(major: nat, minor: nat, n: nat): (j: int)
    requires major > 0
  {
    (n * minor + (major - 1) - major / 2) / major
  }

  lemma {:induction false} DivUnique(v: int, d: nat, q: int)
    requires d > 0 && q * d <= v < q * d + d
    ensures v / d == q
  {
    var e := v / d;
    assert e * d <= v < e * d + d;
    if e < q { Scaled(e + 1, q, d); } else if e > q { Scaled(q + 1, e, d); }
  }

  lemma {:induction false} Scaled(a: int, b: int, d: nat)
    requires a <= b
    ensures a * d <= b * d
  {
  }

  /** An error term kept within one major step pins the minor coordinate to the nearest. */
  lemma {:induction false} ErrorPins(major: nat, minor: nat, n: nat, j: int)
    requires major > 0 && 0 <= major / 2 - n * minor + j * major < major
    ensures j == Nearest(major, minor, n)
  {
    DivUnique(n * minor + (major - 1) - major / 2, major, j);
  }

  /** Within half a pixel of the ideal line. */
  lemma {:induction false} HalfPixel(major: nat, minor: nat, n: nat)
    requires major > 0
    ensures 2 * Abs(Nearest(major, minor, n) * major - n * minor) <= major
  {
    var v, j := n * minor + (major - 1) - major / 2, Nearest(major, minor, n);
    assert j * major <= v < j * major + major;
  }

  lemma {:induction false} NearestEnds(major: nat, minor: nat)
    requires major > 0
    ensures Nearest(major, minor, 0) == 0 && Nearest(major, minor, major) == minor
  {
    DivUnique(major * minor + (major - 1) - major / 2, major, minor);
    DivUnique((major - 1) - major / 2, major, 0);
  }

  /** The point after `n` steps of the longer axis. */
  function LinePoint(from: Point, to: Point, n: nat): Point
    requires from != to
  {
    var dx, dy := to.x - from.x, to.y - from.y;
    var a, b := Abs(dx), Abs(dy);
    if a > b then Point(from.x + Sign(dx) * n, from.y + Sign(dy) * Nearest(a, b, n))
    else Point(from.x + Sign(dx) * Nearest(b, a, n), from.y + Sign(dy) * n)
  }

  function Steps(from: Point, to: Point): nat {
    var a, b := Abs(to.x - from.x), Abs(to.y - from.y);
    if a > b then a else b
  }

  /** The first `n` points of the line. */
  function LinePrefix(from: Point, to: Point, n: nat): (s: seq<Point>)
    ensures |s| == n
  {
    if from == to then seq(n, _ => from) else seq(n, (k: nat) => LinePoint(from, to, k))
  }

  /** The state after `n` rounds that moved `i` times along x and `j` times along y. */
  ghost predicate OnTrack(a: nat, b: nat, i: int, j: int, n: nat, err: int) {
    && err == (if a > b then a / 2 else -(b / 2)) - i * b + j * a
    && if a > b then i == n && 0 <= err < a else j == n && 0 < err + b && err <= 0
  }

  lemma {:induction false} TrackStart(a: nat, b: nat, err: int)
    requires err == if a > b then a / 2 else -(b / 2)
    ensures a != 0 || b != 0 ==> OnTrack(a, b, 0, 0, 0, err)
  {
  }

  lemma {:induction false} TrackStep(a: nat, b: nat, i: int, j: int, n: nat, err: int)
    requires OnTrack(a, b, i, j, n, err)
    ensures 0 < err + a && err < b ==> OnTrack(a, b, i + 1, j + 1, n + 1, err - b + a)
    ensures 0 < err + a && err >= b ==> OnTrack(a, b, i + 1, j, n + 1, err - b)
    ensures 0 >= err + a && err < b ==> OnTrack(a, b, i, j + 1, n + 1, err + a)
    ensures 0 < err + a || err < b
  {
    assert (i + 1) * b == i * b + b && (j + 1) * a == j * a + a;
  }

  lemma {:induction false} MinorInside(major: nat, minor: nat, n: nat, j: int)
    requires n <= major && 0 <= major / 2 - n * minor + j * major < major
    ensures 0 <= j <= minor
  {
    Scaled(n, major, minor);
    assert major * minor == minor * major;
    assert (minor + 1) * major == minor * major + major;
    if j > minor {
      Scaled(minor + 1, j, major);
    } else if j < 0 {
      Scaled(j, -1, major);
    }
  }

  lemma {:induction false} TrackInside(a: nat, b: nat, i: int, j: int, n: nat, err: int)
    requires OnTrack(a, b, i, j, n, err) && n <= if a > b then a else b
    ensures 0 <= i <= a && 0 <= j <= b
  {
    if a > b { MinorInside(a, b, n, j); } else { MinorInside(b, a, n, i); }
  }

  /** Every value of the error term, before and after each of its two updates, is an `int`. */
  lemma {:induction false} ErrorFits(a: nat, b: nat, i: int, j: int, n: nat, err: int)
    requires OnTrack(a, b, i, j, n, err) && a < 0x8000_0000 && b < 0x8000_0000
    requires a > b || a + b <= 0x8000_0001
    ensures Int32(err)
    ensures 0 < err + a ==> Int32(err - b) && (err < b ==> Int32(err - b + a))
    ensures 0 >= err + a ==> Int32(err + a)
  {
  }

  lemma {:induction false} Moved(d: int, i: int)
    ensures Sign(d) * (i + 1) == Sign(d) * i + Sign(d)
  {
  }

  lemma {:induction false} TrackPins(a: nat, b: nat, i: int, j: int, n: nat, err: int)
    requires OnTrack(a, b, i, j, n, err)
    ensures if a > b then i == n && j == Nearest(a, b, n) else j == n && i == Nearest(b, a, n)
  {
    if a > b {
      ErrorPins(a, b, n, j);
    } else {
      ErrorPins(b, a, n, i);
    }
  }

  lemma {:induction false} TrackPoint(from: Point, to: Point, i: int, j: int, n: nat, err: int)
    requires from != to && OnTrack(Abs(to.x - from.x), Abs(to.y - from.y), i, j, n, err)
    ensures Point(from.x + Sign(to.x - from.x) * i, from.y + Sign(to.y - from.y) * j) == LinePoint(from, to, n)
  {
    hide Nearest, OnTrack;
    TrackPins(Abs(to.x - from.x), Abs(to.y - from.y), i, j, n, err);
  }

  /** The line arrives exactly after the steps of its longer axis. */
  lemma {:induction false} ArrivesExactly(from: Point, to: Point, n: nat)
    requires from != to && n <= Steps(from, to)
    ensures LinePoint(from, to, n) == to <==> n == Steps(from, to)
  {
    hide Nearest;
    var a, b := Abs(to.x - from.x), Abs(to.y - from.y);
    NearestEnds(Steps(from, to), if a > b then b else a);
  }

  /** How far off the ideal line through `from` and `to` a point is, times the line's extent. */
  function Cross(from: Point, to: Point, p: Point): int {
    (to.x - from.x) * (p.y - from.y) - (to.y - from.y) * (p.x - from.x)
  }

  lemma {:induction false} CrossSigned(a: nat, b: nat, dx: int, dy: int, n: int, j: int)
    requires Abs(dx) == a && Abs(dy) == b
    ensures Abs(dx * (Sign(dy) * j) - dy * (Sign(dx) * n)) == Abs(j * a - n * b)
  {
    SignedProduct(dx, dy, j);
    SignedProduct(dy, dx, n);
    hide Sign;
    SignsMultiply(dx, dy, j * a - n * b);
  }

  /** `d * (s * j)` for the sign `s` of another number. */
  lemma {:induction false} SignedProduct(d: int, e: int, j: int)
    ensures d * (Sign(e) * j) == if (d < 0) == (e < 0) then j * Abs(d) else -(j * Abs(d))
  {
    assert d * j == j * d;
    assert d < 0 ==> j * Abs(d) == -(j * d);
  }

  lemma {:induction false} SignsMultiply(dx: int, dy: int, v: int)
    ensures Abs(if (dx < 0) == (dy < 0) then v else -v) == Abs(v)
  {
  }

  /** What `fb_line` draws: from one end to the other in as many steps as the longer axis is
      long, each point within half a pixel of the ideal line along the shorter axis. */
  lemma {:induction false} LineExact(from: Point, to: Point, n: nat)
    requires n <= Steps(from, to)
    ensures var line, m := LinePrefix(from, to, Steps(from, to) + 1), Steps(from, to);
      && line[0] == from && (line[n] == to <==> n == m)
      && 2 * Abs(Cross(from, to, line[n])) <= m
  {
    if from != to {
      hide LinePoint, Cross;
      ArrivesExactly(from, to, n);
      LineStarts(from, to);
      PointNear(from, to, n);
    }
  }

  lemma {:induction false} LineStarts(from: Point, to: Point)
    requires from != to
    ensures LinePoint(from, to, 0) == from
  {
    hide Nearest;
    var a, b := Abs(to.x - from.x), Abs(to.y - from.y);
    if a > b { NearestEnds(a, b); } else { NearestEnds(b, a); }
  }

  lemma {:induction false} PointNear(from: Point, to: Point, n: nat)
    requires from != to
    ensures 2 * Abs(Cross(from, to, LinePoint(from, to, n))) <= Steps(from, to)
  {
    hide Nearest, Sign;
    var dx, dy := to.x - from.x, to.y - from.y;
    var a, b := Abs(dx), Abs(dy);
    if a > b {
      HalfPixel(a, b, n);
      CrossSigned(a, b, dx, dy, n, Nearest(a, b, n));
    } else {
      HalfPixel(b, a, n);
      CrossSigned(a, b, dx, dy, Nearest(b, a, n), n);
    }
  }

  lemma {:induction false} Between(v0: int, v1: int, i: int)
    requires Int32(v0) && Int32(v1) && 0 <= i <= Abs(v1 - v0)
    ensures Int32(v0 + Sign(v1 - v0) * i)
  {
  }

  lemma {:induction false} PointFits(from: Point, to: Point, i: int, j: int, n: nat, err: int)
    requires Int32(from.x) && Int32(from.y) && Int32(to.x) && Int32(to.y)
    requires OnTrack(Abs(to.x - from.x), Abs(to.y - from.y), i, j, n, err) && n <= Steps(from, to)
    ensures Int32(from.x + Sign(to.x - from.x) * i) && Int32(from.y + Sign(to.y - from.y) * j)
  {
    hide Sign, OnTrack;
    TrackInside(Abs(to.x - from.x), Abs(to.y - from.y), i, j, n, err);
    Between(from.x, to.x, i);
    Between(from.y, to.y, j);
  }

  lemma {:induction false} PrefixGrows(from: Point, to: Point, n: nat)
    ensures LinePrefix(from, to, n + 1)
         == LinePrefix(from, to, n) + [if from == to then from else LinePoint(from, to, n)]
  {
  }

  // ----- discs

  predicate InDisc(cx: int, cy: int, r: int, p: Point) {
    r >= 0 && (p.x - cx) * (p.x - cx) + (p.y - cy) * (p.y - cy) <= r * r
  }

  lemma {:induction false} SquareOrder(a: nat, b: nat)
    ensures a <= b <==> a * a <= b * b
  {
    if a <= b {
      Scaled(a, b, a);
      Scaled(a, b, b);
    } else {
      Scaled(b + 1, a, a);
      Scaled(b + 1, a, b + 1);
      assert (b + 1) * (b + 1) == b * b + 2 * b + 1;
    }
  }

  lemma {:induction false} SquareAbs(v: int)
    ensures v * v == Abs(v) * Abs(v)
  {
  }

  /** The lattice points of one row, left to right. */
  function Row(cx: int, y: int, span: nat): (s: seq<Point>)
    ensures |s| == 2 * span + 1
  {
    seq(2 * span + 1, (k: nat) => Point(cx - span + k, y))
  }

  lemma {:induction false} RowPoints(cx: int, y: int, span: nat)
    ensures NoDuplicates(Row(cx, y, span))
    ensures forall p :: p in Row(cx, y, span) <==> p.y == y && Abs(p.x - cx) <= span
  {
    forall p: Point | p.y == y && Abs(p.x - cx) <= span ensures p in Row(cx, y, span) {
      assert Row(cx, y, span)[p.x - cx + span] == p;
    }
  }

  lemma {:induction false} FlatLine(cx: int, y: int, span: nat)
    ensures var from, to := Point(cx - span, y), Point(cx + span, y);
      LinePrefix(from, to, Steps(from, to) + 1) == Row(cx, y, span)
  {
    var from, to := Point(cx - span, y), Point(cx + span, y);
    if span > 0 {
      forall n: nat | n <= 2 * span ensures LinePoint(from, to, n) == Point(cx - span + n, y) {
        DivUnique(n * 0 + (2 * span - 1) - span, 2 * span, 0);
      }
    }
  }

  /** A point of row `dy` is in the disc exactly when it is within the span of that row. */
  lemma {:induction false} RowOfDisc(cx: int, cy: int, r: nat, dy: int, span: nat, p: Point)
    requires span * span <= r * r - dy * dy < (span + 1) * (span + 1) && p.y - cy == dy
    ensures InDisc(cx, cy, r, p) <==> Abs(p.x - cx) <= span
  {
    SquareAbs(p.x - cx);
    SquareOrder(Abs(p.x - cx), span);
    SquareOrder(span + 1, Abs(p.x - cx));
  }

  lemma {:induction false} DiscRows(cx: int, cy: int, r: nat, p: Point)
    requires InDisc(cx, cy, r, p)
    ensures Abs(p.y - cy) <= r
  {
    SquareAbs(p.y - cy);
    SquareOrder(Abs(p.y - cy), r);
  }

  /** What has been drawn once the rows below `dy` are done. */
  ghost predicate DrawnBelow(cx: int, cy: int, r: int, dy: int, drawn: seq<Point>) {
    NoDuplicates(drawn) && forall p :: p in drawn <==> p.y - cy < dy && InDisc(cx, cy, r, p)
  }

  lemma {:induction false} RowDrawn(cx: int, cy: int, r: nat, dy: int, span: nat, drawn: seq<Point>)
    requires DrawnBelow(cx, cy, r, dy, drawn)
    requires span * span <= r * r - dy * dy < (span + 1) * (span + 1)
    ensures DrawnBelow(cx, cy, r, dy + 1, drawn + Row(cx, cy + dy, span))
  {
    hide InDisc, Row;
    var row := Row(cx, cy + dy, span);
    RowPoints(cx, cy + dy, span);
    forall p: Point | p.y - cy == dy ensures InDisc(cx, cy, r, p) <==> p in row { RowOfDisc(cx, cy, r, dy, span, p); }
    assert forall p :: p in row ==> p.y - cy == dy;
    assert forall p :: p in drawn ==> p.y - cy < dy;
    Apart(drawn, row);
  }

  lemma {:induction false} Apart(a: seq<Point>, b: seq<Point>)
    requires NoDuplicates(a) && NoDuplicates(b) && forall p :: p in a ==> p !in b
    ensures NoDuplicates(a + b)
  {
    forall i, j | 0 <= i < |a| && 0 <= j < |b| ensures a[i] != b[j] { assert a[i] in a; assert b[j] in b; }
  }

  class Canvas {
    /** The pixels written, in order. */
    var plotted: seq<Point>

    method PutPixel(x: int, y: int)
      modifies this
      ensures plotted == old(plotted) + [Point(x, y)]
    {
      plotted := plotted + [Point(x, y)];
    }

    method Line(x0: int, y0: int, x1: int, y1: int)
      requires Int32(x0) && Int32(y0) && Int32(x1) && Int32(y1)
      requires Abs(x1 - x0) < 0x8000_0000 && Abs(y1 - y0) < 0x8000_0000
      requires Abs(x1 - x0) > Abs(y1 - y0) || Abs(x1 - x0) + Abs(y1 - y0) <= 0x8000_0001
      modifies this
      ensures var from, to := Point(x0, y0), Point(x1, y1);
        plotted == old(plotted) + LinePrefix(from, to, Steps(from, to) + 1)
    {
      hide LinePoint, LinePrefix, OnTrack, Sign;
      ghost var from, to := Point(x0, y0), Point(x1, y1);
      var dx, dy := x1 - x0, y1 - y0;
      var a, b := if dx < 0 then -dx else dx, if dy < 0 then -dy else dy;
      var sx, sy := Sign(dx), Sign(dy);
      var err: int := if a > b then a / 2 else -(b / 2);
      var x, y := x0, y0;
      ghost var i, j, n: nat := 0, 0, 0;
      TrackStart(a, b, err);
      assert a == Abs(to.x - from.x) && b == Abs(to.y - from.y);
      hide Abs, Steps, Int32;
      while true
        invariant x == x0 + Sign(dx) * i && y == y0 + Sign(dy) * j
        invariant from == to ==> n == 0 && i == 0 && j == 0
        invariant from != to ==> OnTrack(a, b, i, j, n, err)
        invariant n <= Steps(from, to)
        invariant plotted == old(plotted) + LinePrefix(from, to, n)
        decreases Steps(from, to) - n
      {
        PutPixel(x, y);
        PrefixGrows(from, to, n);
        if from != to {
          TrackPoint(from, to, i, j, n, err);
          ArrivesExactly(from, to, n);
        }
        if x == x1 && y == y1 { break; }
        TrackStep(a, b, i, j, n, err);
        ErrorFits(a, b, i, j, n, err);
        Moved(dx, i);
        Moved(dy, j);
        var e2 := err;
        if e2 > -a {
          err := err - b;
          assert Int32(err);
          i := i + 1;
          x := x + sx;
        }
        if e2 < b {
          err := err + a;
          assert Int32(err);
          j := j + 1;
          y := y + sy;
        }
        n := n + 1;
        PointFits(from, to, i, j, n, err);
        assert Int32(x) && Int32(y);
      }
    }

    /** The largest `span` whose square is at most `dx`. */
    method Span(dx: nat, ghost r: nat) returns (span: nat)
      requires dx <= r * r && r <= 46339
      ensures span * span <= dx < (span + 1) * (span + 1) && span <= r
    {
      var s: nat := 0;
      SquareOrder(r + 1, 46340);
      while s * s <= dx
        invariant s <= r + 1 && (s == 0 || (s - 1) * (s - 1) <= dx)
        decreases r + 1 - s
      {
        assert Int32(s * s);
        SquareOrder(s, r);
        s := s + 1;
      }
      span := s - 1;
    }

    method FillDisc(cx: int, cy: int, r: int)
      requires -0x8000_0000 < r <= 46339
      requires r >= 0 ==> Int32(cx - r) && Int32(cx + r) && Int32(cy - r) && Int32(cy + r)
      modifies this
      ensures old(plotted) <= plotted
      ensures var drawn := plotted[|old(plotted)|..];
        NoDuplicates(drawn) && forall p :: p in drawn <==> InDisc(cx, cy, r, p)
    {
      hide InDisc, LinePrefix, Row, NoDuplicates;
      ghost var drawn: seq<Point> := [];
      var dy := -r;
      NothingDrawn(cx, cy, r);
      while dy <= r
        invariant plotted == old(plotted) + drawn && DrawnBelow(cx, cy, r, dy, drawn)
        invariant r >= 0 ==> -r <= dy <= r + 1
      {
        RowFits(r, dy);
        var dx := r * r - dy * dy;
        var span := Span(dx, r);
        FlatLine(cx, cy + dy, span);
        Line(cx - span, cy + dy, cx + span, cy + dy);
        RowDrawn(cx, cy, r, dy, span, drawn);
        drawn := drawn + Row(cx, cy + dy, span);
        dy := dy + 1;
      }
      AllDrawn(cx, cy, r, dy, drawn);
    }
  }

  lemma {:induction false} NothingDrawn(cx: int, cy: int, r: int)
    ensures DrawnBelow(cx, cy, r, -r, [])
  {
    forall p | InDisc(cx, cy, r, p) ensures p.y - cy >= -r { DiscRows(cx, cy, r, p); }
  }

  lemma {:induction false} AllDrawn(cx: int, cy: int, r: int, dy: int, drawn: seq<Point>)
    requires DrawnBelow(cx, cy, r, dy, drawn) && dy > r
    ensures NoDuplicates(drawn) && forall p :: p in drawn <==> InDisc(cx, cy, r, p)
  {
    forall p | InDisc(cx, cy, r, p) ensures p.y - cy <= r { DiscRows(cx, cy, r, p); }
  }

  lemma {:induction false} RowFits(r: int, dy: int)
    requires -r <= dy <= r <= 46339
    ensures 0 <= r * r - dy * dy <= r * r && Int32(r * r) && Int32(dy * dy)
  {
    SquareAbs(dy);
    SquareOrder(Abs(dy), r);
    SquareOrder(r, 46340);
  }
}
