/** The envelope of a chart zoomed out below one pixel per sample: one bar per
    pixel from the smallest to the largest sample there, each bar pulled to
    touch the one before it. Arithmetic is over the reals. */
module Envelopes {
  datatype Bar = Bar(px: int, enter: real, exit: real, pMin: real, pMax: real)

  datatype Point = Point(x: real, y: real)

  /** Conversion of a double to int: towards zero. */
  function Trunc(x: real): int {
    if x >= 0.0 then x.Floor else -(-x).Floor
  }

  function Column(sample: int, pps: real): int {
    Trunc(sample as real * pps)
  }

  /** qBound. */
  function Bound(lo: int, x: int, hi: int): int {
    var y := if x < hi then x else hi;
    if y > lo then y else lo
  }

  /** What paintDataImpl has worked out before the loop: samples first..end-1
      are drawn, at pps < 1 pixels per sample. */
  datatype Plot = Plot(
    samples: seq<real>, first: nat, end: nat, origin: int, pps: real, dataLeft: int,
    left: int, right: int, lo: real, span: real, top: real, height: real)
  {
    predicate Valid() {
      first <= end <= |samples| && pps > 0.0 && left <= right
    }

    function VisPixels(): int { right - left + 2 }

    function Pixel(i: int): int {
      Bound(0, Column(i - origin, pps) - dataLeft, VisPixels())
    }

    function Ratio(i: nat): real
      requires i < |samples|
    {
      if span > 0.0 then (samples[i] - lo) / span else 0.5
    }

    function Y(ratio: real): real { top + (1.0 - ratio) * height }

    function Draw(b: Bar): seq<Point> {
      var x := (left + b.px) as real + 0.5;
      [Point(x, Y(b.enter)), Point(x, Y(b.pMax)), Point(x, Y(b.pMin)), Point(x, Y(b.exit))]
    }
  }

  /** Two bars share a ratio. */
  predicate Touch(a: Bar, b: Bar) {
    a.pMin <= b.pMax && b.pMin <= a.pMax
  }

  // ---------------------------------------------------------------------------
  // The loop
  // ---------------------------------------------------------------------------

  /** One emitted bar: the samples it stands for, the bar they make, and the bar
      that was drawn. */
  datatype Piece = Piece(from: nat, to: nat, raw: Bar, drawn: Bar)

  /** bar sums up samples from..to-1, which all lie on its pixel. */
  ghost predicate SumsUp(plot: Plot, from: nat, to: nat, bar: Bar) {
    && from < to <= |plot.samples|
    && (forall i: nat | from <= i < to :: plot.Pixel(i) == bar.px && bar.pMin <= plot.Ratio(i) <= bar.pMax)
    && (exists i: nat | from <= i < to :: plot.Ratio(i) == bar.pMin)
    && (exists i: nat | from <= i < to :: plot.Ratio(i) == bar.pMax)
    && bar.enter == plot.Ratio(from) && bar.exit == plot.Ratio(to - 1)
  }

  /** drawn is raw, widened just enough to touch prev. */
  ghost predicate Widened(prev: Bar, raw: Bar, drawn: Bar) {
    && drawn.px == raw.px && drawn.enter == raw.enter && drawn.exit == raw.exit
    && drawn.pMin <= raw.pMin <= raw.pMax <= drawn.pMax
    && Touch(prev, drawn)
    && forall lo, hi :: lo <= raw.pMin && raw.pMax <= hi && lo <= prev.pMax && prev.pMin <= hi ==>
         Inside(drawn, lo, hi)
  }

  predicate Inside(b: Bar, lo: real, hi: real) { lo <= b.pMin && b.pMax <= hi }

  ghost predicate Summed(plot: Plot, pieces: seq<Piece>) {
    forall k | 0 <= k < |pieces| :: SumsUp(plot, pieces[k].from, pieces[k].to, pieces[k].raw)
  }

  /** Each piece starts where the one before it ends, on a later pixel, and is
      widened to touch it. */
  ghost predicate Linked(pieces: seq<Piece>) {
    && (pieces != [] ==> pieces[0].drawn == pieces[0].raw)
    && forall k: nat | k + 1 < |pieces| :: Follows(pieces[k], pieces[k + 1])
  }

  ghost predicate Follows(p: Piece, q: Piece) {
    q.from == p.to && p.raw.px < q.raw.px && Widened(p.drawn, q.raw, q.drawn)
  }

  /** The pieces stand for all samples from first to end - 1. */
  ghost predicate Traced(plot: Plot, pieces: seq<Piece>, end: nat) {
    && (if pieces == [] then end == plot.first else pieces[0].from == plot.first && pieces[|pieces| - 1].to == end)
    && Summed(plot, pieces) && Linked(pieces)
  }

  ghost function Drawn(plot: Plot, pieces: seq<Piece>): seq<Point> {
    if pieces == [] then [] else Drawn(plot, pieces[..|pieces| - 1]) + plot.Draw(pieces[|pieces| - 1].drawn)
  }

  ghost function LastDrawn(pieces: seq<Piece>): Bar {
    if pieces == [] then Bar(0, 0.0, 0.0, 0.0, 0.0) else pieces[|pieces| - 1].drawn
  }

  /** emitPixel for a bar that is used. */
  method Emit(plot: Plot, bar: Bar, poly: seq<Point>, hasPrev: bool, prevPMin: real, prevPMax: real, ghost prev: Bar)
    returns (poly': seq<Point>, drawn: Bar)
    requires bar.pMin <= bar.pMax && (hasPrev ==> prev.pMin == prevPMin <= prevPMax == prev.pMax)
    ensures poly' == poly + plot.Draw(drawn)
    ensures !hasPrev ==> drawn == bar
    ensures hasPrev ==> Widened(prev, bar, drawn)
    ensures drawn.pMin <= drawn.pMax
  {
    drawn := bar;
    if hasPrev {
      if drawn.pMin > prevPMax {
        drawn := drawn.(pMin := prevPMax);
      } else if drawn.pMax < prevPMin {
        drawn := drawn.(pMax := prevPMin);
      }
    }
    var x := (plot.left + drawn.px) as real + 0.5;
    poly' := poly + [Point(x, plot.Y(drawn.enter))];
    poly' := poly' + [Point(x, plot.Y(drawn.pMax))];
    poly' := poly' + [Point(x, plot.Y(drawn.pMin))];
    poly' := poly' + [Point(x, plot.Y(drawn.exit))];
  }

  /** A bar is emitted: one piece more. */
  method EmitPiece(
      plot: Plot, cur: Bar, poly: seq<Point>, hasPrev: bool, prevPMin: real, prevPMax: real,
      ghost pieces: seq<Piece>, ghost from: nat, ghost to: nat)
    returns (poly': seq<Point>, drawn: Bar, ghost pieces': seq<Piece>)
    requires Traced(plot, pieces, from) && poly == Drawn(plot, pieces) && SumsUp(plot, from, to, cur)
    requires hasPrev == (pieces != [])
    requires hasPrev ==> var last := pieces[|pieces| - 1];
      last.drawn.pMin == prevPMin <= prevPMax == last.drawn.pMax && last.raw.px < cur.px
    ensures pieces' == pieces + [Piece(from, to, cur, drawn)] && drawn.pMin <= drawn.pMax
    ensures Traced(plot, pieces', to) && poly' == Drawn(plot, pieces')
  {
    poly', drawn := Emit(plot, cur, poly, hasPrev, prevPMin, prevPMax, LastDrawn(pieces));
    OneMore(plot, pieces, Piece(from, to, cur, drawn));
    pieces' := pieces + [Piece(from, to, cur, drawn)];
  }

  /** The loop before sample i: the pieces drawn, and the bar under way. */
  ghost predicate Before(
      plot: Plot, i: nat, cur: Bar, used: bool, poly: seq<Point>, hasPrev: bool, prevPMin: real, prevPMax: real,
      pieces: seq<Piece>, from: nat)
  {
    && Traced(plot, pieces, from) && poly == Drawn(plot, pieces) && hasPrev == (pieces != [])
    && (hasPrev ==>
          var last := pieces[|pieces| - 1];
          last.drawn.pMin == prevPMin <= prevPMax == last.drawn.pMax && last.raw.px < cur.px)
    && if used then SumsUp(plot, from, i, cur) else cur.px == -1 && from == i == plot.first && pieces == []
  }

  /** A sample on a later pixel than the bar under way. */
  method NextPixel(
      plot: Plot, i: nat, cur: Bar, used: bool, poly: seq<Point>, hasPrev: bool, prevPMin: real, prevPMax: real,
      ghost pieces: seq<Piece>, ghost from: nat)
    returns (cur': Bar, poly': seq<Point>, hasPrev': bool, prevPMin': real, prevPMax': real, ghost pieces': seq<Piece>)
    requires plot.Valid() && plot.first <= i < plot.end && plot.Pixel(i) != cur.px
    requires Before(plot, i, cur, used, poly, hasPrev, prevPMin, prevPMax, pieces, from)
    ensures Before(plot, i + 1, cur', true, poly', hasPrev', prevPMin', prevPMax', pieces', i)
    ensures cur' == Bar(plot.Pixel(i), plot.Ratio(i), plot.Ratio(i), plot.Ratio(i), plot.Ratio(i))
    ensures hasPrev' == (hasPrev || used) && |poly'| == |poly| + if used then 4 else 0
  {
    var px, ratio := plot.Pixel(i), plot.Ratio(i);
    poly', hasPrev', prevPMin', prevPMax', pieces' := poly, hasPrev, prevPMin, prevPMax, pieces;
    if used {
      PixelsGrow(plot, i - 1, i);
      var drawn;
      poly', drawn, pieces' := EmitPiece(plot, cur, poly, hasPrev, prevPMin, prevPMax, pieces, from, i);
      prevPMin', prevPMax', hasPrev' := drawn.pMin, drawn.pMax, true;
    }
    cur' := Bar(px, ratio, ratio, ratio, ratio);
  }

  function Wider(cur: Bar, ratio: real): Bar {
    cur.(pMin := if ratio < cur.pMin then ratio else cur.pMin,
         pMax := if ratio > cur.pMax then ratio else cur.pMax,
         exit := ratio)
  }

  /** A sample on the pixel of the bar under way. */
  lemma WiderBefore(
      plot: Plot, i: nat, cur: Bar, used: bool, poly: seq<Point>, hasPrev: bool, prevPMin: real, prevPMax: real,
      pieces: seq<Piece>, from: nat)
    requires plot.Valid() && plot.first <= i < plot.end && plot.Pixel(i) == cur.px
    requires Before(plot, i, cur, used, poly, hasPrev, prevPMin, prevPMax, pieces, from)
    ensures Before(plot, i + 1, Wider(cur, plot.Ratio(i)), used, poly, hasPrev, prevPMin, prevPMax, pieces, from)
  {
    WiderBar(plot, from, i, cur);
  }

  /** The envelope branch of paintDataImpl. */
  method Envelope(plot: Plot) returns (poly: seq<Point>)
    requires plot.Valid()
    ensures IsEnvelope(plot, poly)
  {
    poly := [];
    ghost var pieces: seq<Piece> := [];
    var cur := Bar(-1, 0.0, 0.0, 1.0, 0.0);
    var used := false;
    var hasPrev, prevPMin, prevPMax := false, 0.0, 0.0;
    ghost var from := plot.first;
    for i := plot.first to plot.end
      invariant Before(plot, i, cur, used, poly, hasPrev, prevPMin, prevPMax, pieces, from)
    {
      var px, ratio := plot.Pixel(i), plot.Ratio(i);
      if px != cur.px {
        cur, poly, hasPrev, prevPMin, prevPMax, pieces :=
          NextPixel(plot, i, cur, used, poly, hasPrev, prevPMin, prevPMax, pieces, from);
        from := i;
        used := true;
      } else {
        WiderBefore(plot, i, cur, used, poly, hasPrev, prevPMin, prevPMax, pieces, from);
        cur := Wider(cur, ratio);
      }
    }
    poly := LastPixel(plot, cur, used, poly, hasPrev, prevPMin, prevPMax, pieces, from);
  }

  /** The bar under way after the last sample. */
  method LastPixel(
      plot: Plot, cur: Bar, used: bool, poly: seq<Point>, hasPrev: bool, prevPMin: real, prevPMax: real,
      ghost pieces: seq<Piece>, ghost from: nat)
    returns (poly': seq<Point>)
    requires Before(plot, plot.end, cur, used, poly, hasPrev, prevPMin, prevPMax, pieces, from)
    ensures IsEnvelope(plot, poly')
  {
    poly' := poly;
    ghost var all := pieces;
    if used {
      var drawn;
      poly', drawn, all := EmitPiece(plot, cur, poly, hasPrev, prevPMin, prevPMax, pieces, from, plot.end);
    }
    assert Traced(plot, all, plot.end);
  }

  ghost predicate IsEnvelope(plot: Plot, poly: seq<Point>) {
    exists pieces: seq<Piece> :: Traced(plot, pieces, plot.end) && poly == Drawn(plot, pieces)
  }

  lemma OneMore(plot: Plot, pieces: seq<Piece>, p: Piece)
    requires Traced(plot, pieces, p.from) && SumsUp(plot, p.from, p.to, p.raw)
    requires if pieces == [] then p.drawn == p.raw else Follows(pieces[|pieces| - 1], p)
    ensures Traced(plot, pieces + [p], p.to)
    ensures Drawn(plot, pieces + [p]) == Drawn(plot, pieces) + plot.Draw(p.drawn)
  {
    OneMoreSum(plot, pieces, p);
    OneMoreLink(pieces, p);
    assert (pieces + [p])[..|pieces|] == pieces;
  }

  lemma OneMoreSum(plot: Plot, pieces: seq<Piece>, p: Piece)
    requires Summed(plot, pieces) && SumsUp(plot, p.from, p.to, p.raw)
    ensures Summed(plot, pieces + [p])
  {
    var more := pieces + [p];
    forall k | 0 <= k < |more| ensures SumsUp(plot, more[k].from, more[k].to, more[k].raw) {
      if k < |pieces| { assert more[k] == pieces[k]; }
    }
  }

  lemma OneMoreLink(pieces: seq<Piece>, p: Piece)
    requires Linked(pieces) && if pieces == [] then p.drawn == p.raw else Follows(pieces[|pieces| - 1], p)
    ensures Linked(pieces + [p])
  {
    var more := pieces + [p];
    forall k: nat | k + 1 < |more| ensures Follows(more[k], more[k + 1]) {
      if k + 1 < |pieces| { assert Follows(pieces[k], pieces[k + 1]); }
    }
  }

  lemma WiderBar(plot: Plot, from: nat, i: nat, bar: Bar)
    requires SumsUp(plot, from, i, bar) && i < |plot.samples| && plot.Pixel(i) == bar.px
    ensures var ratio := plot.Ratio(i);
      SumsUp(plot, from, i + 1, bar.(pMin := if ratio < bar.pMin then ratio else bar.pMin,
                                     pMax := if ratio > bar.pMax then ratio else bar.pMax, exit := ratio))
  {
    var lo: nat :| from <= lo < i && plot.Ratio(lo) == bar.pMin;
    var hi: nat :| from <= hi < i && plot.Ratio(hi) == bar.pMax;
    assert plot.Ratio(i) == plot.Ratio(i) && plot.Ratio(lo) == bar.pMin && plot.Ratio(hi) == bar.pMax;
  }

  // ---------------------------------------------------------------------------
  // What the picture shows
  // ---------------------------------------------------------------------------

  lemma TruncGrows(x: real, y: real)
    requires x <= y
    ensures Trunc(x) <= Trunc(y)
  {
  }

  lemma ScaleGrows(a: int, b: int, pps: real)
    requires a <= b && pps > 0.0
    ensures a as real * pps <= b as real * pps
  {
    assert (b - a) as real * pps >= 0.0;
    assert b as real == a as real + (b - a) as real;
  }

  lemma BoundGrows(lo: int, x: int, y: int, hi: int)
    requires x <= y && lo <= hi
    ensures lo <= Bound(lo, x, hi) <= Bound(lo, y, hi) <= hi
  {
  }

  /** Later samples never lie on earlier pixels. */
  lemma PixelsGrow(plot: Plot, i: int, j: int)
    requires plot.Valid() && i <= j
    ensures 0 <= plot.Pixel(i) <= plot.Pixel(j) <= plot.VisPixels()
  {
    ColumnsGrow(i - plot.origin, j - plot.origin, plot.pps);
    BoundGrows(0, Column(i - plot.origin, plot.pps) - plot.dataLeft,
               Column(j - plot.origin, plot.pps) - plot.dataLeft, plot.VisPixels());
  }

  lemma ColumnsGrow(a: int, b: int, pps: real)
    requires a <= b && pps > 0.0
    ensures Column(a, pps) <= Column(b, pps)
  {
    ScaleGrows(a, b, pps);
    TruncGrows(a as real * pps, b as real * pps);
  }

  lemma OnScreen(plot: Plot, p: Piece)
    requires plot.Valid() && SumsUp(plot, p.from, p.to, p.raw)
    ensures 0 <= p.raw.px <= plot.VisPixels()
  {
    PixelsGrow(plot, p.from, p.from);
    assert plot.Pixel(p.from) == p.raw.px;
  }

  lemma {:induction false} PixelsAscend(plot: Plot, pieces: seq<Piece>, end: nat, j: nat, k: nat)
    requires Traced(plot, pieces, end) && j < k < |pieces|
    ensures pieces[j].raw.px < pieces[k].raw.px
  {
    assert Follows(pieces[k - 1], pieces[k - 1 + 1]);
    if j < k - 1 { PixelsAscend(plot, pieces, end, j, k - 1); }
  }

  lemma SamePixel(plot: Plot, pieces: seq<Piece>, end: nat, k: nat)
    requires Traced(plot, pieces, end) && k < |pieces|
    ensures pieces[k].drawn.px == pieces[k].raw.px
  {
    if k > 0 { assert Follows(pieces[k - 1], pieces[k - 1 + 1]); }
  }

  /** Each pixel is drawn at most once, from left to right, inside the clip. */
  lemma EachPixelOnce(plot: Plot, pieces: seq<Piece>, end: nat, j: nat, k: nat)
    requires plot.Valid() && Traced(plot, pieces, end) && j < k < |pieces|
    ensures 0 <= pieces[j].drawn.px < pieces[k].drawn.px <= plot.VisPixels()
  {
    PixelsAscend(plot, pieces, end, j, k);
    OnScreen(plot, pieces[j]);
    OnScreen(plot, pieces[k]);
    SamePixel(plot, pieces, end, j);
    SamePixel(plot, pieces, end, k);
  }

  /** No excursion is lost: every sample lies within the bar of its pixel. */
  lemma {:induction false} NothingLost(plot: Plot, pieces: seq<Piece>, end: nat, i: nat) returns (k: nat)
    requires plot.Valid() && Traced(plot, pieces, end) && plot.first <= i < end <= |plot.samples|
    ensures k < |pieces| && pieces[k].from <= i < pieces[k].to
    ensures pieces[k].drawn.px == plot.Pixel(i)
    ensures pieces[k].drawn.pMin <= plot.Ratio(i) <= pieces[k].drawn.pMax
  {
    k := |pieces| - 1;
    while i < pieces[k].from
      invariant k < |pieces| && i < pieces[k].to
    {
      assert Follows(pieces[k - 1], pieces[k - 1 + 1]);
      k := k - 1;
    }
    assert SumsUp(plot, pieces[k].from, pieces[k].to, pieces[k].raw);
    assert plot.Pixel(i) == pieces[k].raw.px;
    if k > 0 { assert Follows(pieces[k - 1], pieces[k - 1 + 1]); }
  }

  /** The trace is connected: consecutive bars share a ratio, although each
      stretch moves the bar the next one is compared with. A bar is stretched
      only when its own samples miss the bar before it, and no further than to
      touch it. */
  lemma Connected(plot: Plot, pieces: seq<Piece>, end: nat, k: nat)
    requires Traced(plot, pieces, end) && 0 < k < |pieces|
    ensures Touch(pieces[k - 1].drawn, pieces[k].drawn)
    ensures pieces[k].drawn == pieces[k].raw <==> Touch(pieces[k - 1].drawn, pieces[k].raw)
    ensures pieces[k].drawn.pMin == pieces[k].raw.pMin || pieces[k].drawn.pMin == pieces[k - 1].drawn.pMax
    ensures pieces[k].drawn.pMax == pieces[k].raw.pMax || pieces[k].drawn.pMax == pieces[k - 1].drawn.pMin
  {
    var prev, raw, drawn := pieces[k - 1].drawn, pieces[k].raw, pieces[k].drawn;
    assert Follows(pieces[k - 1], pieces[k - 1 + 1]);
    var lo := if raw.pMin <= prev.pMax then raw.pMin else prev.pMax;
    var hi := if raw.pMax >= prev.pMin then raw.pMax else prev.pMin;
    assert Inside(drawn, lo, hi);
  }

  /** Four points to a bar, straight up and down at the middle of its pixel. */
  lemma {:induction false} FourPoints(plot: Plot, pieces: seq<Piece>, k: nat)
    requires k < |pieces|
    ensures |Drawn(plot, pieces)| == 4 * |pieces|
    ensures Drawn(plot, pieces)[4 * k..4 * k + 4] == plot.Draw(pieces[k].drawn)
  {
    var n := |pieces| - 1;
    if n == 0 {
      assert pieces[..0] == [];
    } else {
      FourPoints(plot, pieces[..n], if k < n then k else 0);
      Slices(Drawn(plot, pieces[..n]), plot.Draw(pieces[n].drawn), 4 * k);
    }
  }

  lemma Slices<T>(s: seq<T>, t: seq<T>, a: nat)
    requires |t| == 4
    ensures a + 4 <= |s| ==> (s + t)[a..a + 4] == s[a..a + 4]
    ensures a == |s| ==> (s + t)[a..a + 4] == t
  {
  }

  // ---------------------------------------------------------------------------
  // Where things are drawn
  // ---------------------------------------------------------------------------

  /** Toward zero: down for what is not negative, up otherwise. */
  lemma TruncIs(x: real)
    ensures x >= 0.0 ==> Trunc(x) as real <= x < Trunc(x) as real + 1.0
    ensures x < 0.0 ==> Trunc(x) as real - 1.0 < x <= Trunc(x) as real
  {
  }

  /** How far right of the visible part's left edge a sample lies. */
  function Offset(plot: Plot, i: int): real {
    (i - plot.origin) as real * plot.pps - plot.dataLeft as real
  }

  /** A sample from the origin on lies on the pixel it falls into, and on the
      first or the last one when it falls outside. */
  lemma PixelIs(plot: Plot, i: int)
    requires plot.Valid() && i >= plot.origin
    ensures var x, vis := Offset(plot, i), plot.right - plot.left + 2;
      && (x < 0.0 ==> plot.Pixel(i) == 0)
      && (0.0 <= x < vis as real ==> plot.Pixel(i) as real <= x < plot.Pixel(i) as real + 1.0)
      && (x >= vis as real ==> plot.Pixel(i) == vis)
  {
    var y := (i - plot.origin) as real * plot.pps;
    NotNegative(i - plot.origin, plot.pps);
    TruncIs(y);
    var column := Column(i - plot.origin, plot.pps);
    assert (column - plot.dataLeft) as real == column as real - plot.dataLeft as real;
  }

  lemma NotNegative(a: int, pps: real)
    requires a >= 0 && pps > 0.0
    ensures a as real * pps >= 0.0
  {
  }

  /** Before the origin the next pixel to the right is taken. */
  lemma PixelBefore(plot: Plot, i: int)
    requires plot.Valid() && i < plot.origin
    ensures var x, vis := Offset(plot, i), plot.right - plot.left + 2;
      && (x <= 0.0 ==> plot.Pixel(i) == 0)
      && (0.0 < x <= vis as real ==> plot.Pixel(i) as real - 1.0 < x <= plot.Pixel(i) as real)
      && (x > vis as real ==> plot.Pixel(i) == vis)
  {
    var y := (i - plot.origin) as real * plot.pps;
    NotNegative(plot.origin - i, plot.pps);
    assert y == -((plot.origin - i) as real * plot.pps);
    var column := Column(i - plot.origin, plot.pps);
    if y < 0.0 { TruncIs(y); }
    assert (column - plot.dataLeft) as real == column as real - plot.dataLeft as real;
  }

  /** y is where value v belongs: lo at the bottom, lo + span at the top, and in
      proportion between; in the middle when there is no span. */
  ghost predicate OnScale(plot: Plot, v: real, y: real) {
    if plot.span > 0.0 then (y - plot.top) * plot.span == (plot.lo + plot.span - v) * plot.height
    else y == plot.top + 0.5 * plot.height
  }

  lemma HeightIs(plot: Plot, i: nat)
    requires i < |plot.samples|
    ensures OnScale(plot, plot.samples[i], plot.Y(plot.Ratio(i)))
  {
    if plot.span > 0.0 {
      var q := (plot.samples[i] - plot.lo) / plot.span;
      assert q * plot.span == plot.samples[i] - plot.lo;
      Proportion(q, plot.span, plot.height);
    }
  }

  lemma Proportion(q: real, span: real, height: real)
    ensures (1.0 - q) * height * span == (span - q * span) * height
  {
  }

  lemma HigherUp(plot: Plot, a: real, b: real)
    requires a <= b && plot.height >= 0.0
    ensures plot.Y(b) <= plot.Y(a)
  {
    assert (b - a) * plot.height >= 0.0;
    assert (1.0 - a) * plot.height == (1.0 - b) * plot.height + (b - a) * plot.height;
  }

  /** Points a..a+3 are those of bar b. */
  ghost predicate StandsAt(plot: Plot, poly: seq<Point>, a: nat, b: Bar) {
    var x := (plot.left + b.px) as real + 0.5;
    && a + 4 <= |poly|
    && poly[a] == Point(x, plot.Y(b.enter)) && poly[a + 1] == Point(x, plot.Y(b.pMax))
    && poly[a + 2] == Point(x, plot.Y(b.pMin)) && poly[a + 3] == Point(x, plot.Y(b.exit))
  }

  lemma {:induction false} BarStands(plot: Plot, pieces: seq<Piece>, k: nat, poly: seq<Point>)
    requires k < |pieces| && poly == Drawn(plot, pieces)
    ensures |poly| == 4 * |pieces| && StandsAt(plot, poly, 4 * k, pieces[k].drawn)
  {
    FourPoints(plot, pieces, k);
    PointsAre(poly, plot.Draw(pieces[k].drawn), 4 * k);
  }

  lemma PointsAre(poly: seq<Point>, four: seq<Point>, a: nat)
    requires |four| == 4 && a + 4 <= |poly| && poly[a..a + 4] == four
    ensures poly[a] == four[0] && poly[a + 1] == four[1] && poly[a + 2] == four[2] && poly[a + 3] == four[3]
  {
    var part := poly[a..a + 4];
    assert part[0] == poly[a] && part[1] == poly[a + 1] && part[2] == poly[a + 2] && part[3] == poly[a + 3];
  }

  /** The bar at point a stands over pixel px and reaches from below y to above
      it. */
  ghost predicate Covers(plot: Plot, poly: seq<Point>, a: nat, px: int, y: real) {
    var x := (plot.left + px) as real + 0.5;
    && a + 4 <= |poly|
    && poly[a].x == poly[a + 1].x == poly[a + 2].x == poly[a + 3].x == x
    && poly[a + 1].y <= y <= poly[a + 2].y
  }

  lemma BarCovers(plot: Plot, poly: seq<Point>, a: nat, b: Bar, ratio: real)
    requires StandsAt(plot, poly, a, b) && b.pMin <= ratio <= b.pMax && plot.height >= 0.0
    ensures Covers(plot, poly, a, b.px, plot.Y(ratio))
  {
    HigherUp(plot, ratio, b.pMax);
    HigherUp(plot, b.pMin, ratio);
  }

  /** Every sample is on the picture: a bar stands over its pixel and reaches
      where its value belongs. */
  lemma {:induction false} SampleDrawn(plot: Plot, pieces: seq<Piece>, i: nat, poly: seq<Point>)
      returns (k: nat, y: real)
    requires plot.Valid() && plot.height >= 0.0 && Traced(plot, pieces, plot.end) && plot.first <= i < plot.end
    requires poly == Drawn(plot, pieces)
    ensures k < |pieces| && |poly| == 4 * |pieces|
    ensures OnScale(plot, plot.samples[i], y) && Covers(plot, poly, 4 * k, plot.Pixel(i), y)
  {
    y := plot.Y(plot.Ratio(i));
    k := NothingLost(plot, pieces, plot.end, i);
    BarStands(plot, pieces, k, poly);
    BarCovers(plot, poly, 4 * k, pieces[k].drawn, plot.Ratio(i));
    HeightIs(plot, i);
  }

  lemma {:induction false} KeepsEnds(plot: Plot, pieces: seq<Piece>, k: nat)
    requires Traced(plot, pieces, plot.end) && k < |pieces|
    ensures var p := pieces[k];
      && p.from < p.to <= |plot.samples|
      && p.drawn.enter == plot.Ratio(p.from) && p.drawn.exit == plot.Ratio(p.to - 1)
  {
    assert SumsUp(plot, pieces[k].from, pieces[k].to, pieces[k].raw);
    if k > 0 { assert Follows(pieces[k - 1], pieces[k - 1 + 1]); }
  }

  /** The line comes to a pixel at its first sample and leaves it at its last. */
  lemma {:induction false} EntersAndLeaves(plot: Plot, pieces: seq<Piece>, k: nat, poly: seq<Point>)
    requires Traced(plot, pieces, plot.end) && k < |pieces| && poly == Drawn(plot, pieces)
    ensures var p := pieces[k];
      && p.from < p.to <= |plot.samples| && |poly| == 4 * |pieces|
      && OnScale(plot, plot.samples[p.from], poly[4 * k].y)
      && OnScale(plot, plot.samples[p.to - 1], poly[4 * k + 3].y)
  {
    BarStands(plot, pieces, k, poly);
    KeepsEnds(plot, pieces, k);
    HeightIs(plot, pieces[k].from);
    HeightIs(plot, pieces[k].to - 1);
  }
}
