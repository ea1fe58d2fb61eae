/** What each byte of a shrunk image holds: the average of its own channel over the source, to the nearest byte. */
module BoxPixels {
  import opened Common
  import opened Sums
  import opened BoxShrink
  import opened BoxLaws

  // ---- shares ----------------------------------------------------------------

  /** A share is the length of what source pixel `i` and output pixel `o` have in common: no common stretch is longer,
      and there is one as long unless they have none. */
  lemma ShareIsCommonLength(s: real, o: nat, i: nat, lo: real, hi: real)
    requires s >= 0.0
    ensures i as real <= lo <= hi <= (i + 1) as real && o as real * s <= lo && hi <= (o + 1) as real * s ==>
              hi - lo <= Share(s, o, i)
    ensures Share(s, o, i) > 0.0 ==>
              var from := if i as real < o as real * s then o as real * s else i as real;
              i as real <= from && from + Share(s, o, i) <= (i + 1) as real
              && o as real * s <= from && from + Share(s, o, i) <= (o + 1) as real * s
  {
    var a, b := Edge(s, o), Edge(s, o + 1);
    assert a == o as real * s && b == (o + 1) as real * s;
  }

  // ---- averages --------------------------------------------------------------

  /** The average of one channel over the part of the source that output pixel `(ox, oy)` covers: each source pixel's
      value by its share of the output pixel along rows and along columns, over the area. */
  function Average(img: Image, dstW: nat, dstH: nat, ox: nat, oy: nat, ch: Channel): real
    requires img.Valid() && img.width > 0 && img.height > 0 && ox < dstW && oy < dstH
  {
    AreaPositive(img.width, dstW, img.height, dstH);
    var sx, sy := Scale(img.width, dstW), Scale(img.height, dstH);
    Down(Shares(sy), Across(Shares(sx), Values(img, ch), img.width), img.height)(ox, oy) / (sx * sy)
  }

  lemma AreaPositive(w: nat, dstW: nat, h: nat, dstH: nat)
    requires w > 0 && h > 0 && dstW > 0 && dstH > 0
    ensures Scale(w, dstW) * Scale(h, dstH) > 0.0
  {
    QuotientPositive(w as real, dstW as real);
    QuotientPositive(h as real, dstH as real);
    ProductPositive(Scale(w, dstW), Scale(h, dstH));
  }

  lemma AverageIsGathered(img: Image, dstW: nat, dstH: nat, ox: nat, oy: nat, ch: Channel)
    requires img.Valid() && img.width > 0 && img.height > 0 && ox < dstW && oy < dstH
    ensures var g := Whole(img, Scale(img.width, dstW), Scale(img.height, dstH), ox, oy);
      g.weight > 0.0 && Average(img, dstW, dstH, ox, oy, ch) == Of(g, ch) / g.weight
  {
    hide Whole, Scale, Shares, Values, Down, Across, Of;
    var sx, sy := Scale(img.width, dstW), Scale(img.height, dstH);
    AreaPositive(img.width, dstW, img.height, dstH);
    EveryPixelWeighsTheSame(img, dstW, dstH, ox, oy);
    WholeIsSpread(img, sx, sy, ch, ox, oy);
    assert GatheredField(img, sx, sy, ch)(ox, oy) == Of(Whole(img, sx, sy, ox, oy), ch);
  }

  // ---- rounding --------------------------------------------------------------

  /** No byte is nearer. */
  predicate Nearest(b: Byte, x: real) {
    -0.5 <= b as real - x <= 0.5
  }

  lemma RoundsToNearest(x: real)
    requires 0.0 <= x <= 255.0
    ensures Nearest(ToByte(x), x)
  {
  }

  /** What is out of a byte's range is clamped to its ends. */
  lemma ClampsToRange(x: real)
    ensures x <= 0.0 ==> ToByte(x) == 0
    ensures x >= 255.0 ==> ToByte(x) == 255
  {
  }

  lemma NearestToByte(b: Byte, c: Byte)
    requires Nearest(b, c as real)
    ensures b == c
  {
  }

  // ---- what is gathered fits a byte ------------------------------------------

  /** No channel above a byte's worth of the weight. */
  ghost predicate InBytes(g: Gathered) {
    && 0.0 <= g.r <= 255.0 * g.weight && 0.0 <= g.g <= 255.0 * g.weight && 0.0 <= g.b <= 255.0 * g.weight
    && 0.0 <= g.a <= 255.0 * g.weight
  }

  lemma PremultipliedValue(px: Pixel, ch: Channel)
    ensures 0.0 <= Value(px, true, ch) <= 255.0
  {
  }

  lemma PremultipliedChannel(px: Pixel, w: real, ch: Channel)
    requires w >= 0.0
    ensures 0.0 <= Of(Weighted(px, true, w), ch) <= 255.0 * w
  {
    hide Of, Weighted, Value;
    PremultipliedValue(px, ch);
    WeightedScales(px, true, w, ch);
    ScaledInOrder(w, 0.0, Value(px, true, ch));
    ScaledInOrder(w, Value(px, true, ch), 255.0);
  }

  lemma PremultipliedInBytes(px: Pixel, w: real)
    requires w >= 0.0
    ensures InBytes(Weighted(px, true, w))
  {
    PremultipliedChannel(px, w, R);
    PremultipliedChannel(px, w, G);
    PremultipliedChannel(px, w, B);
    PremultipliedChannel(px, w, A);
    WeightOf(px, true, w);
    hide Weighted;
  }

  lemma {:induction false} GatherInBytes(f: int -> Gathered, n: nat)
    requires forall i | 0 <= i < n :: InBytes(f(i))
    ensures InBytes(Gather(f, n))
  {
    if n > 0 {
      GatherInBytes(f, n - 1);
    }
  }

  lemma WholeInBytes(img: Image, sx: real, sy: real, ox: int, oy: int)
    requires img.Valid()
    ensures InBytes(Whole(img, sx, sy, ox, oy))
  {
    if !img.premultiplied {
      WholeInRange(img, sx, sy, ox, oy);
    } else {
      PremultipliedWhole(img, sx, sy, ox, oy);
    }
  }

  lemma PremultipliedWhole(img: Image, sx: real, sy: real, ox: int, oy: int)
    requires img.Valid() && img.premultiplied
    ensures InBytes(Whole(img, sx, sy, ox, oy))
  {
    hide InBytes, Share, Weighted, Image.At;
    forall y | 0 <= y < img.height
      ensures InBytes(Row(img, sx, sy, ox, oy, y))
    {
      forall x | 0 <= x < img.width
        ensures InBytes(Given(img, sx, sy, ox, oy, x, y))
      {
        ShareNonNegative(sx, ox, x);
        ShareNonNegative(sy, oy, y);
        ProductNonNegative(Share(sx, ox, x), Share(sy, oy, y));
        GivenInside(img, sx, sy, ox, oy, x, y);
        PremultipliedInBytes(img.At(x, y), Share(sx, ox, x) * Share(sy, oy, y));
      }
      hide Given;
      GatherInBytes(x => Given(img, sx, sy, ox, oy, x, y), img.width);
    }
    hide Row;
    GatherInBytes(y => Row(img, sx, sy, ox, oy, y), img.height);
  }

  lemma ByteAverage(c: real, w: real)
    requires w > 0.0 && 0.0 <= c <= 255.0 * w
    ensures 0.0 <= c / w <= 255.0
  {
    QuotientPositive(c, w);
    AtMost(c / w, w, 255.0);
  }

  // ---- what is settled -------------------------------------------------------

  lemma AlphaSettles(g: Gathered, premultiplied: bool)
    requires g.weight > 0.0 && InBytes(g)
    ensures Nearest(Settled(g, premultiplied).a, g.a / g.weight)
  {
    ByteAverage(g.a, g.weight);
    RoundsToNearest(g.a / g.weight);
    hide ToByte, Nearest;
  }

  lemma PremultipliedSettles(g: Gathered)
    requires g.weight > 0.0 && InBytes(g)
    ensures var px := Settled(g, true);
      Nearest(px.r, g.r / g.weight) && Nearest(px.g, g.g / g.weight) && Nearest(px.b, g.b / g.weight)
  {
    ByteAverage(g.r, g.weight);
    RoundsToNearest(g.r / g.weight);
    ByteAverage(g.g, g.weight);
    RoundsToNearest(g.g / g.weight);
    ByteAverage(g.b, g.weight);
    RoundsToNearest(g.b / g.weight);
    hide ToByte, Nearest;
  }

  /** A straight-alpha colour, its alpha taken back out. */
  function Straightened(colour: real, alpha: real): real
    requires alpha > 0.0
  {
    colour / (alpha / 255.0)
  }

  lemma StraightSettles(g: Gathered)
    requires g.weight > 0.0 && InRange(g) && g.a > 0.0
    ensures g.a / g.weight > 0.0
    ensures var px, alpha := Settled(g, false), g.a / g.weight;
      && Nearest(px.r, Straightened(g.r / g.weight, alpha))
      && Nearest(px.g, Straightened(g.g / g.weight, alpha))
      && Nearest(px.b, Straightened(g.b / g.weight, alpha))
  {
    SettlesInRange(g);
    var alpha := g.a / g.weight;
    assert alpha / 255.0 > 0.0;
    assert Unpremultiplied(g.r, g) == Straightened(g.r / g.weight, alpha);
    assert Unpremultiplied(g.g, g) == Straightened(g.g / g.weight, alpha);
    assert Unpremultiplied(g.b, g) == Straightened(g.b / g.weight, alpha);
    RoundsToNearest(Unpremultiplied(g.r, g));
    RoundsToNearest(Unpremultiplied(g.g, g));
    RoundsToNearest(Unpremultiplied(g.b, g));
    hide ToByte, Nearest, Unpremultiplied, Straightened;
    StraightIs(g);
  }

  lemma StraightIs(g: Gathered)
    requires g.weight > 0.0 && g.a > 0.0 && 0.0 < g.a / g.weight <= 255.0
    ensures var px, alpha := Settled(g, false), g.a / g.weight;
      && px.r == ToByte(Straightened(g.r / g.weight, alpha))
      && px.g == ToByte(Straightened(g.g / g.weight, alpha))
      && px.b == ToByte(Straightened(g.b / g.weight, alpha))
  {
    hide ToByte;
  }

  lemma TransparentSettles(g: Gathered)
    requires g.weight > 0.0 && g.a == 0.0
    ensures Settled(g, false) == CLEAR
  {
    assert g.a / g.weight == 0.0;
    assert ToByte(0.0) == 0;
  }

  // ---- the output ------------------------------------------------------------

  /** The output pixel in its place in the finished buffer. */
  function OutputAt(img: Image, dstW: nat, dstH: nat, ox: nat, oy: nat): Pixel
    requires img.Valid() && ox < dstW && oy < dstH
  {
    InBuffer(ox, oy, dstW, dstH);
    Painted(img, dstW, dstH, dstH, 0)[Place(ox, oy, dstW)]
  }

  /** Every byte of the output is the nearest to its own channel's average: alpha as it is, colours as they are when
      they are premultiplied, and otherwise with the average alpha taken back out, where there is any. */
  lemma BytesAreAverages(img: Image, dstW: nat, dstH: nat, ox: nat, oy: nat)
    requires img.Valid() && img.width > 0 && img.height > 0 && ox < dstW && oy < dstH && dstW * dstH <= CELLS
    ensures var px, alpha := OutputAt(img, dstW, dstH, ox, oy), Average(img, dstW, dstH, ox, oy, A);
      && 0.0 <= alpha && Nearest(px.a, alpha)
      && (img.premultiplied ==>
            && Nearest(px.r, Average(img, dstW, dstH, ox, oy, R))
            && Nearest(px.g, Average(img, dstW, dstH, ox, oy, G))
            && Nearest(px.b, Average(img, dstW, dstH, ox, oy, B)))
      && (!img.premultiplied && alpha > 0.0 ==>
            && Nearest(px.r, Straightened(Average(img, dstW, dstH, ox, oy, R), alpha))
            && Nearest(px.g, Straightened(Average(img, dstW, dstH, ox, oy, G), alpha))
            && Nearest(px.b, Straightened(Average(img, dstW, dstH, ox, oy, B), alpha)))
      && (!img.premultiplied && alpha == 0.0 ==> px == CLEAR)
  {
    hide Painted, Whole, Settled, Scale, Average, InBytes, InRange, Nearest, Straightened, PaintsOwn;
    OutputIsSettled(img, dstW, dstH, ox, oy);
    var sx, sy := Scale(img.width, dstW), Scale(img.height, dstH);
    var g := Whole(img, sx, sy, ox, oy);
    AverageIsGathered(img, dstW, dstH, ox, oy, R);
    AverageIsGathered(img, dstW, dstH, ox, oy, G);
    AverageIsGathered(img, dstW, dstH, ox, oy, B);
    AverageIsGathered(img, dstW, dstH, ox, oy, A);
    WholeInBytes(img, sx, sy, ox, oy);
    AlphaSettles(g, img.premultiplied);
    AlphaNonNegative(g);
    if img.premultiplied {
      PremultipliedSettles(g);
    } else {
      WholeInRange(img, sx, sy, ox, oy);
      if g.a > 0.0 {
        StraightSettles(g);
      } else {
        TransparentSettles(g);
      }
    }
  }

  lemma AlphaNonNegative(g: Gathered)
    requires g.weight > 0.0 && InBytes(g)
    ensures g.a >= 0.0 && g.a / g.weight >= 0.0 && (g.a / g.weight > 0.0 <==> g.a > 0.0)
  {
    QuotientPositive(g.a, g.weight);
  }

  lemma OutputIsSettled(img: Image, dstW: nat, dstH: nat, ox: nat, oy: nat)
    requires img.Valid() && ox < dstW && oy < dstH && dstW * dstH <= CELLS
    ensures OutputAt(img, dstW, dstH, ox, oy)
         == Settled(Whole(img, Scale(img.width, dstW), Scale(img.height, dstH), ox, oy), img.premultiplied)
  {
    hide Painted, Whole, Settled, Scale;
    PaintsOwnIff(dstW, dstH);
    assert PaintsOwn(img, dstW, dstH);
  }

  /** A source without pixels leaves the output clear. */
  lemma NothingStaysClear(img: Image, dstW: nat, dstH: nat, ox: nat, oy: nat)
    requires img.Valid() && (img.width == 0 || img.height == 0) && ox < dstW && oy < dstH && dstW * dstH <= CELLS
    ensures OutputAt(img, dstW, dstH, ox, oy) == CLEAR
  {
    hide OutputAt, Whole;
    OutputIsSettled(img, dstW, dstH, ox, oy);
    EveryPixelWeighsTheSame(img, dstW, dstH, ox, oy);
  }

  // ---- one colour ------------------------------------------------------------

  /** What channel `ch` has gathered is `v` for every unit of weight. */
  predicate OfOne(g: Gathered, ch: Channel, v: real) {
    Of(g, ch) == v * Of(g, W)
  }

  lemma NothingOfOne(ch: Channel, v: real)
    ensures OfOne(NOTHING, ch, v)
  {
  }

  lemma OneMore(a: Gathered, b: Gathered, ch: Channel, v: real)
    requires OfOne(a, ch, v) && OfOne(b, ch, v)
    ensures OfOne(a.Plus(b), ch, v)
  {
    Distributes(v, Of(a, W), Of(b, W));
    assert Of(a.Plus(b), ch) == Of(a, ch) + Of(b, ch) && Of(a.Plus(b), W) == Of(a, W) + Of(b, W);
  }

  lemma Distributes(v: real, x: real, y: real)
    ensures v * (x + y) == v * x + v * y
  {
  }

  lemma {:induction false} GatherOfOne(f: int -> Gathered, ch: Channel, v: real, n: nat)
    requires forall i | 0 <= i < n :: OfOne(f(i), ch, v)
    ensures OfOne(Gather(f, n), ch, v)
  {
    hide OfOne, Gathered.Plus;
    if n > 0 {
      GatherOfOne(f, ch, v, n - 1);
      OneMore(Gather(f, n - 1), f(n - 1), ch, v);
    } else {
      NothingOfOne(ch, v);
    }
  }

  lemma GivenOfOne(img: Image, sx: real, sy: real, ox: nat, oy: nat, x: nat, y: nat, ch: Channel, v: real)
    requires img.Valid() && x < img.width && y < img.height && Value(img.At(x, y), img.premultiplied, ch) == v
    ensures OfOne(Given(img, sx, sy, ox, oy, x, y), ch, v)
  {
    hide Share, Weighted, Value, Image.At, Of, Given;
    GivenInside(img, sx, sy, ox, oy, x, y);
    var w := Share(sx, ox, x) * Share(sy, oy, y);
    WeightedScales(img.At(x, y), img.premultiplied, w, ch);
    WeightOf(img.At(x, y), img.premultiplied, w);
  }

  /** Where every pixel has the same value, so has the average. */
  lemma AverageOfOne(img: Image, dstW: nat, dstH: nat, ox: nat, oy: nat, ch: Channel, v: real)
    requires img.Valid() && img.width > 0 && img.height > 0 && ox < dstW && oy < dstH
    requires forall x: nat, y: nat | x < img.width && y < img.height :: Value(img.At(x, y), img.premultiplied, ch) == v
    ensures Average(img, dstW, dstH, ox, oy, ch) == v
  {
    hide Average, Scale, Share, Weighted, Value, Image.At, Of;
    var sx, sy := Scale(img.width, dstW), Scale(img.height, dstH);
    AverageIsGathered(img, dstW, dstH, ox, oy, ch);
    forall y | 0 <= y < img.height
      ensures OfOne(Row(img, sx, sy, ox, oy, y), ch, v)
    {
      forall x | 0 <= x < img.width
        ensures OfOne(Given(img, sx, sy, ox, oy, x, y), ch, v)
      {
        GivenOfOne(img, sx, sy, ox, oy, x, y, ch, v);
      }
      hide Given, OfOne;
      GatherOfOne(x => Given(img, sx, sy, ox, oy, x, y), ch, v, img.width);
    }
    hide Row;
    GatherOfOne(y => Row(img, sx, sy, ox, oy, y), ch, v, img.height);
    WeightIsItself(Whole(img, sx, sy, ox, oy));
    hide Whole;
    CancelledWeight(v, Whole(img, sx, sy, ox, oy).weight);
  }

  lemma WeightOf(px: Pixel, premultiplied: bool, w: real)
    ensures Of(Weighted(px, premultiplied, w), W) == w
  {
  }

  lemma WeightIsItself(g: Gathered)
    ensures Of(g, W) == g.weight
  {
  }

  lemma CancelledWeight(v: real, w: real)
    requires w > 0.0
    ensures v * w / w == v
  {
  }

  lemma OneColourRead(img: Image, px: Pixel, x: nat, y: nat)
    requires img.Valid() && x < img.width && y < img.height && forall k | 0 <= k < |img.pixels| :: img.pixels[k] == px
    ensures img.At(x, y) == px
  {
    hide Cell;
    InBuffer(x, y, img.width, img.height);
    CellIs(x, y, img.width);
  }

  lemma OpaqueAverages(img: Image, px: Pixel, dstW: nat, dstH: nat, ox: nat, oy: nat)
    requires img.Valid() && img.width > 0 && img.height > 0 && ox < dstW && oy < dstH
    requires px.a == 255 && forall k | 0 <= k < |img.pixels| :: img.pixels[k] == px
    ensures Average(img, dstW, dstH, ox, oy, R) == px.r as real && Average(img, dstW, dstH, ox, oy, G) == px.g as real
    ensures Average(img, dstW, dstH, ox, oy, B) == px.b as real && Average(img, dstW, dstH, ox, oy, A) == 255.0
  {
    hide Average, Image.At, Value;
    forall x: nat, y: nat | x < img.width && y < img.height
      ensures img.At(x, y) == px
    {
      OneColourRead(img, px, x, y);
    }
    OpaqueValues(px, img.premultiplied);
    AverageOfOne(img, dstW, dstH, ox, oy, R, px.r as real);
    AverageOfOne(img, dstW, dstH, ox, oy, G, px.g as real);
    AverageOfOne(img, dstW, dstH, ox, oy, B, px.b as real);
    AverageOfOne(img, dstW, dstH, ox, oy, A, 255.0);
  }

  /** A source all of one opaque pixel shrinks to that pixel everywhere. */
  lemma OneColourStays(img: Image, px: Pixel, dstW: nat, dstH: nat, ox: nat, oy: nat)
    requires img.Valid() && img.width > 0 && img.height > 0 && ox < dstW && oy < dstH && dstW * dstH <= CELLS
    requires px.a == 255 && forall k | 0 <= k < |img.pixels| :: img.pixels[k] == px
    ensures OutputAt(img, dstW, dstH, ox, oy) == px
  {
    hide Average, OutputAt, Straightened, Nearest, CELLS;
    OpaqueAverages(img, px, dstW, dstH, ox, oy);
    BytesAreAverages(img, dstW, dstH, ox, oy);
    OpaqueStraightens(px);
    SamePixel(OutputAt(img, dstW, dstH, ox, oy), px);
  }

  lemma SamePixel(out: Pixel, px: Pixel)
    requires Nearest(out.r, px.r as real) && Nearest(out.g, px.g as real)
    requires Nearest(out.b, px.b as real) && Nearest(out.a, px.a as real)
    ensures out == px
  {
    NearestToByte(out.r, px.r);
    NearestToByte(out.g, px.g);
    NearestToByte(out.b, px.b);
    NearestToByte(out.a, px.a);
  }

  lemma OpaqueValues(px: Pixel, premultiplied: bool)
    requires px.a == 255
    ensures Value(px, premultiplied, R) == px.r as real && Value(px, premultiplied, G) == px.g as real
    ensures Value(px, premultiplied, B) == px.b as real && Value(px, premultiplied, A) == 255.0
  {
    assert 255 as real / 255.0 == 1.0;
  }

  lemma OpaqueStraightens(px: Pixel)
    ensures Straightened(px.r as real, 255.0) == px.r as real && Straightened(px.g as real, 255.0) == px.g as real
    ensures Straightened(px.b as real, 255.0) == px.b as real
  {
    assert 255.0 / 255.0 == 1.0;
  }
}
