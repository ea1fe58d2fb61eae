/** What the box filter keeps: total weight, every source pixel's share, alpha, and colours within range. */
module BoxLaws {
  import opened Common
  import opened Sums
  import opened BoxShrink

  // ---- shares along one axis -------------------------------------------------

  function Shares(s: real): Field {
    (o, i) => Share(s, o, i)
  }

  lemma OverlapSplits(a0: real, a1: real, b0: real, c: real, b1: real)
    requires a0 <= a1 && b0 <= c <= b1
    ensures Overlap(a0, a1, b0, b1) == Overlap(a0, a1, b0, c) + Overlap(a0, a1, c, b1)
  {
  }

  lemma OverlapSymmetric(a0: real, a1: real, b0: real, b1: real)
    ensures Overlap(a0, a1, b0, b1) == Overlap(b0, b1, a0, a1)
  {
  }

  lemma {:induction false} SourcesFill(s: real, o: int, n: nat)
    requires s >= 0.0
    ensures Sum(RowOf(Shares(s), o), n) == Overlap(Edge(s, o), Edge(s, o + 1), 0.0, n as real)
  {
    EdgeNext(s, o);
    hide Overlap, Edge;
    var b0, b1 := Edge(s, o), Edge(s, o + 1);
    if n > 0 {
      SourcesFill(s, o, n - 1);
      OverlapSplits(b0, b1, 0.0, (n - 1) as real, n as real);
      OverlapSymmetric(b0, b1, (n - 1) as real, n as real);
    } else {
      NoOverlap(b0, b1, 0.0);
    }
  }

  lemma NoOverlap(a0: real, a1: real, b: real)
    requires a0 <= a1
    ensures Overlap(a0, a1, b, b) == 0.0
  {
  }

  /** The source pixels' shares of one output pixel make up its whole width. */
  lemma SharesOfOutput(src: nat, dst: nat, o: nat)
    requires o < dst
    ensures Sum(RowOf(Shares(Scale(src, dst)), o), src) == Scale(src, dst)
  {
    hide Sum, Shares, Overlap, Scale, Edge;
    var s := Scale(src, dst);
    ScaleFacts(src, dst);
    SourcesFill(s, o, src);
    EdgeInside(s, o, dst);
    OverlapWithin(Edge(s, o), s, src as real);
  }

  lemma OverlapWithin(b0: real, s: real, n: real)
    requires 0.0 <= b0 && 0.0 <= s && b0 + s <= n
    ensures Overlap(b0, b0 + s, 0.0, n) == s
  {
  }

  lemma {:induction false} OutputsCover(i: nat, s: real, n: nat)
    requires s >= 0.0
    ensures Sum(ColOf(Shares(s), i), n) == Overlap(i as real, i as real + 1.0, 0.0, Edge(s, n))
  {
    hide Overlap, Edge;
    if n > 0 {
      OutputsCover(i, s, n - 1);
      EdgeInside(s, n - 1, n);
      OverlapSplits(i as real, i as real + 1.0, 0.0, Edge(s, n - 1), Edge(s, n));
    } else {
      EdgeInside(s, 0, 1);
      NoOverlap(i as real, i as real + 1.0, 0.0);
    }
  }

  /** One source pixel's shares over all the output come to one. */
  lemma SharesOfSource(src: nat, dst: nat, i: nat)
    requires i < src && dst > 0
    ensures Sum(ColOf(Shares(Scale(src, dst)), i), dst) == 1.0
  {
    hide Sum, Shares, Overlap, Scale, Edge;
    var s := Scale(src, dst);
    ScaleFacts(src, dst);
    OutputsCover(i, s, dst);
    EdgeInside(s, 0, dst);
    OverlapUnit(i as real, src as real);
  }

  lemma OverlapUnit(i: real, n: real)
    requires 0.0 <= i && i + 1.0 <= n
    ensures Overlap(i, i + 1.0, 0.0, n) == 1.0
  {
  }

  // ---- the whole image -------------------------------------------------------

  datatype Channel = R | G | B | A | W

  function Of(g: Gathered, ch: Channel): real {
    match ch
    case R => g.r
    case G => g.g
    case B => g.b
    case A => g.a
    case W => g.weight
  }

  /** A pixel's own value: premultiplied colour, alpha, or one for weight. */
  function Value(px: Pixel, premultiplied: bool, ch: Channel): real {
    var cover := if premultiplied then 1.0 else px.a as real / 255.0;
    match ch
    case R => px.r as real * cover
    case G => px.g as real * cover
    case B => px.b as real * cover
    case A => px.a as real
    case W => 1.0
  }

  function Values(img: Image, ch: Channel): Field
    requires img.Valid()
  {
    (x, y) => if 0 <= x < img.width && 0 <= y < img.height then Value(img.At(x, y), img.premultiplied, ch) else 0.0
  }

  function GatheredField(img: Image, sx: real, sy: real, ch: Channel): Field
    requires img.Valid()
  {
    (ox, oy) => Of(Whole(img, sx, sy, ox, oy), ch)
  }

  lemma WeightedScales(px: Pixel, premultiplied: bool, w: real, ch: Channel)
    ensures Of(Weighted(px, premultiplied, w), ch) == w * Value(px, premultiplied, ch)
  {
  }

  lemma {:induction false} GatherIsSum(f: int -> Gathered, g: int -> real, ch: Channel, n: nat)
    requires forall i | 0 <= i < n :: Of(f(i), ch) == g(i)
    ensures Of(Gather(f, n), ch) == Sum(g, n)
  {
    if n > 0 {
      GatherIsSum(f, g, ch, n - 1);
    }
  }

  lemma RowIsSpread(img: Image, sx: real, sy: real, ch: Channel, ox: int, oy: int, y: nat)
    requires img.Valid() && y < img.height
    ensures Of(Row(img, sx, sy, ox, oy, y), ch)
         == Share(sy, oy, y) * HandedTo(Shares(sx), ColOf(Values(img, ch), y), ox, img.width)
  {
    hide Share, Weighted, Of, Value, Image.At, Given, Sum;
    var handed := RowOf(Handing(Shares(sx), ColOf(Values(img, ch), y)), ox);
    var ky := Share(sy, oy, y);
    var f, g := x => Given(img, sx, sy, ox, oy, x, y), x => ky * handed(x);
    forall x | 0 <= x < img.width
      ensures Of(f(x), ch) == g(x)
    {
      var px := img.At(x, y);
      var v := Value(px, img.premultiplied, ch);
      GivenIs(img, sx, sy, ox, oy, x, y, ch);
      assert Values(img, ch)(x, y) == v;
      assert handed(x) == Share(sx, ox, x) * v;
    }
    GatherIsSum(f, g, ch, img.width);
    SumScales(handed, g, ky, img.width);
  }

  lemma GivenIs(img: Image, sx: real, sy: real, ox: int, oy: int, x: nat, y: nat, ch: Channel)
    requires img.Valid() && x < img.width && y < img.height
    ensures Of(Given(img, sx, sy, ox, oy, x, y), ch)
         == Share(sy, oy, y) * (Share(sx, ox, x) * Value(img.At(x, y), img.premultiplied, ch))
  {
    hide Share, Of, Value, Weighted, Given, Image.At;
    GivenInside(img, sx, sy, ox, oy, x, y);
    WeightedScales(img.At(x, y), img.premultiplied, Share(sx, ox, x) * Share(sy, oy, y), ch);
    Reordered(Share(sx, ox, x), Share(sy, oy, y), Value(img.At(x, y), img.premultiplied, ch));
  }

  lemma Reordered(a: real, b: real, c: real)
    ensures a * b * c == b * (a * c)
  {
  }

  /** What the filter gathers is each channel spread by its shares, first along rows and then along columns. */
  lemma WholeIsSpread(img: Image, sx: real, sy: real, ch: Channel, ox: int, oy: int)
    requires img.Valid()
    ensures GatheredField(img, sx, sy, ch)(ox, oy)
         == Down(Shares(sy), Across(Shares(sx), Values(img, ch), img.width), img.height)(ox, oy)
  {
    hide Share, Row, Of, Values, HandedTo;
    var across := Across(Shares(sx), Values(img, ch), img.width);
    var f, g := y => Row(img, sx, sy, ox, oy, y), RowOf(Handing(Shares(sy), RowOf(across, ox)), oy);
    forall y | 0 <= y < img.height
      ensures Of(f(y), ch) == g(y)
    {
      RowIsSpread(img, sx, sy, ch, ox, oy, y);
    }
    GatherIsSum(f, g, ch, img.height);
    DownIs(Shares(sy), across, img.height, ox, oy);
  }

  lemma DownIs(ky: Field, v: Field, h: nat, ox: int, oy: int)
    ensures Down(ky, v, h)(ox, oy) == Sum(RowOf(Handing(ky, RowOf(v, ox)), oy), h)
  {
  }

  /** Alpha, premultiplied colour and weight are all conserved: what the output gathers in all is what the
      source held in all. */
  lemma EveryChannelConserved(img: Image, dstW: nat, dstH: nat, ch: Channel)
    requires img.Valid() && dstW > 0 && dstH > 0
    ensures var sx, sy := Scale(img.width, dstW), Scale(img.height, dstH);
      Total(GatheredField(img, sx, sy, ch), dstW, dstH) == Total(Values(img, ch), img.width, img.height)
  {
    hide Sum, Total, Scale, Shares, Values, GatheredField, Across, Down;
    var sx, sy := Scale(img.width, dstW), Scale(img.height, dstH);
    forall x | 0 <= x < img.width
      ensures Sum(ColOf(Shares(sx), x), dstW) == 1.0
    {
      SharesOfSource(img.width, dstW, x);
    }
    forall y | 0 <= y < img.height
      ensures Sum(ColOf(Shares(sy), y), dstH) == 1.0
    {
      SharesOfSource(img.height, dstH, y);
    }
    SpreadConserves(Shares(sx), Shares(sy), Values(img, ch), img.width, img.height, dstW, dstH);
    var spread := Down(Shares(sy), Across(Shares(sx), Values(img, ch), img.width), img.height);
    forall i, j | 0 <= i < dstW && 0 <= j < dstH
      ensures GatheredField(img, sx, sy, ch)(i, j) == spread(i, j)
    {
      WholeIsSpread(img, sx, sy, ch, i, j);
    }
    TotalCongruent(GatheredField(img, sx, sy, ch), spread, dstW, dstH);
  }

  /** Every output pixel gathers the same total weight: the area of source it stands for. */
  lemma EveryPixelWeighsTheSame(img: Image, dstW: nat, dstH: nat, ox: nat, oy: nat)
    requires img.Valid() && ox < dstW && oy < dstH
    ensures var sx, sy := Scale(img.width, dstW), Scale(img.height, dstH); Whole(img, sx, sy, ox, oy).weight == sx * sy
  {
    hide Share, Scale, Sum, Down, Across, Whole, Shares;
    var sx, sy := Scale(img.width, dstW), Scale(img.height, dstH);
    WholeIsSpread(img, sx, sy, W, ox, oy);
    SharesOfOutput(img.width, dstW, ox);
    SharesOfOutput(img.height, dstH, oy);
    ColumnOfOnes(img, sx, sy, ox, oy);
  }

  lemma ColumnOfOnes(img: Image, sx: real, sy: real, ox: nat, oy: nat)
    requires img.Valid() && Sum(RowOf(Shares(sx), ox), img.width) == sx
    ensures Down(Shares(sy), Across(Shares(sx), Values(img, W), img.width), img.height)(ox, oy)
         == sx * Sum(RowOf(Shares(sy), oy), img.height)
  {
    hide Sum, Values, Share;
    var across := Across(Shares(sx), Values(img, W), img.width);
    DownIs(Shares(sy), across, img.height, ox, oy);
    var column := RowOf(Handing(Shares(sy), RowOf(across, ox)), oy);
    forall y | 0 <= y < img.height
      ensures column(y) == sx * RowOf(Shares(sy), oy)(y)
    {
      RowOfOnes(img, sx, ox, y);
    }
    SumScales(RowOf(Shares(sy), oy), column, sx, img.height);
  }

  lemma RowOfOnes(img: Image, sx: real, ox: nat, y: nat)
    requires img.Valid() && y < img.height
    ensures Across(Shares(sx), Values(img, W), img.width)(ox, y) == Sum(RowOf(Shares(sx), ox), img.width)
  {
    SumCongruent(RowOf(Handing(Shares(sx), ColOf(Values(img, W), y)), ox), RowOf(Shares(sx), ox), img.width);
  }

  // ---- colours ---------------------------------------------------------------

  /** The two images agree wherever anything can be seen: same size, same alpha, same colour unless transparent. */
  ghost predicate LookAlike(a: Image, b: Image) {
    && a.Valid() && b.Valid() && a.width == b.width && a.height == b.height
    && !a.premultiplied && !b.premultiplied
    && forall x: nat, y: nat | x < a.width && y < a.height ::
         a.At(x, y).a == b.At(x, y).a && (a.At(x, y).a > 0 ==> a.At(x, y) == b.At(x, y))
  }

  lemma TransparentGivesNoColour(p: Pixel, q: Pixel, w: real)
    requires p.a == q.a && (p.a > 0 ==> p == q)
    ensures Weighted(p, false, w) == Weighted(q, false, w)
  {
    if p.a == 0 {
      assert 0 as real / 255.0 == 0.0;
    }
  }

  lemma {:induction false} GatherCongruent(f: int -> Gathered, g: int -> Gathered, n: nat)
    requires forall i | 0 <= i < n :: f(i) == g(i)
    ensures Gather(f, n) == Gather(g, n)
  {
    if n > 0 {
      GatherCongruent(f, g, n - 1);
    }
  }

  /** Whatever colour an encoder left in fully transparent pixels never reaches the output. */
  lemma TransparentColoursIgnored(a: Image, b: Image, dstW: nat, dstH: nat, ox: nat, oy: nat)
    requires LookAlike(a, b) && ox < dstW && oy < dstH
    ensures Shrunk(a, dstW, dstH, ox, oy) == Shrunk(b, dstW, dstH, ox, oy)
  {
    hide Share, Weighted, Scale, Settled, Image.At;
    var sx, sy := Scale(a.width, dstW), Scale(a.height, dstH);
    forall y | 0 <= y < a.height
      ensures Row(a, sx, sy, ox, oy, y) == Row(b, sx, sy, ox, oy, y)
    {
      forall x | 0 <= x < a.width
        ensures Given(a, sx, sy, ox, oy, x, y) == Given(b, sx, sy, ox, oy, x, y)
      {
        GivenInside(a, sx, sy, ox, oy, x, y);
        GivenInside(b, sx, sy, ox, oy, x, y);
        TransparentGivesNoColour(a.At(x, y), b.At(x, y), Share(sx, ox, x) * Share(sy, oy, y));
      }
      hide Given;
      GatherCongruent(x => Given(a, sx, sy, ox, oy, x, y), x => Given(b, sx, sy, ox, oy, x, y), a.width);
    }
    hide Row;
    GatherCongruent(y => Row(a, sx, sy, ox, oy, y), y => Row(b, sx, sy, ox, oy, y), a.height);
  }

  /** Colours never above alpha, alpha never above opaque. */
  ghost predicate InRange(g: Gathered) {
    && 0.0 <= g.r <= g.a && 0.0 <= g.g <= g.a && 0.0 <= g.b <= g.a
    && g.a <= 255.0 * g.weight
  }

  lemma ValueIs(px: Pixel, ch: Channel)
    ensures Value(px, false, ch) ==
            match ch
            case R => px.r as real * (px.a as real / 255.0)
            case G => px.g as real * (px.a as real / 255.0)
            case B => px.b as real * (px.a as real / 255.0)
            case A => px.a as real
            case W => 1.0
  {
  }

  lemma ValueInRange(px: Pixel, ch: Channel)
    requires ch == R || ch == G || ch == B
    ensures 0.0 <= Value(px, false, ch) <= Value(px, false, A) <= 255.0
  {
    hide Value;
    ValueIs(px, A);
    ValueIs(px, ch);
    match ch {
      case R => Tinted(px.r, px.a, Value(px, false, R));
      case G => Tinted(px.g, px.a, Value(px, false, G));
      case B => Tinted(px.b, px.a, Value(px, false, B));
    }
  }

  lemma Tinted(c: Byte, a: Byte, value: real)
    requires value == c as real * (a as real / 255.0)
    ensures 0.0 <= value <= a as real
  {
    UnderScale(c as real, a as real / 255.0, value, a as real);
  }

  lemma UnderScale(c: real, x: real, value: real, top: real)
    requires 0.0 <= c <= 255.0 && 0.0 <= x && value == c * x && top == 255.0 * x
    ensures 0.0 <= value <= top
  {
    ProductNonNegative(c, x);
    ProductNonNegative(255.0 - c, x);
    assert (255.0 - c) * x == top - value;
  }

  lemma WeightIs(px: Pixel, w: real)
    ensures Of(Weighted(px, false, w), W) == w
  {
  }

  lemma ScaledInOrder(w: real, x: real, y: real)
    requires w >= 0.0 && x <= y
    ensures w * x <= w * y
  {
    ProductNonNegative(w, y - x);
  }

  lemma ChannelInRange(px: Pixel, w: real, ch: Channel)
    requires w >= 0.0 && (ch == R || ch == G || ch == B)
    ensures var g := Weighted(px, false, w); 0.0 <= Of(g, ch) <= Of(g, A) <= 255.0 * Of(g, W)
  {
    hide Weighted, Value, Of;
    ValueInRange(px, ch);
    WeightedScales(px, false, w, ch);
    WeightedScales(px, false, w, A);
    WeightIs(px, w);
    ScaledInOrder(w, 0.0, Value(px, false, ch));
    ScaledInOrder(w, Value(px, false, ch), Value(px, false, A));
    ScaledInOrder(w, Value(px, false, A), 255.0);
    assert Of(Weighted(px, false, w), A) <= w * 255.0;
    assert Of(Weighted(px, false, w), W) == w;
  }

  lemma WeightedInRange(px: Pixel, w: real)
    requires w >= 0.0
    ensures InRange(Weighted(px, false, w))
  {
    hide Weighted;
    ChannelInRange(px, w, R);
    ChannelInRange(px, w, G);
    ChannelInRange(px, w, B);
  }

  lemma {:induction false} GatherInRange(f: int -> Gathered, n: nat)
    requires forall i | 0 <= i < n :: InRange(f(i))
    ensures InRange(Gather(f, n))
  {
    if n > 0 {
      GatherInRange(f, n - 1);
    }
  }

  lemma WholeInRange(img: Image, sx: real, sy: real, ox: int, oy: int)
    requires img.Valid() && !img.premultiplied
    ensures InRange(Whole(img, sx, sy, ox, oy))
  {
    hide InRange, Share, Weighted, Image.At;
    forall y | 0 <= y < img.height
      ensures InRange(Row(img, sx, sy, ox, oy, y))
    {
      forall x | 0 <= x < img.width
        ensures InRange(Given(img, sx, sy, ox, oy, x, y))
      {
        ShareNonNegative(sx, ox, x);
        ShareNonNegative(sy, oy, y);
        ProductNonNegative(Share(sx, ox, x), Share(sy, oy, y));
        GivenInside(img, sx, sy, ox, oy, x, y);
        WeightedInRange(img.At(x, y), Share(sx, ox, x) * Share(sy, oy, y));
      }
      hide Given;
      GatherInRange(x => Given(img, sx, sy, ox, oy, x, y), img.width);
    }
    hide Row;
    GatherInRange(y => Row(img, sx, sy, ox, oy, y), img.height);
  }

  /** An un-premultiplied colour before it is rounded. */
  function Unpremultiplied(c: real, g: Gathered): real
    requires g.weight > 0.0 && g.a > 0.0
  {
    Quotients(c, g);
    c / g.weight / (g.a / g.weight / 255.0)
  }

  lemma Quotients(c: real, g: Gathered)
    requires g.weight > 0.0 && g.a > 0.0
    ensures g.a / g.weight / 255.0 > 0.0
    ensures 0.0 <= c <= g.a ==> 0.0 <= c / g.weight / (g.a / g.weight / 255.0) <= 255.0
  {
    var avg, colour := g.a / g.weight, c / g.weight;
    QuotientPositive(g.a, g.weight);
    if 0.0 <= c <= g.a {
      QuotientPositive(c, g.weight);
      assert colour <= avg by { QuotientMonotone(c, g.a, g.weight); }
      QuotientPositive(colour, avg / 255.0);
      var r := colour / (avg / 255.0);
      AtMost(r, avg / 255.0, 255.0);
    }
  }

  /** Un-premultiplied colours never exceed a byte, and neither does alpha: the clamps never act. */
  lemma ColoursStayInRange(img: Image, sx: real, sy: real, ox: int, oy: int)
    requires img.Valid() && !img.premultiplied
    ensures var g := Whole(img, sx, sy, ox, oy);
      g.weight > 0.0 && g.a > 0.0 ==> AveragesInRange(g)
  {
    hide Whole, AveragesInRange, InRange;
    WholeInRange(img, sx, sy, ox, oy);
    var g := Whole(img, sx, sy, ox, oy);
    if g.weight > 0.0 && g.a > 0.0 {
      SettlesInRange(g);
    }
  }

  ghost predicate AveragesInRange(g: Gathered)
    requires g.weight > 0.0 && g.a > 0.0
  {
    && 0.0 < g.a / g.weight <= 255.0
    && 0.0 <= Unpremultiplied(g.r, g) <= 255.0
    && 0.0 <= Unpremultiplied(g.g, g) <= 255.0
    && 0.0 <= Unpremultiplied(g.b, g) <= 255.0
  }

  lemma SettlesInRange(g: Gathered)
    requires InRange(g) && g.weight > 0.0 && g.a > 0.0
    ensures AveragesInRange(g)
  {
    UnpremultipliedInRange(g.r, g);
    UnpremultipliedInRange(g.g, g);
    UnpremultipliedInRange(g.b, g);
    hide Unpremultiplied;
    AlphaInRange(g.a, g.weight);
  }

  lemma AlphaInRange(a: real, weight: real)
    requires 0.0 < a <= 255.0 * weight && weight > 0.0
    ensures 0.0 < a / weight <= 255.0
  {
    QuotientPositive(a, weight);
    var avg := a / weight;
    assert avg * weight == a <= 255.0 * weight;
    AtMost(avg, weight, 255.0);
  }

  lemma UnpremultipliedInRange(c: real, g: Gathered)
    requires g.weight > 0.0 && g.a > 0.0 && 0.0 <= c <= g.a
    ensures 0.0 <= Unpremultiplied(c, g) <= 255.0
  {
    Quotients(c, g);
  }

  // ---- 32-bit offsets --------------------------------------------------------

  /** Every pixel is read where it is stored. */
  ghost predicate ReadsOwn(img: Image)
    requires img.Valid()
  {
    forall x, y | 0 <= x < img.width && 0 <= y < img.height :: img.At(x, y) == img.Own(x, y)
  }

  const OPAQUE := Pixel(255, 255, 255, 255)

  /** An image whose pixels past those that fit are the only ones to be seen. */
  function FarImage(width: U32, height: U32): (img: Image)
    ensures img.Valid() && img.width == width && img.height == height
    ensures forall c | 0 <= c < width * height :: img.pixels[c] == if c < CELLS then CLEAR else OPAQUE
  {
    Image(width, height, false, seq(width * height, c => if c < CELLS then CLEAR else OPAQUE))
  }

  lemma PlaceOf(c: nat, width: nat, height: nat) returns (x: nat, y: nat)
    requires c < width * height
    ensures x < width && y < height && Place(x, y, width) == c
  {
    if width > 0 {
      x, y := c % width, c / width;
      IntQuotientBelow(c, width, height);
    }
  }

  /** The source is read pixel by pixel, whatever it holds, exactly when it has at most 2^30 of them. */
  lemma ReadsOwnIff(width: U32, height: U32)
    ensures (forall img: Image | img.Valid() && img.width == width && img.height == height :: ReadsOwn(img))
            <==> width * height <= CELLS
  {
    hide ReadsOwn;
    if width * height <= CELLS {
      forall img: Image | img.Valid() && img.width == width && img.height == height
        ensures ReadsOwn(img)
      {
        NearReads(img);
      }
    } else {
      FarMisreads(width, height);
    }
  }

  lemma NearReads(img: Image)
    requires img.Valid() && img.width * img.height <= CELLS
    ensures ReadsOwn(img)
  {
    hide Cell, Place;
    forall x: nat, y: nat | x < img.width && y < img.height
      ensures img.At(x, y) == img.Own(x, y)
    {
      CellIs(x, y, img.width);
      InBuffer(x, y, img.width, img.height);
    }
  }

  lemma FarMisreads(width: U32, height: U32)
    requires width * height > CELLS
    ensures !ReadsOwn(FarImage(width, height))
  {
    hide Cell, Place;
    var x, y := PlaceOf(CELLS, width, height);
    CellIs(x, y, width);
    assert FarImage(width, height).At(x, y) == CLEAR && FarImage(width, height).Own(x, y) == OPAQUE;
  }

  /** The whole output, each pixel in its own place. */
  ghost predicate PaintsOwn(img: Image, dstW: nat, dstH: nat)
    requires img.Valid() && 0 < dstW && 0 < dstH
  {
    var buffer := Painted(img, dstW, dstH, dstH, 0);
    forall ox, oy | 0 <= ox < dstW && 0 <= oy < dstH ::
      Place(ox, oy, dstW) < |buffer| && buffer[Place(ox, oy, dstW)] == Shrunk(img, dstW, dstH, ox, oy)
  }

  predicate Before(i: nat, j: nat, ox: nat, oy: nat) {
    j < oy || (j == oy && i < ox)
  }

  lemma PlacesInOrder(i: nat, j: nat, ox: nat, oy: nat, width: nat)
    requires i < width && Before(i, j, ox, oy)
    ensures Place(i, j, width) < Place(ox, oy, width)
  {
    if j < oy {
      IntProductMonotone(width, j + 1, oy);
    }
  }

  /** What is done is in its own place, and the rest of the buffer is still clear. */
  ghost predicate DoneSoFar(img: Image, dstW: nat, dstH: nat, oy: nat, ox: nat, buffer: seq<Pixel>)
    requires img.Valid() && 0 < dstW && 0 < dstH && |buffer| == dstW * dstH
  {
    && (forall i: nat, j: nat | i < dstW && j < dstH && Before(i, j, ox, oy) ::
          Place(i, j, dstW) < |buffer| && buffer[Place(i, j, dstW)] == Shrunk(img, dstW, dstH, i, j))
    && (forall c | Place(ox, oy, dstW) <= c < |buffer| :: buffer[c] == CLEAR)
  }

  lemma OneMoreDone(img: Image, dstW: nat, dstH: nat, ox: nat, oy: nat, buffer: seq<Pixel>)
    requires img.Valid() && ox < dstW && oy < dstH && |buffer| == dstW * dstH <= CELLS
    requires DoneSoFar(img, dstW, dstH, oy, ox, buffer)
    ensures DoneSoFar(img, dstW, dstH, oy, ox + 1, OnePainted(img, dstW, dstH, ox, oy, buffer))
  {
    hide Whole, Scale, Cell;
    InBuffer(ox, oy, dstW, dstH);
    CellIs(ox, oy, dstW);
    var r := OnePainted(img, dstW, dstH, ox, oy, buffer);
    assert r[Place(ox, oy, dstW)] == Shrunk(img, dstW, dstH, ox, oy);
    hide Shrunk, Settled, OnePainted;
    forall i: nat, j: nat | i < dstW && j < dstH && Before(i, j, ox + 1, oy)
      ensures Place(i, j, dstW) < |r| && r[Place(i, j, dstW)] == Shrunk(img, dstW, dstH, i, j)
    {
      if Before(i, j, ox, oy) {
        PlacesInOrder(i, j, ox, oy, dstW);
      }
    }
  }

  lemma RowDone(img: Image, dstW: nat, dstH: nat, oy: nat, buffer: seq<Pixel>)
    requires img.Valid() && 0 < dstW && oy < dstH && |buffer| == dstW * dstH
    requires DoneSoFar(img, dstW, dstH, oy, dstW, buffer)
    ensures DoneSoFar(img, dstW, dstH, oy + 1, 0, buffer)
  {
    hide Shrunk;
    assert Place(dstW, oy, dstW) == Place(0, oy + 1, dstW);
    forall i: nat, j: nat | i < dstW && j < dstH && Before(i, j, 0, oy + 1)
      ensures Before(i, j, dstW, oy)
    {
    }
  }

  lemma {:induction false} PaintedSoFar(img: Image, dstW: nat, dstH: nat, oy: nat, ox: nat)
    requires img.Valid() && 0 < dstW && 0 < dstH && dstW * dstH <= CELLS
    requires ox <= dstW && oy <= dstH && (oy == dstH ==> ox == 0)
    ensures DoneSoFar(img, dstW, dstH, oy, ox, Painted(img, dstW, dstH, oy, ox))
    decreases oy, ox
  {
    hide OnePainted, Shrunk, Painted;
    if ox > 0 {
      PaintedSoFar(img, dstW, dstH, oy, ox - 1);
      PixelPainted(img, dstW, dstH, ox - 1, oy);
      OneMoreDone(img, dstW, dstH, ox - 1, oy, Painted(img, dstW, dstH, oy, ox - 1));
    } else if oy > 0 {
      PaintedSoFar(img, dstW, dstH, oy - 1, dstW);
      RowPainted(img, dstW, dstH, oy - 1);
      RowDone(img, dstW, dstH, oy - 1, Painted(img, dstW, dstH, oy, 0));
    } else {
      NothingPainted(img, dstW, dstH, seq(dstW * dstH, _ => CLEAR));
    }
  }

  /** No offset reaches past the pixels that fit. */
  lemma {:induction false} NeverPainted(img: Image, dstW: nat, dstH: nat, oy: nat, ox: nat, c: nat)
    requires img.Valid() && 0 < dstW && 0 < dstH && CELLS <= c < dstW * dstH
    requires ox <= dstW && oy <= dstH && (oy == dstH ==> ox == 0)
    ensures Painted(img, dstW, dstH, oy, ox)[c] == CLEAR
    decreases oy, ox
  {
    hide Whole, Settled, Scale, Cell;
    if ox > 0 {
      NeverPainted(img, dstW, dstH, oy, ox - 1, c);
      CellIs(ox - 1, oy, dstW);
    } else if oy > 0 {
      NeverPainted(img, dstW, dstH, oy - 1, dstW, c);
    }
  }

  const DOT := Image(1, 1, true, [OPAQUE])

  /** One opaque pixel covers whatever it is drawn to. */
  lemma DotIsOpaque(dstW: nat, dstH: nat, ox: nat, oy: nat)
    requires ox < dstW && oy < dstH
    ensures DOT.Valid() && Shrunk(DOT, dstW, dstH, ox, oy) == OPAQUE
  {
    hide Whole, Scale, Settled;
    var sx, sy := Scale(1, dstW), Scale(1, dstH);
    EveryPixelWeighsTheSame(DOT, dstW, dstH, ox, oy);
    ScalePositive(dstW);
    ScalePositive(dstH);
    ProductPositive(sx, sy);
    DotGathers(sx, sy, ox, oy);
    OpaqueSettles(Whole(DOT, sx, sy, ox, oy));
  }

  lemma ScalePositive(dst: nat)
    requires dst > 0
    ensures Scale(1, dst) > 0.0
  {
    QuotientPositive(1.0, dst as real);
  }

  lemma OpaqueSettles(g: Gathered)
    requires g.weight > 0.0 && g.r == g.g == g.b == g.a == g.weight * 255.0
    ensures Settled(g, true) == OPAQUE
  {
    AllOfIt(g.weight);
    assert ToByte(255.0) == 255;
  }

  lemma DotGathers(sx: real, sy: real, ox: nat, oy: nat)
    ensures DOT.Valid()
    ensures var g := Whole(DOT, sx, sy, ox, oy);
      g.r == g.g == g.b == g.a == g.weight * 255.0
  {
    assert DOT.At(0, 0) == OPAQUE;
    hide Share;
    var w := Share(sx, ox, 0) * Share(sy, oy, 0);
    hide Image.At;
    assert Given(DOT, sx, sy, ox, oy, 0, 0) == Weighted(OPAQUE, true, w);
    hide Given;
    assert Row(DOT, sx, sy, ox, oy, 0) == NOTHING.Plus(Weighted(OPAQUE, true, w));
    assert Whole(DOT, sx, sy, ox, oy) == NOTHING.Plus(Row(DOT, sx, sy, ox, oy, 0));
  }

  lemma AllOfIt(w: real)
    requires w > 0.0
    ensures w * 255.0 / w == 255.0
  {
  }

  /** The output holds every pixel in its own place, whatever the source, exactly when it has at most 2^30 of them. */
  lemma PaintsOwnIff(dstW: nat, dstH: nat)
    requires 0 < dstW && 0 < dstH
    ensures (forall img: Image | img.Valid() :: PaintsOwn(img, dstW, dstH)) <==> dstW * dstH <= CELLS
  {
    hide Shrunk, Painted;
    if dstW * dstH <= CELLS {
      forall img: Image | img.Valid()
        ensures PaintsOwn(img, dstW, dstH)
      {
        PaintedSoFar(img, dstW, dstH, dstH, 0);
        assert forall ox: nat, oy: nat | ox < dstW && oy < dstH :: Before(ox, oy, 0, dstH);
      }
    } else {
      var ox, oy := PlaceOf(CELLS, dstW, dstH);
      DotIsOpaque(dstW, dstH, ox, oy);
      NeverPainted(DOT, dstW, dstH, dstH, 0, CELLS);
      assert !PaintsOwn(DOT, dstW, dstH);
    }
  }
}
