/** Shrinking an image with a box filter: every source pixel spreads its whole weight over the output. */
module BoxShrink {
  import opened Common
  import opened Sums

  /** How much of `[a0, a1]` lies in `[b0, b1]`. */
  function Overlap(a0: real, a1: real, b0: real, b1: real): real {
    MaxReal(MinReal(a1, b1) - MaxReal(a0, b0), 0.0)
  }

  function Ceil(x: real): int {
    -((-x).Floor)
  }

  /** Rounded and clamped to a byte. */
  function ToByte(x: real): nat {
    if Round(x) < 0 then 0 else if Round(x) > 255 then 255 else Round(x)
  }

  type Byte = n: nat | n <= 255

  datatype Pixel = Pixel(r: Byte, g: Byte, b: Byte, a: Byte)

  const CLEAR := Pixel(0, 0, 0, 0)

  // ---- buffers ---------------------------------------------------------------

  /** Pixels, of four bytes each, whose byte offsets fit 32 bits. */
  const CELLS := 0x4000_0000

  /** Where pixel `(x, y)` belongs in a buffer of rows of `width` pixels. */
  function Place(x: nat, y: nat, width: nat): nat {
    y * width + x
  }

  /** The pixel that its 32-bit byte offset finds instead. */
  function Cell(x: nat, y: nat, width: nat): nat {
    (y * width % U32_SIZE + x) % U32_SIZE * 4 % U32_SIZE / 4
  }

  lemma Folded(n: nat, x: nat)
    ensures (n % U32_SIZE + x) % U32_SIZE * 4 % U32_SIZE / 4 == (n + x) % CELLS
  {
    Added(n, x);
    Quadrupled(n + x);
  }

  lemma Added(n: nat, x: nat)
    ensures (n % U32_SIZE + x) % U32_SIZE == (n + x) % U32_SIZE
  {
  }

  lemma Quadrupled(n: nat)
    ensures n % U32_SIZE * 4 % U32_SIZE / 4 == n % CELLS
  {
    var q, r := n / CELLS, n % CELLS;
    assert n % U32_SIZE == q % 4 * CELLS + r;
  }

  /** It is the pixel itself while that is among those that fit, and otherwise one that is. */
  lemma CellIs(x: nat, y: nat, width: nat)
    ensures Cell(x, y, width) == Place(x, y, width) % CELLS <= Place(x, y, width)
  {
    Folded(y * width, x);
  }

  lemma InBuffer(x: nat, y: nat, width: nat, height: nat)
    requires x < width && y < height
    ensures Place(x, y, width) < width * height
  {
    assert (y + 1) * width <= height * width;
  }

  datatype Image = Image(width: U32, height: U32, premultiplied: bool, pixels: seq<Pixel>) {
    ghost predicate Valid() {
      |pixels| == width * height
    }

    /** The pixel as it is stored, row by row. */
    function Own(x: nat, y: nat): Pixel
      requires Valid() && x < width && y < height
    {
      InBuffer(x, y, width, height);
      pixels[Place(x, y, width)]
    }

    /** The pixel as it is read, at its 32-bit offset. */
    function At(x: nat, y: nat): Pixel
      requires Valid() && x < width && y < height
    {
      InBuffer(x, y, width, height);
      CellIs(x, y, width);
      pixels[Cell(x, y, width)]
    }
  }

  // ---- what one output pixel gathers -----------------------------------------

  /** Colour weighted by alpha, alpha, and total weight. */
  datatype Gathered = Gathered(r: real, g: real, b: real, a: real, weight: real) {
    function Plus(o: Gathered): Gathered {
      Gathered(r + o.r, g + o.g, b + o.b, a + o.a, weight + o.weight)
    }
  }

  const NOTHING := Gathered(0.0, 0.0, 0.0, 0.0, 0.0)

  /** A pixel's contribution under weight `w`: colours premultiplied by alpha unless they already are. */
  function Weighted(px: Pixel, premultiplied: bool, w: real): Gathered {
    var af := if premultiplied then 1.0 else px.a as real / 255.0;
    Gathered(w * (px.r as real * af), w * (px.g as real * af), w * (px.b as real * af), w * px.a as real, w)
  }

  function Gather(f: int -> Gathered, n: nat): Gathered {
    if n == 0 then NOTHING else Gather(f, n - 1).Plus(f(n - 1))
  }

  /** Where output pixel `o` begins along one axis, each output pixel `s` source pixels wide. */
  function Edge(s: real, o: int): real {
    o as real * s
  }

  /** Source pixel `i`'s share of output pixel `o` along one axis, each output pixel `s` source pixels wide. */
  function Share(s: real, o: int, i: int): real {
    Overlap(i as real, i as real + 1.0, Edge(s, o), Edge(s, o + 1))
  }

  function Scale(src: nat, dst: nat): real
    requires dst > 0
  {
    src as real / dst as real
  }

  /** What source pixel `(x, y)` gives output pixel `(ox, oy)`, if anything. */
  function Given(img: Image, sx: real, sy: real, ox: int, oy: int, x: int, y: int): Gathered
    requires img.Valid()
  {
    if 0 <= x < img.width && 0 <= y < img.height
    then Weighted(img.At(x, y), img.premultiplied, Share(sx, ox, x) * Share(sy, oy, y))
    else NOTHING
  }

  function Row(img: Image, sx: real, sy: real, ox: int, oy: int, y: int): Gathered
    requires img.Valid()
  {
    Gather(x => Given(img, sx, sy, ox, oy, x, y), img.width)
  }

  /** Everything output pixel `(ox, oy)` gathers, from all over the source. */
  function Whole(img: Image, sx: real, sy: real, ox: int, oy: int): Gathered
    requires img.Valid()
  {
    Gather(y => Row(img, sx, sy, ox, oy, y), img.height)
  }

  /** The output pixel: the average, un-premultiplied again for a straight-alpha source. */
  function Settled(g: Gathered, premultiplied: bool): Pixel {
    if g.weight <= 0.0 then CLEAR
    else
      var alpha := MinReal(MaxReal(g.a / g.weight, 0.0), 255.0);
      if premultiplied then
        Pixel(ToByte(g.r / g.weight), ToByte(g.g / g.weight), ToByte(g.b / g.weight), ToByte(alpha))
      else if alpha > 0.0 then
        var af := alpha / 255.0;
        Pixel(ToByte(g.r / g.weight / af), ToByte(g.g / g.weight / af), ToByte(g.b / g.weight / af), ToByte(alpha))
      else Pixel(0, 0, 0, ToByte(alpha))
  }

  function Shrunk(img: Image, dstW: nat, dstH: nat, ox: nat, oy: nat): Pixel
    requires img.Valid() && dstW > 0 && dstH > 0
  {
    Settled(Whole(img, Scale(img.width, dstW), Scale(img.height, dstH), ox, oy), img.premultiplied)
  }

  lemma GatherNone(f: int -> Gathered)
    ensures Gather(f, 0) == NOTHING
  {
  }

  lemma GatherStep(f: int -> Gathered, n: nat)
    ensures Gather(f, n + 1) == Gather(f, n).Plus(f(n))
  {
  }

  // ---- the walk --------------------------------------------------------------

  lemma {:induction false} GatherNothing(f: int -> Gathered, m: nat, n: nat)
    requires m <= n && forall i | m <= i < n :: f(i) == NOTHING
    ensures Gather(f, n) == Gather(f, m)
    decreases n - m
  {
    if m < n {
      GatherNothing(f, m, n - 1);
    }
  }

  /** The source pixels an output pixel can reach along one axis. */
  function First(s: real, o: nat): int {
    Edge(s, o).Floor
  }

  function Last(s: real, o: nat, size: nat): int {
    var above := Ceil(Edge(s, o + 1));
    var end := if above < First(s, o) + 1 then First(s, o) + 1 else above;
    if end < size then end else size
  }

  /** Nothing outside the window has a share. */
  lemma OutsideWindow(s: real, o: nat, size: nat, i: int)
    requires 0 <= i < size && (i < First(s, o) || Last(s, o, size) <= i)
    ensures Share(s, o, i) == 0.0
  {
    if i < First(s, o) {
      assert i + 1 <= First(s, o);
    } else {
      assert Ceil(Edge(s, o + 1)) <= i;
    }
  }

  lemma Weightless(px: Pixel, premultiplied: bool, w: real)
    requires w == 0.0
    ensures Weighted(px, premultiplied, w) == NOTHING
  {
  }

  lemma ShareNonNegative(s: real, o: int, i: int)
    ensures Share(s, o, i) >= 0.0
  {
  }

  lemma WindowOf(y: real, above: int, size: nat)
    requires 0.0 <= y && (if size > 0 then y < size as real else y == 0.0)
    ensures 0 <= y.Floor && (size == 0 ==> y.Floor == 0)
    ensures size > 0 ==>
              var end := if above < y.Floor + 1 then y.Floor + 1 else above;
              y.Floor < if end < size then end else size
  {
  }

  lemma ScaleFacts(src: nat, dst: nat)
    requires dst > 0
    ensures Scale(src, dst) >= 0.0 && Edge(Scale(src, dst), dst) == src as real
    ensures if src > 0 then Scale(src, dst) > 0.0 else Scale(src, dst) == 0.0
  {
    QuotientPositive(src as real, dst as real);
  }

  /** An output pixel's window lies inside the source, and is empty only when the source is. */
  lemma WindowInside(src: nat, dst: nat, o: nat)
    requires o < dst
    ensures var s := Scale(src, dst);
      s >= 0.0 && 0 <= First(s, o) && Last(s, o, src) <= src
      && if src > 0 then First(s, o) < Last(s, o, src) else First(s, o) == Last(s, o, src) == 0
  {
    var s := Scale(src, dst);
    ScaleFacts(src, dst);
    hide Scale, Ceil;
    EdgeInside(s, o, dst);
    hide Edge;
    WindowOf(Edge(s, o), Ceil(Edge(s, o + 1)), src);
  }

  /** The output pixels' edges run in order from nothing to the whole source. */
  lemma EdgeInside(s: real, o: nat, dst: nat)
    requires s >= 0.0 && o < dst
    ensures Edge(s, 0) == 0.0 && 0.0 <= Edge(s, o) && Edge(s, o + 1) == Edge(s, o) + s
    ensures Edge(s, o + 1) <= Edge(s, dst)
    ensures if s > 0.0 then Edge(s, o) < Edge(s, dst) else Edge(s, o) == 0.0
  {
    ProductNonNegative(o as real, s);
    ProductNonNegative((dst - o - 1) as real, s);
    EdgeNext(s, o);
    EdgeSplit(s, o + 1, dst);
  }

  lemma EdgeNext(s: real, o: int)
    ensures Edge(s, o + 1) == Edge(s, o) + s
  {
    assert (o + 1) as real == o as real + 1.0;
  }

  lemma EdgeSplit(s: real, o: int, dst: int)
    ensures Edge(s, dst) == Edge(s, o) + (dst - o) as real * s
  {
    assert (dst - o) as real == dst as real - o as real;
    Shifted(dst as real, o as real, s);
  }

  lemma PlusAssociates(a: Gathered, b: Gathered, c: Gathered)
    ensures a.Plus(b).Plus(c) == a.Plus(b.Plus(c))
  {
  }

  lemma PlusNothing(a: Gathered)
    ensures a.Plus(NOTHING) == a
  {
  }

  lemma GivenInside(img: Image, sx: real, sy: real, ox: int, oy: int, x: nat, y: nat)
    requires img.Valid() && x < img.width && y < img.height
    ensures Given(img, sx, sy, ox, oy, x, y)
         == Weighted(img.At(x, y), img.premultiplied, Share(sx, ox, x) * Share(sy, oy, y))
  {
    hide Share, Weighted;
  }

  /** A pixel outside the window on either axis gives nothing. */
  lemma GivesNothing(img: Image, sx: real, sy: real, ox: nat, oy: nat, x: nat, y: nat)
    requires img.Valid() && x < img.width && y < img.height
    requires Share(sx, ox, x) == 0.0 || Share(sy, oy, y) == 0.0
    ensures Given(img, sx, sy, ox, oy, x, y) == NOTHING
  {
    hide Share;
    Weightless(img.At(x, y), img.premultiplied, Share(sx, ox, x) * Share(sy, oy, y));
  }

  method GatherRow(img: Image, sx: real, sy: real, ox: nat, oy: nat, iy: nat, ix0: nat, ix1: nat, acc0: Gathered)
    returns (acc: Gathered)
    requires img.Valid() && iy < img.height && ix0 <= ix1 <= img.width
    requires forall x | 0 <= x < img.width && (x < ix0 || ix1 <= x) :: Share(sx, ox, x) == 0.0
    ensures acc == acc0.Plus(Row(img, sx, sy, ox, oy, iy))
  {
    hide Weighted, Share, Given, Gather, Gathered.Plus, Image.At;
    var wy := Share(sy, oy, iy);
    ghost var f := x => Given(img, sx, sy, ox, oy, x, iy);
    acc := acc0;
    forall x | 0 <= x < img.width && (x < ix0 || ix1 <= x)
      ensures f(x) == NOTHING
    {
      GivesNothing(img, sx, sy, ox, oy, x, iy);
    }
    GatherNothing(f, 0, ix0);
    GatherNone(f);
    PlusNothing(acc0);
    for ix := ix0 to ix1
      invariant acc == acc0.Plus(Gather(f, ix))
    {
      var wx := Share(sx, ox, ix);
      ShareNonNegative(sx, ox, ix);
      GatherStep(f, ix);
      PlusAssociates(acc0, Gather(f, ix), f(ix));
      GivenInside(img, sx, sy, ox, oy, ix, iy);
      if wx <= 0.0 {
        GivesNothing(img, sx, sy, ox, oy, ix, iy);
        PlusNothing(acc);
        continue;
      }
      assert wx * wy == Share(sx, ox, ix) * Share(sy, oy, iy);
      acc := acc.Plus(Weighted(img.At(ix, iy), img.premultiplied, wx * wy));
    }
    GatherNothing(f, ix1, img.width);
  }

  method GatherPixel(img: Image, sx: real, sy: real, ox: nat, oy: nat, iy0: nat, iy1: nat, ix0: nat, ix1: nat)
    returns (acc: Gathered)
    requires img.Valid() && iy0 <= iy1 <= img.height && ix0 <= ix1 <= img.width
    requires forall x | 0 <= x < img.width && (x < ix0 || ix1 <= x) :: Share(sx, ox, x) == 0.0
    requires forall y | 0 <= y < img.height && (y < iy0 || iy1 <= y) :: Share(sy, oy, y) == 0.0
    ensures acc == Whole(img, sx, sy, ox, oy)
  {
    hide Row, Share, Gathered.Plus;
    ghost var f := y => Row(img, sx, sy, ox, oy, y);
    acc := NOTHING;
    forall y | 0 <= y < img.height && (y < iy0 || iy1 <= y)
      ensures f(y) == NOTHING
    {
      EmptyRow(img, sx, sy, ox, oy, y);
    }
    GatherNothing(f, 0, iy0);
    for iy := iy0 to iy1
      invariant acc == Gather(f, iy)
    {
      ShareNonNegative(sy, oy, iy);
      if Share(sy, oy, iy) <= 0.0 {
        EmptyRow(img, sx, sy, ox, oy, iy);
        PlusNothing(acc);
        continue;
      }
      acc := GatherRow(img, sx, sy, ox, oy, iy, ix0, ix1, acc);
    }
    GatherNothing(f, iy1, img.height);
  }

  lemma EmptyRow(img: Image, sx: real, sy: real, ox: nat, oy: nat, y: nat)
    requires img.Valid() && y < img.height && Share(sy, oy, y) == 0.0
    ensures Row(img, sx, sy, ox, oy, y) == NOTHING
  {
    hide Share, Given;
    var f := x => Given(img, sx, sy, ox, oy, x, y);
    forall x | 0 <= x < img.width
      ensures f(x) == NOTHING
    {
      GivesNothing(img, sx, sy, ox, oy, x, y);
    }
    GatherNothing(f, 0, img.width);
  }

  lemma Window(src: nat, dst: nat, o: nat)
    requires o < dst
    ensures var s := Scale(src, dst);
      0 <= First(s, o) <= Last(s, o, src) <= src
      && forall i | 0 <= i < src && (i < First(s, o) || Last(s, o, src) <= i) :: Share(s, o, i) == 0.0
  {
    var s := Scale(src, dst);
    WindowInside(src, dst, o);
    hide Share, First, Last;
    forall i | 0 <= i < src && (i < First(s, o) || Last(s, o, src) <= i)
      ensures Share(s, o, i) == 0.0
    {
      OutsideWindow(s, o, src, i);
    }
  }

  /** The output buffer, clear at first, once `oy` rows and `ox` pixels of the next are done. A pixel with no weight is
      left alone. */
  function Painted(img: Image, dstW: nat, dstH: nat, oy: nat, ox: nat): (buffer: seq<Pixel>)
    requires img.Valid() && 0 < dstW && 0 < dstH
    requires ox <= dstW && oy <= dstH && (oy == dstH ==> ox == 0)
    ensures |buffer| == dstW * dstH
    decreases oy, ox
  {
    if ox > 0 then OnePainted(img, dstW, dstH, ox - 1, oy, Painted(img, dstW, dstH, oy, ox - 1))
    else if oy > 0 then Painted(img, dstW, dstH, oy - 1, dstW)
    else seq(dstW * dstH, _ => CLEAR)
  }

  function OnePainted(img: Image, dstW: nat, dstH: nat, ox: nat, oy: nat, buffer: seq<Pixel>): (r: seq<Pixel>)
    requires img.Valid() && ox < dstW && oy < dstH && |buffer| == dstW * dstH
    ensures |r| == |buffer|
  {
    var whole := Whole(img, Scale(img.width, dstW), Scale(img.height, dstH), ox, oy);
    InBuffer(ox, oy, dstW, dstH);
    CellIs(ox, oy, dstW);
    if whole.weight <= 0.0 then buffer else buffer[Cell(ox, oy, dstW) := Settled(whole, img.premultiplied)]
  }

  lemma NothingPainted(img: Image, dstW: nat, dstH: nat, buffer: seq<Pixel>)
    requires img.Valid() && 0 < dstW && 0 < dstH
    requires |buffer| == dstW * dstH && forall c | 0 <= c < |buffer| :: buffer[c] == CLEAR
    ensures buffer == Painted(img, dstW, dstH, 0, 0)
  {
  }

  lemma RowPainted(img: Image, dstW: nat, dstH: nat, oy: nat)
    requires img.Valid() && 0 < dstW && oy < dstH
    ensures Painted(img, dstW, dstH, oy, dstW) == Painted(img, dstW, dstH, oy + 1, 0)
  {
  }

  lemma PixelPainted(img: Image, dstW: nat, dstH: nat, ox: nat, oy: nat)
    requires img.Valid() && ox < dstW && oy < dstH
    ensures Painted(img, dstW, dstH, oy, ox + 1)
         == OnePainted(img, dstW, dstH, ox, oy, Painted(img, dstW, dstH, oy, ox))
  {
  }

  /** One pixel of the output: its window gathered, and settled where its own offset falls. */
  method PaintOne(img: Image, out: array<Pixel>, dstW: nat, dstH: nat, ox: nat, oy: nat, iy0: nat, iy1: nat)
    requires img.Valid() && ox < dstW && oy < dstH && out.Length == dstW * dstH
    requires iy0 == First(Scale(img.height, dstH), oy) && iy1 == Last(Scale(img.height, dstH), oy, img.height)
    requires iy0 <= iy1 <= img.height
    requires forall i | 0 <= i < img.height && (i < iy0 || iy1 <= i) :: Share(Scale(img.height, dstH), oy, i) == 0.0
    modifies out
    ensures out[..] == OnePainted(img, dstW, dstH, ox, oy, old(out[..]))
  {
    hide Settled, Whole, Share, First, Last, Cell;
    var sx, sy := Scale(img.width, dstW), Scale(img.height, dstH);
    Window(img.width, dstW, ox);
    var ix0, ix1 := First(sx, ox), Last(sx, ox, img.width);
    var acc := GatherPixel(img, sx, sy, ox, oy, iy0, iy1, ix0, ix1);
    if acc.weight > 0.0 {
      InBuffer(ox, oy, dstW, dstH);
      CellIs(ox, oy, dstW);
      out[Cell(ox, oy, dstW)] := Settled(acc, img.premultiplied);
    }
  }

  /** Every pixel of the output, row by row, into a buffer that starts out clear. */
  method Shrink(img: Image, w: U32, h: U32) returns (out: array<Pixel>)
    requires img.Valid()
    ensures var dstW, dstH := if w < 1 then 1 else w, if h < 1 then 1 else h;
      out[..] == Painted(img, dstW, dstH, dstH, 0)
  {
    hide Painted, OnePainted, Share, First, Last;
    var dstW, dstH := if w < 1 then 1 else w, if h < 1 then 1 else h;
    var sy := Scale(img.height, dstH);
    out := new Pixel[dstW * dstH](_ => CLEAR);
    NothingPainted(img, dstW, dstH, out[..]);
    for oy := 0 to dstH
      invariant out.Length == dstW * dstH && fresh(out)
      invariant out[..] == Painted(img, dstW, dstH, oy, 0)
    {
      Window(img.height, dstH, oy);
      var iy0, iy1 := First(sy, oy), Last(sy, oy, img.height);
      for ox := 0 to dstW
        invariant out.Length == dstW * dstH && fresh(out)
        invariant out[..] == Painted(img, dstW, dstH, oy, ox)
      {
        PaintOne(img, out, dstW, dstH, ox, oy, iy0, iy1);
        PixelPainted(img, dstW, dstH, ox, oy);
      }
      RowPainted(img, dstW, dstH, oy);
    }
  }
}
