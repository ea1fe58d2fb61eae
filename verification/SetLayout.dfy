/** Compiling a set plan: validation as it is carried out, and the timeline of sound and picture. */
module SetLayout {
  import opened Common
  import opened SetPlan
  import opened StableSort

  const BASS_CROSSOVER_HZ := 250
  const SWEEP_CEILING_HZ := 1200
  const CUT_FADE_S := 0.01
  const SHORT_FADE_S := 0.02

  datatype Filter =
    | HighPass(hz: int)
    | LowPass(hz: int)
    | Echo(delayMs: int)
    | FadeIn(start: real, len: real)
    | FadeOut(start: real, len: real)

  function FadingOut(start: real, len: real): Filter {
    FadeOut(MaxReal(start, 0.0), len)
  }

  /** One excerpt of a song's audio on the set's timeline. */
  datatype AudioLayer = AudioLayer(track: nat, srcStart: real, outStart: real, outLen: real, ratio: real,
                                   ride: Option<Ride>, filters: seq<Filter>)
  {
    ghost predicate Valid() {
      ride.Some? ==> ride.value.Valid()
    }

    /** Seconds of the file the excerpt reads. */
    function SrcLen(): real
      requires Valid()
    {
      match ride
      case Some(r) => r.SrcS() + (outLen - r.OutS())
      case None => outLen * ratio
    }

    function End(): real {
      outStart + outLen
    }

    /** Whether the layer's low end is cut. */
    predicate Thinned() {
      exists f | f in filters :: f.HighPass?
    }
  }

  /** One stretch of a song's picture on the set's timeline. */
  datatype VideoSegment = VideoSegment(track: nat, srcStart: real, outStart: real, outLen: real, ratio: real) {
    function End(): real {
      outStart + outLen
    }
  }

  datatype Layout = Layout(audio: seq<AudioLayer>, video: seq<VideoSegment>, seamAtS: seq<real>, durationS: real)

  // ---- the layers of one seam ------------------------------------------------

  function RideFor(t: Track): (r: Option<Ride>)
    requires t.Playable()
    ensures r.Some? ==> r.value.Valid()
  {
    if t.Rides() then Some(t.RideOf()) else None
  }

  /** How long song `k`'s own layer lasts: through half the swap, or up to the bar that echoes. */
  function OwnLayerS(p: Plan, k: nat): real
    requires Playable(p) && k <= |p.seams|
  {
    if k == |p.seams| then BodyS(p, k)
    else
      match p.seams[k].recipe
      case BassSwap => BodyS(p, k) + HalfSwapS(p, k)
      case EchoOut => BodyS(p, k) - p.tracks[k].BarS()
      case DropMix => BodyS(p, k)
  }

  function OwnFadeS(p: Plan, k: nat): real
    requires k <= |p.seams|
  {
    if k == |p.seams| then LAST_FADE_S else if p.seams[k].recipe == DropMix then CUT_FADE_S else SHORT_FADE_S
  }

  /** Song `k` at full band, from where it enters, laid from set second `t`. */
  function OwnLayer(p: Plan, k: nat, t: real): AudioLayer
    requires Playable(p) && k <= |p.seams|
  {
    var a, len := p.tracks[k], OwnLayerS(p, k);
    AudioLayer(k, a.enterS, t, len, a.ratio, RideFor(a), [FadingOut(len - OwnFadeS(p, k), OwnFadeS(p, k))])
  }

  /** The outgoing song without its bass, over the second half of the swap that opens at `tp`. */
  function TailLayer(p: Plan, k: nat, tp: real): AudioLayer
    requires Playable(p) && k < |p.seams|
  {
    var a, half := p.tracks[k], HalfSwapS(p, k);
    AudioLayer(k, p.seams[k].outS + half * a.ExitRatio(), tp + half, half, a.ExitRatio(), None,
               [HighPass(BASS_CROSSOVER_HZ)] + (if p.seams[k].sweep then [LowPass(SWEEP_CEILING_HZ)] else [])
               + [FadeIn(0.0, SHORT_FADE_S), FadingOut(half / 2.0, half / 2.0)])
  }

  /** The incoming song without its bass, over the first half of the swap. */
  function LeadInLayer(p: Plan, k: nat, tp: real): AudioLayer
    requires Playable(p) && k < |p.seams|
  {
    var b, half := p.tracks[k + 1], HalfSwapS(p, k);
    AudioLayer(k + 1, b.enterS - half * b.ratio, tp, half, b.ratio, None,
               [HighPass(BASS_CROSSOVER_HZ), FadeIn(0.0, MinReal(p.tracks[k].BarS(), half)),
                FadingOut(half - SHORT_FADE_S, SHORT_FADE_S)])
  }

  /** The outgoing song's last bar, ringing out past the end of the phrase at `tp`. */
  function EchoLayer(p: Plan, k: nat, tp: real): AudioLayer
    requires Playable(p) && k < |p.seams|
  {
    var a := p.tracks[k];
    var bl := a.BarS();
    AudioLayer(k, p.seams[k].outS - bl * a.ExitRatio(), tp - bl, 3.0 * bl, a.ExitRatio(), None,
               [Echo((bl / 4.0 * 0.75 * 1000.0).Floor), FadeIn(0.0, SHORT_FADE_S), FadingOut(bl, 2.0 * bl)])
  }

  function SeamAudio(p: Plan, k: nat, t: real): seq<AudioLayer>
    requires Playable(p) && k < |p.seams|
  {
    var tp := t + BodyS(p, k);
    match p.seams[k].recipe
    case BassSwap => [OwnLayer(p, k, t), TailLayer(p, k, tp), LeadInLayer(p, k, tp)]
    case EchoOut => [OwnLayer(p, k, t), EchoLayer(p, k, tp)]
    case DropMix => [OwnLayer(p, k, t)]
  }

  function AudioUpTo(p: Plan, n: nat): seq<AudioLayer>
    requires Playable(p) && n <= |p.seams|
  {
    if n == 0 then [] else AudioUpTo(p, n - 1) + SeamAudio(p, n - 1, StartAt(p, n - 1))
  }

  // ---- the picture -----------------------------------------------------------

  /** The picture of bar `i` of a ride that enters at `enterS` and set second `at`. */
  function RideBar(r: Ride, index: nat, enterS: real, at: real, i: nat): VideoSegment
    requires r.Valid() && i < |r.ratios|
  {
    VideoSegment(index, enterS + i as real * r.barSrcS, at + r.OutUpTo(i), r.barSrcS / r.ratios[i], r.ratios[i])
  }

  /** The picture of the first `n` bars of a ride. */
  function RidePicture(r: Ride, index: nat, enterS: real, at: real, n: nat): seq<VideoSegment>
    requires r.Valid() && n <= |r.ratios|
  {
    if n == 0 then [] else RidePicture(r, index, enterS, at, n - 1) + [RideBar(r, index, enterS, at, n - 1)]
  }

  /** The picture of a song past its ride, up to `srcTo` in its file. */
  function RestPicture(t: Track, index: nat, at: real, srcTo: real): VideoSegment
    requires t.Playable()
  {
    var src := t.enterS + t.RideSrcS();
    VideoSegment(index, src, at + t.RideOutS(), (srcTo - src) / t.ExitRatio(), t.ExitRatio())
  }

  function Played(t: Track, index: nat, at: real, srcTo: real): seq<VideoSegment>
    requires t.Playable()
  {
    RidePicture(t.RideOf(), index, t.enterS, at, |t.RideOf().ratios|) + [RestPicture(t, index, at, srcTo)]
  }

  /** Beats of bar `bar`, of `nbars`, the incoming song's picture holds; the product is taken in 32 bits. */
  function IncomingBeats(bar: nat, nbars: nat): nat {
    var nb := 4 * (bar + 1) % U32_SIZE / (nbars + 1) + 1;
    if nb < 4 then nb else 4
  }

  function SwapBars(p: Plan, k: nat): nat
    requires k < |p.seams|
  {
    if p.seams[k].bars / 2 < 1 then 1 else p.seams[k].bars / 2
  }

  /** How far into bar `bar` of a swap the picture cuts to the incoming song. */
  function HeldS(p: Plan, k: nat, bar: nat): real
    requires Playable(p) && k < |p.seams|
  {
    (4 - IncomingBeats(bar, SwapBars(p, k))) as real * (p.tracks[k].BarS() / 4.0)
  }

  /** The outgoing song's share of bar `bar`, which starts at set second `at`. */
  function OutgoingCut(p: Plan, k: nat, at: real, bar: nat): VideoSegment
    requires Playable(p) && k < |p.seams|
  {
    var a := p.tracks[k];
    VideoSegment(k, p.seams[k].outS + bar as real * a.BarS() * a.ExitRatio(), at, HeldS(p, k, bar), a.ExitRatio())
  }

  function IncomingCut(p: Plan, k: nat, at: real, bar: nat): VideoSegment
    requires Playable(p) && k < |p.seams|
  {
    var b, bl, held := p.tracks[k + 1], p.tracks[k].BarS(), HeldS(p, k, bar);
    VideoSegment(k + 1, b.enterS - HalfSwapS(p, k) * b.ratio + (bar as real * bl + held) * b.ratio, at + held,
                 IncomingBeats(bar, SwapBars(p, k)) as real * (bl / 4.0), b.ratio)
  }

  /** One bar of a swap's picture. The last bars may be the incoming song's whole. */
  function SwapBar(p: Plan, k: nat, at: real, bar: nat): seq<VideoSegment>
    requires Playable(p) && k < |p.seams|
  {
    if IncomingBeats(bar, SwapBars(p, k)) < 4 then [OutgoingCut(p, k, at, bar), IncomingCut(p, k, at, bar)]
    else [IncomingCut(p, k, at, bar)]
  }

  function BarAt(p: Plan, k: nat, tp: real, bar: nat): real
    requires Playable(p) && k < |p.seams|
  {
    tp + bar as real * p.tracks[k].BarS()
  }

  function SwapPicture(p: Plan, k: nat, tp: real, n: nat): seq<VideoSegment>
    requires Playable(p) && k < |p.seams|
  {
    if n == 0 then [] else SwapPicture(p, k, tp, n - 1) + SwapBar(p, k, BarAt(p, k, tp, n - 1), n - 1)
  }

  function SeamVideo(p: Plan, k: nat, t: real): seq<VideoSegment>
    requires Playable(p) && k < |p.seams|
  {
    Played(p.tracks[k], k, t, p.seams[k].outS)
    + if p.seams[k].recipe == BassSwap then SwapPicture(p, k, t + BodyS(p, k), SwapBars(p, k)) else []
  }

  function VideoUpTo(p: Plan, n: nat): seq<VideoSegment>
    requires Playable(p) && n <= |p.seams|
  {
    if n == 0 then [] else VideoUpTo(p, n - 1) + SeamVideo(p, n - 1, StartAt(p, n - 1))
  }

  /** Every segment in the order it is pushed. */
  function AllVideo(p: Plan): seq<VideoSegment>
    requires Playable(p)
  {
    var n := |p.seams|;
    VideoUpTo(p, n) + Played(p.tracks[n], n, StartAt(p, n), p.endS)
  }

  function AllAudio(p: Plan): seq<AudioLayer>
    requires Playable(p)
  {
    AudioUpTo(p, |p.seams|) + [OwnLayer(p, |p.seams|, StartAt(p, |p.seams|))]
  }

  predicate NoLater(x: VideoSegment, y: VideoSegment) {
    x.outStart <= y.outStart
  }

  function LayoutOf(p: Plan): Layout
    requires Playable(p)
  {
    Layout(AllAudio(p), Sort(NoLater, AllVideo(p)),
           seq(|p.seams|, k requires 0 <= k < |p.seams| => StartAt(p, k + 1)), DurationS(p))
  }

  // ---- the walk --------------------------------------------------------------

  method PlayedPicture(t: Track, index: nat, at0: real, srcTo: real) returns (out: seq<VideoSegment>)
    requires t.Playable()
    ensures out == Played(t, index, at0, srcTo)
  {
    var at, src;
    out, at, src := RideCuts(t.RideOf(), index, t.enterS, at0);
    var ratio := t.ExitRatio();
    out := out + [VideoSegment(index, src, at, (srcTo - src) / ratio, ratio)];
  }

  method RideCuts(ride: Ride, index: nat, enterS: real, at0: real)
    returns (out: seq<VideoSegment>, at: real, src: real)
    requires ride.Valid()
    ensures out == RidePicture(ride, index, enterS, at0, |ride.ratios|)
    ensures at == at0 + ride.OutS() && src == enterS + ride.SrcS()
  {
    out, at, src := [], at0, enterS;
    for i := 0 to |ride.ratios|
      invariant out == RidePicture(ride, index, enterS, at0, i)
      invariant at == at0 + ride.OutUpTo(i) && src == enterS + i as real * ride.barSrcS
    {
      var len := ride.barSrcS / ride.ratios[i];
      assert VideoSegment(index, src, at, len, ride.ratios[i]) == RideBar(ride, index, enterS, at0, i);
      out := out + [VideoSegment(index, src, at, len, ride.ratios[i])];
      at := at + len;
      src := src + ride.barSrcS;
    }
  }

  lemma FirstBarAt(p: Plan, k: nat, tp: real)
    requires Playable(p) && k < |p.seams|
    ensures BarAt(p, k, tp, 0) == tp
  {
  }

  lemma NextBarAt(p: Plan, k: nat, tp: real, bar: nat)
    requires Playable(p) && k < |p.seams|
    ensures BarAt(p, k, tp, bar + 1) == BarAt(p, k, tp, bar) + p.tracks[k].BarS()
  {
    hide Track.BarS;
  }

  method SwapCuts(p: Plan, k: nat, tp: real) returns (out: seq<VideoSegment>)
    requires Playable(p) && k < |p.seams|
    ensures out == SwapPicture(p, k, tp, SwapBars(p, k))
  {
    hide OutgoingCut, IncomingCut, IncomingBeats, BarAt;
    var tt := tp;
    assert tt == BarAt(p, k, tp, 0) by { FirstBarAt(p, k, tp); }
    out := [];
    for bar := 0 to SwapBars(p, k)
      invariant out == SwapPicture(p, k, tp, bar)
      invariant tt == BarAt(p, k, tp, bar)
    {
      if IncomingBeats(bar, SwapBars(p, k)) < 4 {
        out := out + [OutgoingCut(p, k, tt, bar)];
      }
      out := out + [IncomingCut(p, k, tt, bar)];
      tt := tt + p.tracks[k].BarS();
      NextBarAt(p, k, tp, bar);
    }
  }

  /** One seam: the outgoing song's picture and sound, then the recipe's, and when the next song is alone. */
  method LaySeam(p: Plan, k: nat, t: real) returns (audio: seq<AudioLayer>, video: seq<VideoSegment>, next: real)
    requires Playable(p) && k < |p.seams|
    ensures audio == SeamAudio(p, k, t) && video == SeamVideo(p, k, t) && next == t + SeamS(p, k)
  {
    var a, seam := p.tracks[k], p.seams[k];
    var bl := a.BarS();
    var body := BodyS(p, k);
    var tp := t + body;
    video := PlayedPicture(a, k, t, seam.outS);
    next := tp;
    match seam.recipe {
      case BassSwap =>
        var half := HalfSwapS(p, k);
        audio := [AudioLayer(k, a.enterS, t, body + half, a.ratio, RideFor(a),
                             [FadingOut(body + half - SHORT_FADE_S, SHORT_FADE_S)]),
                  TailLayer(p, k, tp), LeadInLayer(p, k, tp)];
        var cuts := SwapCuts(p, k, tp);
        video := video + cuts;
        next := tp + half;
      case EchoOut =>
        audio := [AudioLayer(k, a.enterS, t, body - bl, a.ratio, RideFor(a),
                             [FadingOut(body - bl - SHORT_FADE_S, SHORT_FADE_S)]),
                  EchoLayer(p, k, tp)];
      case DropMix =>
        audio := [AudioLayer(k, a.enterS, t, body, a.ratio, RideFor(a), [FadingOut(body - CUT_FADE_S, CUT_FADE_S)])];
    }
  }

  method LayOut(p: Plan) returns (layout: Layout)
    requires Playable(p)
    ensures layout == LayoutOf(p)
  {
    hide SeamAudio, SeamVideo, SeamS, BodyS, Played;
    var audio: seq<AudioLayer> := [];
    var video: seq<VideoSegment> := [];
    var seamAt: seq<real> := [];
    var t := 0.0;
    for k := 0 to |p.seams|
      invariant t == StartAt(p, k)
      invariant audio == AudioUpTo(p, k) && video == VideoUpTo(p, k)
      invariant |seamAt| == k && forall j | 0 <= j < k :: seamAt[j] == StartAt(p, j + 1)
    {
      var layers, picture;
      layers, picture, t := LaySeam(p, k, t);
      audio, video, seamAt := audio + layers, video + picture, seamAt + [t];
    }
    var last, closing, len := LayLast(p, t);
    audio := audio + [last];
    video := Sort(NoLater, video + closing);
    layout := Layout(audio, video, seamAt, t + len);
  }

  /** The last song, to the end of the set. */
  method LayLast(p: Plan, t: real) returns (layer: AudioLayer, picture: seq<VideoSegment>, len: real)
    requires Playable(p)
    ensures layer == OwnLayer(p, |p.seams|, t) && len == BodyS(p, |p.seams|)
    ensures picture == Played(p.tracks[|p.seams|], |p.seams|, t, p.endS)
  {
    var n := |p.tracks| - 1;
    var last := p.tracks[n];
    len := last.PlayOutS(p.endS - last.enterS);
    layer := AudioLayer(n, last.enterS, t, len, last.ratio, RideFor(last), [FadingOut(len - LAST_FADE_S, LAST_FADE_S)]);
    picture := PlayedPicture(last, n, t, p.endS);
  }
}
