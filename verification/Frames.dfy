/** Rounding the picture to frames: what a run of spans holds, against what the set lasts. */
module Frames {
  import opened Common
  import opened SetPlan
  import opened SetLayout
  import opened SetPicture
  import opened SetValidation

  const FPS := 30

  function FrameAt(s: real): int {
    Round(s * FPS as real)
  }

  /** Frames a span holds: never fewer than one. */
  function SpanFrames(start: real, len: real): nat {
    var frames := FrameAt(start + len) - FrameAt(start);
    if frames < 1 then 1 else frames
  }

  function TotalFrames(s: seq<VideoSegment>): nat {
    if s == [] then 0
    else TotalFrames(s[..|s| - 1]) + SpanFrames(s[|s| - 1].outStart, s[|s| - 1].outLen)
  }

  /** Both ends of the span round to one frame boundary, so the frame it is given is one too many. */
  predicate Collapses(v: VideoSegment) {
    FrameAt(v.End()) == FrameAt(v.outStart)
  }

  function Collapsed(s: seq<VideoSegment>): nat {
    if s == [] then 0 else Collapsed(s[..|s| - 1]) + if Collapses(s[|s| - 1]) then 1 else 0
  }

  lemma RoundMonotone(x: real, y: real)
    requires x <= y
    ensures Round(x) <= Round(y)
    ensures x + 1.0 <= y ==> Round(x) < Round(y)
  {
  }

  lemma {:induction false} FramesTelescope(s: seq<VideoSegment>, start: real, end: real)
    requires Tiles(s, start, end)
    ensures TotalFrames(s) == FrameAt(end) - FrameAt(start) + Collapsed(s)
  {
    if s != [] {
      var init, last := s[..|s| - 1], s[|s| - 1];
      RoundMonotone(last.outStart * FPS as real, last.End() * FPS as real);
      assert |init| > 0 ==> init[|init| - 1] == s[|s| - 2] && s[|s| - 2].End() == last.outStart;
      FramesTelescope(init, start, last.outStart);
    }
  }

  lemma {:induction false} NoneCollapsed(s: seq<VideoSegment>)
    ensures Collapsed(s) == 0 <==> forall v <- s :: !Collapses(v)
  {
    if s != [] {
      var init := s[..|s| - 1];
      NoneCollapsed(init);
      assert s == init + [s[|s| - 1]];
    }
  }

  /** The frames of a validated set's picture are its length in frames, and one more for every span too short
      to reach its own frame: they match exactly when there is none. */
  lemma FramesMatchIff(p: Plan)
    requires Sound(p)
    ensures var l := LayoutOf(p);
      TotalFrames(l.video) == FrameAt(l.durationS) + Collapsed(l.video)
      && (TotalFrames(l.video) == FrameAt(l.durationS) <==> forall v <- l.video :: !Collapses(v))
  {
    hide Sound, LayoutOf, Collapses, TotalFrames;
    SoundIsPlayable(p);
    var l := LayoutOf(p);
    PictureTiles(p);
    FramesTelescope(l.video, 0.0, l.durationS);
    NoneCollapsed(l.video);
  }

  /** A span of at least a frame never collapses. */
  lemma FrameLongSpans(v: VideoSegment)
    requires v.outLen * FPS as real >= 1.0
    ensures !Collapses(v)
  {
    RoundMonotone(v.outStart * FPS as real, v.End() * FPS as real);
  }

  /** Two songs, the first with bars of a three-hundredth of a second, cut after one of them. */
  const BLINK := Plan(
    [Track("a", "/a.mp4", 72000.0, 0.0, 1.0, 0), Track("b", "/b.mp4", 120.0, 0.0, 1.0, 0)],
    [Seam(DropMix, 240.0 / 72000.0, 0, false)], 2.0, [], "/o.mp4")

  lemma BlinkTracks()
    ensures Playable(BLINK) && FirstTrack(BLINK, 0) == None
    ensures forall k | 0 <= k < 2 :: !BLINK.tracks[k].Rides() && BLINK.tracks[k].RideSrcS() == 0.0
                                     && BLINK.tracks[k].RideOutS() == 0.0 && BLINK.tracks[k].ExitRatio() == 1.0
    ensures BLINK.tracks[0].SourceBarS() == 1.0 / 300.0
  {
    assert "a" != "b";
    assert BLINK.tracks[0].Playable() && BLINK.tracks[1].Playable();
    assert TrackProblem(BLINK, 0) == None;
    assert TrackProblem(BLINK, 1) == None;
    assert FirstTrack(BLINK, 1) == None;
  }

  lemma BlinkAccepted()
    ensures FirstProblem(BLINK) == None
  {
    BlinkTracks();
    hide Track.Rides, Track.RideSrcS, Track.ExitRatio, Track.SourceBarS, FirstTrack, TrackProblem;
    assert SeamProblem(BLINK, 0) == None;
    assert FirstSeam(BLINK, 0) == None;
    assert EndProblem(BLINK) == None;
    assert FirstCard(BLINK, 0) == None;
  }

  lemma BlinkLength()
    ensures Playable(BLINK)
    ensures BodyS(BLINK, 0) == 1.0 / 300.0 && BodyS(BLINK, 1) == 2.0
    ensures StartAt(BLINK, 0) == 0.0 && StartAt(BLINK, 1) == 1.0 / 300.0
    ensures DurationS(BLINK) == 2.0 + 1.0 / 300.0
  {
    BlinkTracks();
    hide Track.Rides, Track.RideSrcS, Track.RideOutS, Track.ExitRatio, Track.SourceBarS, FirstTrack, TrackProblem;
    assert StartAt(BLINK, 1) == StartAt(BLINK, 0) + BodyS(BLINK, 0);
  }

  lemma PlainPicture(t: Track, index: nat, at: real, srcTo: real)
    requires t.Playable() && !t.Rides()
    ensures Played(t, index, at, srcTo) == [RestPicture(t, index, at, srcTo)]
  {
  }

  lemma BlinkPlayed(k: nat, at: real, srcTo: real)
    requires k < 2
    ensures Playable(BLINK)
    ensures Played(BLINK.tracks[k], k, at, srcTo) == [VideoSegment(k, 0.0, at, srcTo, 1.0)]
  {
    BlinkTracks();
    hide Track.Rides, Track.RideSrcS, Track.RideOutS, Track.ExitRatio, Track.SourceBarS, FirstTrack, TrackProblem;
    hide Played;
    PlainPicture(BLINK.tracks[k], k, at, srcTo);
  }

  lemma BlinkPicture()
    ensures Playable(BLINK)
    ensures AllVideo(BLINK)
            == [VideoSegment(0, 0.0, 0.0, 1.0 / 300.0, 1.0), VideoSegment(1, 0.0, 1.0 / 300.0, 2.0, 1.0)]
  {
    hide BodyS, StartAt, Played, DurationS;
    BlinkLength();
    BlinkPlayed(0, 0.0, BLINK.seams[0].outS);
    BlinkPlayed(1, 1.0 / 300.0, 2.0);
    var first := VideoSegment(0, 0.0, 0.0, 1.0 / 300.0, 1.0);
    assert SeamVideo(BLINK, 0, 0.0) == [first];
    hide SeamVideo;
    assert VideoUpTo(BLINK, 0) == [];
    assert VideoUpTo(BLINK, 1) == [first];
  }

  lemma BlinkCollapses()
    ensures Playable(BLINK) && Collapsed(AllVideo(BLINK)) == 1
  {
    BlinkPicture();
    hide AllVideo;
    var first, second := VideoSegment(0, 0.0, 0.0, 1.0 / 300.0, 1.0), VideoSegment(1, 0.0, 1.0 / 300.0, 2.0, 1.0);
    assert Collapses(first) && !Collapses(second);
    hide Collapses;
    assert [first][..0] == [] && Collapsed([first]) == 1;
    assert [first, second][..1] == [first];
  }

  /** The frames need not match: this plan is accepted, lasts 60 frames and a fraction, and gets 61. */
  lemma FramesCanExceed()
    ensures FirstProblem(BLINK) == None && Sound(BLINK) && Playable(BLINK)
    ensures FrameAt(LayoutOf(BLINK).durationS) == 60 && TotalFrames(LayoutOf(BLINK).video) == 61
  {
    BlinkAccepted();
    ValidIsSound(BLINK);
    BlinkLength();
    BlinkCollapses();
    hide Sound, FirstProblem, Playable, AllVideo, TotalFrames, Collapsed;
    PictureTiles(BLINK);
    FramesMatchIff(BLINK);
  }
}
