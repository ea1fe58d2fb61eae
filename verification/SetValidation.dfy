/** Validating a set plan as it is carried out: the first problem, in the order the checks run. */
module SetValidation {
  import opened Common
  import opened SetPlan
  import opened SetLayout

  /** The first thing wrong with a plan, looked for in the order the checks run. */
  ghost function FirstProblem(p: Plan): Option<Problem> {
    if p.tracks == [] then Some(NoTracks)
    else if |p.seams| + 1 != |p.tracks| then Some(SeamCount)
    else if FirstTrack(p, 0).Some? then FirstTrack(p, 0)
    else
      AllTracksPass(p, 0);
      TracksPlayable(p);
      if FirstSeam(p, 0).Some? then FirstSeam(p, 0)
      else if EndProblem(p).Some? then EndProblem(p)
      else FirstCard(p, 0)
  }

  ghost function FirstTrack(p: Plan, i: nat): Option<Problem>
    requires |p.seams| + 1 == |p.tracks| && i <= |p.tracks|
    decreases |p.tracks| - i
  {
    if i == |p.tracks| then None else if TrackProblem(p, i).Some? then TrackProblem(p, i) else FirstTrack(p, i + 1)
  }

  lemma {:induction false} AllTracksPass(p: Plan, i: nat)
    requires |p.seams| + 1 == |p.tracks| && i <= |p.tracks|
    ensures FirstTrack(p, i) == None <==> forall j | i <= j < |p.tracks| :: TrackProblem(p, j) == None
    decreases |p.tracks| - i
  {
    if i < |p.tracks| {
      AllTracksPass(p, i + 1);
    }
  }

  ghost function FirstSeam(p: Plan, k: nat): Option<Problem>
    requires Playable(p) && k <= |p.seams|
    decreases |p.seams| - k
  {
    if k == |p.seams| then None else if SeamProblem(p, k).Some? then SeamProblem(p, k) else FirstSeam(p, k + 1)
  }

  lemma {:induction false} AllSeamsPass(p: Plan, k: nat)
    requires Playable(p) && k <= |p.seams|
    ensures FirstSeam(p, k) == None <==> forall j | k <= j < |p.seams| :: SeamProblem(p, j) == None
    decreases |p.seams| - k
  {
    if k < |p.seams| {
      AllSeamsPass(p, k + 1);
    }
  }

  ghost function FirstCard(p: Plan, i: nat): Option<Problem>
    requires Playable(p) && i <= |p.cardsAt|
    decreases |p.cardsAt| - i
  {
    if i == |p.cardsAt| then None
    else if CardProblem(p, i, DurationS(p)).Some? then CardProblem(p, i, DurationS(p))
    else FirstCard(p, i + 1)
  }

  lemma {:induction false} AllCardsPass(p: Plan, i: nat)
    requires Playable(p) && i <= |p.cardsAt|
    ensures FirstCard(p, i) == None <==> forall j | i <= j < |p.cardsAt| :: CardProblem(p, j, DurationS(p)) == None
    decreases |p.cardsAt| - i
  {
    hide DurationS, CardProblem;
    if i < |p.cardsAt| {
      AllCardsPass(p, i + 1);
    }
  }

  /** A plan is accepted exactly when the layout can rely on it and its cards fall inside the set, in order. */
  lemma AcceptedIffSound(p: Plan)
    ensures FirstProblem(p) == None
       <==> Sound(p) && forall i | 0 <= i < |p.cardsAt| :: CardProblem(p, i, DurationS(p)) == None
  {
    hide TrackProblem, SeamProblem, EndProblem, CardProblem, DurationS;
    if |p.seams| + 1 == |p.tracks| {
      AllTracksPass(p, 0);
      if FirstTrack(p, 0) == None {
        TracksPlayable(p);
        AllSeamsPass(p, 0);
        AllCardsPass(p, 0);
      }
    }
  }

  /** A plan nothing is wrong with is one the layout can rely on. */
  lemma ValidIsSound(p: Plan)
    ensures FirstProblem(p) == None ==> Sound(p)
  {
    hide FirstProblem, Sound;
    AcceptedIffSound(p);
  }

  method ValidateTracks(p: Plan) returns (r: Option<Problem>)
    requires |p.seams| + 1 == |p.tracks|
    ensures r == FirstTrack(p, 0)
  {
    for i := 0 to |p.tracks|
      invariant FirstTrack(p, 0) == FirstTrack(p, i)
    {
      var problem := TrackProblem(p, i);
      if problem.Some? {
        return problem;
      }
    }
    return None;
  }

  method ValidateSeams(p: Plan) returns (r: Option<Problem>)
    requires Playable(p)
    ensures r == FirstSeam(p, 0)
  {
    hide SeamProblem;
    for k := 0 to |p.seams|
      invariant FirstSeam(p, 0) == FirstSeam(p, k)
    {
      var problem := SeamProblem(p, k);
      if problem.Some? {
        return problem;
      }
    }
    return None;
  }

  method ValidateCards(p: Plan) returns (r: Option<Problem>)
    requires Playable(p)
    ensures r == FirstCard(p, 0)
  {
    hide DurationS, CardProblem, AllAudio, AllVideo, StartAt;
    var layout := LayOut(p);
    var total := layout.durationS;
    assert total == DurationS(p);
    hide LayoutOf;
    for i := 0 to |p.cardsAt|
      invariant FirstCard(p, 0) == FirstCard(p, i)
    {
      var problem := CardProblem(p, i, total);
      if problem.Some? {
        return problem;
      }
    }
    return None;
  }

  method Validate(p: Plan) returns (r: Option<Problem>)
    ensures r == FirstProblem(p)
  {
    hide FirstTrack, FirstSeam, FirstCard, EndProblem, TrackProblem, SeamProblem;
    if p.tracks == [] {
      return Some(NoTracks);
    }
    if |p.seams| + 1 != |p.tracks| {
      return Some(SeamCount);
    }
    r := ValidateTracks(p);
    if r.Some? {
      return;
    }
    AllTracksPass(p, 0);
    TracksPlayable(p);
    r := ValidateSeams(p);
    if r.Some? {
      return;
    }
    r := EndProblem(p);
    if r.Some? {
      return;
    }
    r := ValidateCards(p);
  }
}
