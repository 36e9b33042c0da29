/** What one frame's detections amount to: which boxes are accepted, which
    model the frame is attributed to, and what is drawn on the frame. */
module Detection {
  import opened Types

  /** The two detectors, in the order the inference stage runs them. */
  datatype Model = Fire | Weapon

  /** One box reported by a detector: its class label, its confidence and
      its corners (already truncated to pixel coordinates). */
  datatype Box = Box(cls: string, conf: real, x1: int, y1: int, x2: int, y2: int)

  /** A box together with the detector that reported it. */
  datatype Candidate = Candidate(model: Model, box: Box)

  /** Confidence a box must strictly exceed to be accepted. */
  const Threshold: real := 0.40

  /** A box is kept when its confidence is strictly above the threshold. */
  predicate Accepted(c: Candidate)
  {
    c.box.conf > Threshold
  }

  function ModelName(m: Model): (name: string)
    ensures name != "None" && name != ""
  {
    match m
    case Fire => "Fire"
    case Weapon => "Weapon"
  }

  /** Fire boxes are drawn red, weapon boxes green. */
  function ColourOf(m: Model): (c: Colour)
    ensures c.blue == 0
    ensures m == Fire <==> c == Bgr(0, 0, 255)
    ensures m == Weapon <==> c == Bgr(0, 255, 0)
  {
    match m
    case Fire => Bgr(0, 0, 255)
    case Weapon => Bgr(0, 255, 0)
  }

  function Tagged(m: Model, bs: seq<Box>): seq<Candidate>
  {
    seq(|bs|, i requires 0 <= i < |bs| => Candidate(m, bs[i]))
  }

  /** The boxes of one frame in the order they are examined: every fire
      box, then every weapon box. */
  function Candidates(fire: seq<Box>, weapon: seq<Box>): (r: seq<Candidate>)
    ensures |r| == |fire| + |weapon|
    ensures forall i :: 0 <= i < |fire| ==> r[i] == Candidate(Fire, fire[i])
    ensures forall j :: 0 <= j < |weapon| ==> r[|fire| + j] == Candidate(Weapon, weapon[j])
  {
    Tagged(Fire, fire) + Tagged(Weapon, weapon)
  }

  /** The position of the last accepted candidate, if any. */
  function LastAcceptedAt(cs: seq<Candidate>): (r: Option<nat>)
    ensures r.None? <==> forall i :: 0 <= i < |cs| ==> !Accepted(cs[i])
    ensures r.Some? ==> r.value < |cs| && Accepted(cs[r.value])
    ensures r.Some? ==> forall j :: r.value < j < |cs| ==> !Accepted(cs[j])
  {
    if cs == [] then None
    else if Accepted(cs[|cs| - 1]) then Some(|cs| - 1)
    else LastAcceptedAt(cs[..|cs| - 1])
  }

  /** Some box of the frame was accepted. */
  predicate AnyAccepted(cs: seq<Candidate>)
  {
    LastAcceptedAt(cs).Some?
  }

  /** `detected_object` after the frame: the model of the last accepted
      box, or None. */
  function DetectedObject(cs: seq<Candidate>): (r: Option<Model>)
    ensures r.Some? <==> AnyAccepted(cs)
  {
    match LastAcceptedAt(cs)
    case None => None
    case Some(k) => Some(cs[k].model)
  }

  /** `detection` after the frame. */
  function DetectionFlag(cs: seq<Candidate>): (flag: string)
    ensures flag == "Yes" || flag == "No"
    ensures flag == "Yes" <==> DetectedObject(cs).Some?
  {
    if AnyAccepted(cs) then "Yes" else "No"
  }

  /** The rectangle and label drawn for one accepted candidate: the box's
      corners, its model's colour, its class and confidence as the label,
      and the label placed 10 pixels above the top-left corner. */
  function Drawn(c: Candidate): (r: Overlay)
    ensures r.labelX == r.x1 && r.labelY == r.y1 - 10
    ensures r.colour.red == 255 <==> c.model == Fire
  {
    var b := c.box;
    Overlay(b.x1, b.y1, b.x2, b.y2, ColourOf(c.model), b.cls, b.conf, b.x1, b.y1 - 10)
  }

  /** The positions of the accepted candidates, in increasing order. */
  function AcceptedIndices(cs: seq<Candidate>): (r: seq<nat>)
    ensures forall k :: 0 <= k < |r| ==> r[k] < |cs| && Accepted(cs[r[k]])
    ensures forall k, l :: 0 <= k < l < |r| ==> r[k] < r[l]
    ensures forall i :: 0 <= i < |cs| && Accepted(cs[i]) ==> i in r
  {
    if cs == [] then []
    else
      var init := AcceptedIndices(cs[..|cs| - 1]);
      assert forall i :: 0 <= i < |cs| - 1 ==> cs[..|cs| - 1][i] == cs[i];
      if Accepted(cs[|cs| - 1]) then init + [|cs| - 1] else init
  }

  /** Everything drawn on a frame for its candidates, in drawing order. */
  function Overlays(cs: seq<Candidate>): (r: seq<Overlay>)
    ensures |r| <= |cs|
    ensures r == [] <==> !AnyAccepted(cs)
    ensures r != [] ==> r[|r| - 1] == Drawn(cs[LastAcceptedAt(cs).value])
  {
    if cs == [] then []
    else if Accepted(cs[|cs| - 1]) then Overlays(cs[..|cs| - 1]) + [Drawn(cs[|cs| - 1])]
    else Overlays(cs[..|cs| - 1])
  }

  /** The frame once every accepted candidate has been drawn on it: the
      drawings already on it stay, the new ones follow, and a frame with no
      accepted box is left as it was. */
  function Annotated(f: Frame, cs: seq<Candidate>): (g: Frame)
    ensures g.pixels == f.pixels
    ensures |g.overlays| >= |f.overlays| && g.overlays[..|f.overlays|] == f.overlays
    ensures g.overlays[|f.overlays|..] == Overlays(cs)
    ensures !AnyAccepted(cs) ==> g == f
  {
    f.(overlays := f.overlays + Overlays(cs))
  }

  /** The threshold is strict: a box is accepted exactly when its
      confidence is above 0.40, whichever model reported it, so a box at
      exactly 0.40 or below is rejected. */
  lemma ThresholdIsStrict(m: Model, b: Box)
    ensures Accepted(Candidate(m, b)) <==> b.conf > 0.40
    ensures b.conf <= 0.40 ==> !Accepted(Candidate(m, b))
  {
  }

  /** `detection` is "Yes" exactly when some box clears the threshold, and
      then `detected_object` names a model; otherwise it is "No" and
      `detected_object` is None. */
  lemma DetectionIffAccepted(cs: seq<Candidate>)
    ensures DetectionFlag(cs) == "Yes" <==> exists i :: 0 <= i < |cs| && Accepted(cs[i])
    ensures DetectionFlag(cs) == "No" <==> forall i :: 0 <= i < |cs| ==> !Accepted(cs[i])
    ensures DetectedObject(cs).Some? <==> DetectionFlag(cs) == "Yes"
  {
  }

  /** Last wins, by examination order: a frame with an accepted weapon box
      is attributed to Weapon whatever its fire boxes score; a frame is
      attributed to Fire only when no weapon box is accepted. */
  lemma {:induction false} LastModelWins(fire: seq<Box>, weapon: seq<Box>)
    ensures (exists j :: 0 <= j < |weapon| && Accepted(Candidate(Weapon, weapon[j])))
            ==> DetectedObject(Candidates(fire, weapon)) == Some(Weapon)
    ensures (forall j :: 0 <= j < |weapon| ==> !Accepted(Candidate(Weapon, weapon[j])))
            && (exists i :: 0 <= i < |fire| && Accepted(Candidate(Fire, fire[i])))
            ==> DetectedObject(Candidates(fire, weapon)) == Some(Fire)
  {
    var cs := Candidates(fire, weapon);
    if j :| 0 <= j < |weapon| && Accepted(Candidate(Weapon, weapon[j])) {
      assert Accepted(cs[|fire| + j]);
      var k := LastAcceptedAt(cs).value;
      assert k >= |fire| + j;
      assert cs[k] == Candidate(Weapon, weapon[k - |fire|]);
    }
    if (forall j :: 0 <= j < |weapon| ==> !Accepted(Candidate(Weapon, weapon[j])))
       && (exists i :: 0 <= i < |fire| && Accepted(Candidate(Fire, fire[i])))
    {
      var i :| 0 <= i < |fire| && Accepted(Candidate(Fire, fire[i]));
      assert Accepted(cs[i]);
      assert forall j :: |fire| <= j < |cs| ==> cs[j] == Candidate(Weapon, weapon[j - |fire|]);
      var k := LastAcceptedAt(cs).value;
      assert k < |fire|;
      assert cs[k] == Candidate(Fire, fire[k]);
    }
  }

  /** The tie-break is not by confidence: a 0.95 fire box loses to a 0.41
      weapon box examined after it. */
  lemma LastWinsOverConfidence(f: Box, w: Box)
    requires f.conf == 0.95 && w.conf == 0.41
    ensures DetectedObject(Candidates([f], [w])) == Some(Weapon)
  {
    LastModelWins([f], [w]);
    assert Accepted(Candidate(Weapon, [w][0]));
  }

  /** Every overlay is the drawing of an accepted box, in the colour of a
      model. */
  lemma {:induction false} OverlaysMatchAccepted(cs: seq<Candidate>, k: nat)
    requires k < |Overlays(cs)|
    ensures exists i :: 0 <= i < |cs| && Accepted(cs[i]) && Overlays(cs)[k] == Drawn(cs[i])
    ensures Overlays(cs)[k].colour == Bgr(0, 0, 255) || Overlays(cs)[k].colour == Bgr(0, 255, 0)
  {
    var init := cs[..|cs| - 1];
    if Accepted(cs[|cs| - 1]) && k == |Overlays(cs)| - 1 {
      assert Overlays(cs)[k] == Drawn(cs[|cs| - 1]);
    } else {
      assert Overlays(cs)[k] == Overlays(init)[k];
      OverlaysMatchAccepted(init, k);
      var i :| 0 <= i < |init| && Accepted(init[i]) && Overlays(init)[k] == Drawn(init[i]);
      assert cs[i] == init[i];
    }
  }

  /** Exactly the accepted boxes are drawn, one overlay each, in the order
      they are examined. */
  lemma {:induction false} OverlaysFollowAccepted(cs: seq<Candidate>)
    ensures |Overlays(cs)| == |AcceptedIndices(cs)|
    ensures forall k :: 0 <= k < |Overlays(cs)| ==> Overlays(cs)[k] == Drawn(cs[AcceptedIndices(cs)[k]])
  {
    if cs != [] {
      var n := |cs| - 1;
      var init := cs[..n];
      OverlaysFollowAccepted(init);
      var drawn, idx := Overlays(init), AcceptedIndices(init);
      assert DrawingsOf(drawn, idx, init);
      DrawingsOfLonger(drawn, idx, init, cs);
      if Accepted(cs[n]) {
        assert Overlays(cs) == drawn + [Drawn(cs[n])];
        assert AcceptedIndices(cs) == idx + [n];
        DrawingsOfAppend(drawn, idx, cs, n);
      } else {
        assert Overlays(cs) == drawn && AcceptedIndices(cs) == idx;
      }
      assert DrawingsOf(Overlays(cs), AcceptedIndices(cs), cs);
    }
  }

  /** `os` are the drawings of the candidates of `cs` at positions `idx`. */
  predicate DrawingsOf(os: seq<Overlay>, idx: seq<nat>, cs: seq<Candidate>)
  {
    |os| == |idx| && forall k :: 0 <= k < |os| ==> idx[k] < |cs| && os[k] == Drawn(cs[idx[k]])
  }

  lemma DrawingsOfLonger(os: seq<Overlay>, idx: seq<nat>, init: seq<Candidate>, cs: seq<Candidate>)
    requires DrawingsOf(os, idx, init) && |init| <= |cs| && init == cs[..|init|]
    ensures DrawingsOf(os, idx, cs)
  {
    forall k | 0 <= k < |os|
      ensures idx[k] < |cs| && os[k] == Drawn(cs[idx[k]])
    {
      assert init[idx[k]] == cs[idx[k]];
    }
  }

  lemma DrawingsOfAppend(os: seq<Overlay>, idx: seq<nat>, cs: seq<Candidate>, n: nat)
    requires DrawingsOf(os, idx, cs) && n < |cs|
    ensures DrawingsOf(os + [Drawn(cs[n])], idx + [n], cs)
  {
  }

  /** No accepted box goes undrawn. */
  lemma AcceptedIsDrawn(cs: seq<Candidate>, i: nat)
    requires i < |cs| && Accepted(cs[i])
    ensures Drawn(cs[i]) in Overlays(cs)
  {
    OverlaysFollowAccepted(cs);
    var idx := AcceptedIndices(cs);
    var k :| 0 <= k < |idx| && idx[k] == i;
    assert Overlays(cs)[k] == Drawn(cs[i]);
  }

  /** Two drawings share a colour exactly when their boxes come from the
      same model, and share a rectangle exactly when the boxes' corners
      agree. */
  lemma DrawingTellsModelAndCorners(c: Candidate, d: Candidate)
    ensures Drawn(c).colour == Drawn(d).colour <==> c.model == d.model
    ensures (Drawn(c).x1, Drawn(c).y1, Drawn(c).x2, Drawn(c).y2) == (Drawn(d).x1, Drawn(d).y1, Drawn(d).x2, Drawn(d).y2)
            <==> (c.box.x1, c.box.y1, c.box.x2, c.box.y2) == (d.box.x1, d.box.y1, d.box.x2, d.box.y2)
  {
    if Drawn(c).colour == Drawn(d).colour {
      assert ColourOf(c.model) == ColourOf(d.model);
    }
  }
}
