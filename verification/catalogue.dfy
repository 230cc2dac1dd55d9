/** The imperative widget of babelCatalogue.js, seen after construction:
    the closure's mutable variables become the fields of a `Widget` record
    and each API method becomes a function from widget to widget. The THREE
    objects are reduced to the numbers the methods write into them (the
    page pivots' y-rotations, the page material's emissive intensity, the
    cover material's colour, opacity and transparency). */
module Catalogue {
  import opened Util

  datatype CoverLook = CoverLook(color: int, opacity: real, transparent: bool)

  datatype Widget = Widget(
    frontHingeAngle: real,
    backHingeAngle: real,
    /** `pages[i].rotation.y` */
    pageRotations: seq<real>,
    previousPageAngles: seq<real>,
    /** `currentGlowIntensity` */
    glow: real,
    /** `pageMat.emissiveIntensity` */
    emissive: real,
    confidenceScore: real,
    particlesEnabled: bool,
    particleIntensity: real,
    scrollOffset: real,
    scrollSpeed: real,
    pageContentEnabled: bool,
    cover: CoverLook,
    isHovering: bool,
    lastUpdateTime: real)

  /** One remembered angle per page, as the constructor allocates them. */
  predicate WellFormed(w: Widget)
  {
    |w.previousPageAngles| == |w.pageRotations|
  }

  /** Every page rotation below `lo` is raised to `lo`; the rest are kept. */
  function RaiseTo(rs: seq<real>, lo: real): (r: seq<real>)
    ensures |r| == |rs|
    ensures forall i :: 0 <= i < |r| ==> r[i] >= lo
    ensures forall i :: 0 <= i < |r| ==> (rs[i] >= lo ==> r[i] == rs[i]) && (rs[i] < lo ==> r[i] == lo)
  {
    seq(|rs|, i requires 0 <= i < |rs| => if rs[i] < lo then lo else rs[i])
  }

  /** Every page rotation above `hi` is lowered to `hi`; the rest are kept. */
  function LowerTo(rs: seq<real>, hi: real): (r: seq<real>)
    ensures |r| == |rs|
    ensures forall i :: 0 <= i < |r| ==> r[i] <= hi
    ensures forall i :: 0 <= i < |r| ==> (rs[i] <= hi ==> r[i] == rs[i]) && (rs[i] > hi ==> r[i] == hi)
  {
    seq(|rs|, i requires 0 <= i < |rs| => if rs[i] > hi then hi else rs[i])
  }

  /** `setFrontHinge(a)`: the front cover turns to `-a` and no page may lie
      beyond it: every page rotation ends up at least `-a`. */
  function SetFrontHinge(w: Widget, angle: real): (r: Widget)
    ensures r == w.(frontHingeAngle := angle, pageRotations := r.pageRotations)
    ensures |r.pageRotations| == |w.pageRotations|
    ensures forall i :: 0 <= i < |r.pageRotations| ==> r.pageRotations[i] >= -angle
    ensures forall i :: 0 <= i < |r.pageRotations| && w.pageRotations[i] >= -angle ==> r.pageRotations[i] == w.pageRotations[i]
  {
    w.(frontHingeAngle := angle, pageRotations := RaiseTo(w.pageRotations, -angle))
  }

  /** `setBackHinge(a)`: the back cover turns to `a` and every page
      rotation ends up at most `a`. */
  function SetBackHinge(w: Widget, angle: real): (r: Widget)
    ensures r == w.(backHingeAngle := angle, pageRotations := r.pageRotations)
    ensures |r.pageRotations| == |w.pageRotations|
    ensures forall i :: 0 <= i < |r.pageRotations| ==> r.pageRotations[i] <= angle
    ensures forall i :: 0 <= i < |r.pageRotations| && w.pageRotations[i] <= angle ==> r.pageRotations[i] == w.pageRotations[i]
  {
    w.(backHingeAngle := angle, pageRotations := LowerTo(w.pageRotations, angle))
  }

  /** Setting the front hinge and then a back hinge that is not behind it
      leaves every page between the two covers; setting a hinge twice is
      setting it once. */
  lemma PagesBetweenCovers(w: Widget, front: real, back: real)
    requires -front <= back
    ensures var r := SetBackHinge(SetFrontHinge(w, front), back);
            forall i :: 0 <= i < |r.pageRotations| ==> -front <= r.pageRotations[i] <= back
    ensures SetFrontHinge(SetFrontHinge(w, front), front) == SetFrontHinge(w, front)
    ensures SetBackHinge(SetBackHinge(w, back), back) == SetBackHinge(w, back)
  {
    var f := SetFrontHinge(w, front);
    var r := SetBackHinge(f, back);
    forall i | 0 <= i < |r.pageRotations|
      ensures -front <= r.pageRotations[i] <= back
    {
      assert f.pageRotations[i] >= -front;
    }
  }

  /** `setGlowIntensity`: glow and the material's emissive intensity both
      become the input clamped to [0, 2]. */
  function SetGlowIntensity(w: Widget, intensity: real): (r: Widget)
    ensures 0.0 <= r.glow <= 2.0 && r.emissive == r.glow
    ensures 0.0 <= intensity <= 2.0 ==> r.glow == intensity
    ensures r == w.(glow := r.glow, emissive := r.emissive)
  {
    var g := Clamp(intensity, 0.0, 2.0);
    w.(glow := g, emissive := g)
  }

  /** `setConfidenceScore`: the score is clamped to [0, 1]; glow is raised
      to half the score only when that is brighter, and particle intensity
      follows the score only while particles are enabled. */
  function SetConfidenceScore(w: Widget, score: real): (r: Widget)
    ensures 0.0 <= r.confidenceScore <= 1.0
    ensures 0.0 <= score <= 1.0 ==> r.confidenceScore == score
    ensures r.confidenceScore * 0.5 > w.glow ==> r.glow == r.emissive == r.confidenceScore * 0.5
    ensures r.confidenceScore * 0.5 <= w.glow ==> r.glow == w.glow && r.emissive == w.emissive
    ensures r.glow >= w.glow
    ensures w.particlesEnabled ==> r.particleIntensity == r.confidenceScore
    ensures !w.particlesEnabled ==> r.particleIntensity == w.particleIntensity
    ensures r == w.(confidenceScore := r.confidenceScore, glow := r.glow, emissive := r.emissive,
                    particleIntensity := r.particleIntensity)
  {
    var c := Clamp(score, 0.0, 1.0);
    var cg := c * 0.5;
    var w1 := w.(confidenceScore := c);
    var w2 := if cg > w.glow then w1.(glow := cg, emissive := cg) else w1;
    if w.particlesEnabled then w2.(particleIntensity := c) else w2
  }

  function SetParticleIntensity(w: Widget, intensity: real): (r: Widget)
    ensures 0.0 <= r.particleIntensity <= 1.0
    ensures 0.0 <= intensity <= 1.0 ==> r.particleIntensity == intensity
    ensures r == w.(particleIntensity := r.particleIntensity)
  {
    w.(particleIntensity := Clamp(intensity, 0.0, 1.0))
  }

  function SetScrollSpeed(w: Widget, speed: real): (r: Widget)
    ensures 0.0 <= r.scrollSpeed <= 5.0
    ensures 0.0 <= speed <= 5.0 ==> r.scrollSpeed == speed
    ensures r == w.(scrollSpeed := r.scrollSpeed)
  {
    w.(scrollSpeed := Clamp(speed, 0.0, 5.0))
  }

  /** The largest angular speed of any page since the last update, in
      radians per second (0 for no pages). */
  function MaxVelocity(cur: seq<real>, prev: seq<real>, dt: real): (v: real)
    requires |cur| == |prev| && dt != 0.0
    ensures v >= 0.0
    ensures forall i :: 0 <= i < |cur| ==> AbsR(cur[i] - prev[i]) / dt <= v
    ensures v == 0.0 || exists i :: 0 <= i < |cur| && v == AbsR(cur[i] - prev[i]) / dt
  {
    if cur == [] then 0.0
    else
      var rest := MaxVelocity(cur[1..], prev[1..], dt);
      assert forall i :: 1 <= i < |cur| ==> cur[1..][i - 1] == cur[i] && prev[1..][i - 1] == prev[i];
      MaxR(AbsR(cur[0] - prev[0]) / dt, rest)
  }

  /** The glow the pages are drawn towards: the faster of the page speed
      (scaled by 0.1, capped at 2) and half the confidence. */
  function TargetGlow(maxVelocity: real, confidence: real): real
  {
    MaxR(MinR(maxVelocity * 0.1, 2.0), confidence * 0.5)
  }

  /** `updateGlowFromFlipVelocity` at time `now` (milliseconds): the clock
      is always remembered; when no time has passed nothing else changes;
      otherwise every page's angle is remembered, the glow moves a tenth of
      the way to its target, and the material shows it clamped to [0, 2]. */
  function UpdateGlow(w: Widget, now: real): (r: Widget)
    requires WellFormed(w)
    ensures WellFormed(r)
    ensures r.lastUpdateTime == now
    ensures 0.0 <= r.emissive <= 2.0 || (now == w.lastUpdateTime && r.emissive == w.emissive)
    ensures now == w.lastUpdateTime ==> r == w.(lastUpdateTime := now)
    ensures now != w.lastUpdateTime ==>
              var dt := (now - w.lastUpdateTime) / 1000.0;
              var target := TargetGlow(MaxVelocity(w.pageRotations, w.previousPageAngles, dt), w.confidenceScore);
              && r.previousPageAngles == w.pageRotations
              && r.glow - target == 0.9 * (w.glow - target)
              && r.emissive == Clamp(r.glow, 0.0, 2.0)
              && r == w.(lastUpdateTime := now, previousPageAngles := r.previousPageAngles, glow := r.glow, emissive := r.emissive)
  {
    var dt := (now - w.lastUpdateTime) / 1000.0;
    if dt == 0.0 then w.(lastUpdateTime := now)
    else
      var target := TargetGlow(MaxVelocity(w.pageRotations, w.previousPageAngles, dt), w.confidenceScore);
      var g := w.glow * 0.9 + target * 0.1;
      w.(lastUpdateTime := now, previousPageAngles := w.pageRotations, glow := g, emissive := Clamp(g, 0.0, 2.0))
  }

  /** With a confidence in [0, 1] (as `setConfidenceScore` keeps it) the
      target lies in [0, 2], so a glow in [0, 2] stays there under every
      update and never moves away from the target. */
  lemma GlowStaysInRange(w: Widget, now: real)
    requires WellFormed(w)
    requires 0.0 <= w.confidenceScore <= 1.0 && 0.0 <= w.glow <= 2.0
    ensures 0.0 <= UpdateGlow(w, now).glow <= 2.0
    ensures UpdateGlow(w, now).emissive == UpdateGlow(w, now).glow || now == w.lastUpdateTime
  {
  }

  /** `morphMaterial`: the named preset colour, leather's for any other
      name; only glass is see-through (opacity 0.3, transparent). */
  function MorphMaterial(w: Widget, kind: string): (r: Widget)
    ensures kind == "metal" ==> r.cover.color == 0x777777
    ensures kind == "glass" ==> r.cover.color == 0xffffff
    ensures kind != "metal" && kind != "glass" ==> r.cover.color == 0x2b1e16
    ensures r.cover.transparent <==> kind == "glass"
    ensures r.cover.opacity == (if kind == "glass" then 0.3 else 1.0)
    ensures r == w.(cover := r.cover)
  {
    var color := if kind == "metal" then 0x777777 else if kind == "glass" then 0xffffff else 0x2b1e16;
    w.(cover := CoverLook(color, if kind == "glass" then 0.3 else 1.0, kind == "glass"))
  }

  /** The last morph wins: morphing twice is morphing to the second kind. */
  lemma MorphForgetsPrevious(w: Widget, a: string, b: string)
    ensures MorphMaterial(MorphMaterial(w, a), b) == MorphMaterial(w, b)
  {
  }

  /** `toggleHover`: flips the hover flag and hands the new value to the
      `onHoverChange` callback. */
  function ToggleHover(w: Widget): (r: (Widget, bool))
    ensures r.0.isHovering == !w.isHovering
    ensures r.1 == r.0.isHovering
    ensures r.0 == w.(isHovering := r.0.isHovering)
  {
    var h := !w.isHovering;
    (w.(isHovering := h), h)
  }

  lemma ToggleHoverTwice(w: Widget)
    ensures ToggleHover(ToggleHover(w).0).0 == w
    ensures ToggleHover(ToggleHover(w).0).1 == w.isHovering
  {
  }

  /** The page-content scroll in one frame of `animate`: advance by the
      scroll speed, and start over from 0 once past 512. */
  function ScrollFrame(w: Widget): (r: Widget)
    ensures !w.pageContentEnabled ==> r == w
    ensures w.pageContentEnabled && w.scrollOffset + w.scrollSpeed <= 512.0 ==> r.scrollOffset == w.scrollOffset + w.scrollSpeed
    ensures w.pageContentEnabled && w.scrollOffset + w.scrollSpeed > 512.0 ==> r.scrollOffset == 0.0
    ensures r == w.(scrollOffset := r.scrollOffset)
  {
    if !w.pageContentEnabled then w
    else
      var o := w.scrollOffset + w.scrollSpeed;
      w.(scrollOffset := if o > 512.0 then 0.0 else o)
  }

  /** With a non-negative speed the offset, once in [0, 512], stays there
      for ever: induction over any number of frames. */
  lemma {:induction false} ScrollStaysInRange(w: Widget, frames: nat)
    requires 0.0 <= w.scrollOffset <= 512.0 && w.scrollSpeed >= 0.0
    ensures 0.0 <= Frames(w, frames).scrollOffset <= 512.0
    ensures Frames(w, frames).scrollSpeed == w.scrollSpeed
    decreases frames
  {
    if frames > 0 {
      ScrollStaysInRange(ScrollFrame(w), frames - 1);
    }
  }

  /** `frames` consecutive scroll frames. */
  function Frames(w: Widget, frames: nat): Widget
    decreases frames
  {
    if frames == 0 then w else Frames(ScrollFrame(w), frames - 1)
  }
}
