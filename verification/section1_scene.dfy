/** The intro scene of the pre-register page: scroll offset in, character
    pose and layer opacities out. All arithmetic is over exact reals. */
module Section1Scene {
  import opened Wrappers

  function Min(a: real, b: real): real { if a <= b then a else b }
  function Max(a: real, b: real): real { if a <= b then b else a }

  /** Linear interpolation from `a` (at t = 0) to `b` (at t = 1); no clamping. */
  function Lerp(a: real, b: real, t: real): (r: real)
    ensures t == 0.0 ==> r == a
    ensures t == 1.0 ==> r == b
    ensures 0.0 <= t <= 1.0 ==> Min(a, b) <= r <= Max(a, b)
  {
    LerpBetween(a, b, t);
    a + (b - a) * t
  }

  lemma LerpBetween(a: real, b: real, t: real)
    ensures 0.0 <= t <= 1.0 ==> Min(a, b) <= a + (b - a) * t <= Max(a, b)
  {
    if 0.0 <= t <= 1.0 {
      if a <= b {
        MulNonNeg(b - a, t);
        MulNonNeg(b - a, 1.0 - t);
      } else {
        MulNonNeg(a - b, t);
        MulNonNeg(a - b, 1.0 - t);
      }
      assert (b - a) * t + (b - a) * (1.0 - t) == b - a;
    }
  }

  /** Moving `t` towards 1 moves the result towards `b`. */
  lemma LerpMonotoneInT(a: real, b: real, t1: real, t2: real)
    requires t1 <= t2
    ensures a <= b ==> Lerp(a, b, t1) <= Lerp(a, b, t2)
    ensures b <= a ==> Lerp(a, b, t2) <= Lerp(a, b, t1)
  {
    assert Lerp(a, b, t2) - Lerp(a, b, t1) == (b - a) * (t2 - t1);
    if a <= b {
      MulNonNeg(b - a, t2 - t1);
    } else {
      MulNonNeg(a - b, t2 - t1);
      assert (a - b) * (t2 - t1) == -((b - a) * (t2 - t1));
    }
  }

  /** Clamps `t` into [0,1]: below 0 gives 0, above 1 gives 1, otherwise `t`. */
  function Clamp01(t: real): (r: real)
    ensures 0.0 <= r <= 1.0
    ensures 0.0 <= t <= 1.0 ==> r == t
    ensures t <= 0.0 ==> r == 0.0
    ensures t >= 1.0 ==> r == 1.0
  {
    Min(Max(t, 0.0), 1.0)
  }

  lemma Clamp01Monotone(s: real, t: real)
    requires s <= t
    ensures Clamp01(s) <= Clamp01(t)
  {
  }

  /** Maps `value` from [inMin, inMax] onto [outMin, outMax], clamped at both
      ends. The source divides by `inMax - inMin` without a guard, so equal
      bounds are outside the domain. */
  function MapRange(value: real, inMin: real, inMax: real, outMin: real, outMax: real): (r: real)
    requires inMin != inMax
    ensures Min(outMin, outMax) <= r <= Max(outMin, outMax)
    ensures inMin < inMax && value <= inMin ==> r == outMin
    ensures inMin < inMax && value >= inMax ==> r == outMax
  {
    FractionBounds(value, inMin, inMax);
    Lerp(outMin, outMax, Clamp01((value - inMin) / (inMax - inMin)))
  }

  /** Where `value` falls relative to [inMin, inMax], as a fraction. */
  lemma FractionBounds(value: real, inMin: real, inMax: real)
    requires inMin != inMax
    ensures inMin < inMax && value <= inMin ==> (value - inMin) / (inMax - inMin) <= 0.0
    ensures inMin < inMax && value >= inMax ==> (value - inMin) / (inMax - inMin) >= 1.0
  {
    if inMin < inMax {
      if value <= inMin {
        DivNonPos(value - inMin, inMax - inMin);
      } else if value >= inMax {
        DivAtLeastOne(value - inMin, inMax - inMin);
      }
    }
  }

  lemma DivNonPos(x: real, y: real)
    requires x <= 0.0 && y > 0.0
    ensures x / y <= 0.0
  {
  }

  lemma DivAtLeastOne(x: real, y: real)
    requires x >= y > 0.0
    ensures x / y >= 1.0
  {
  }

  lemma DivMonotone(x1: real, x2: real, y: real)
    requires x1 <= x2 && y > 0.0
    ensures x1 / y <= x2 / y
  {
    assert x2 / y - x1 / y == (x2 - x1) / y;
  }

  /** On an increasing input range, `MapRange` is monotone in `value`: rising
      when outMin <= outMax, falling otherwise. */
  lemma MapRangeMonotone(v1: real, v2: real, inMin: real, inMax: real, outMin: real, outMax: real)
    requires inMin < inMax && v1 <= v2
    ensures outMin <= outMax ==> MapRange(v1, inMin, inMax, outMin, outMax) <= MapRange(v2, inMin, inMax, outMin, outMax)
    ensures outMax <= outMin ==> MapRange(v2, inMin, inMax, outMin, outMax) <= MapRange(v1, inMin, inMax, outMin, outMax)
  {
    DivMonotone(v1 - inMin, v2 - inMin, inMax - inMin);
    var c1 := Clamp01((v1 - inMin) / (inMax - inMin));
    var c2 := Clamp01((v2 - inMin) / (inMax - inMin));
    Clamp01Monotone((v1 - inMin) / (inMax - inMin), (v2 - inMin) / (inMax - inMin));
    LerpMonotoneInT(outMin, outMax, c1, c2);
  }

  /** Quadratic ease-in-out: 2t^2 below one half, 1 - 2(1-t)^2 from one half. */
  function EaseInOut(t: real): (r: real)
    ensures 0.0 <= t <= 1.0 ==> 0.0 <= r <= 1.0
    ensures t == 0.0 ==> r == 0.0
    ensures t == 0.5 ==> r == 0.5
    ensures t == 1.0 ==> r == 1.0
    ensures 0.0 <= t < 0.5 ==> r < 0.5
    ensures 0.5 <= t <= 1.0 ==> r >= 0.5
  {
    EaseBranchBounds(t);
    if t < 0.5 then 2.0 * t * t else -1.0 + (4.0 - 2.0 * t) * t
  }

  lemma EaseBranchBounds(t: real)
    ensures 0.0 <= t < 0.5 ==> 0.0 <= 2.0 * t * t < 0.5
    ensures 0.5 <= t <= 1.0 ==> 0.5 <= -1.0 + (4.0 - 2.0 * t) * t <= 1.0
  {
    if 0.0 <= t < 0.5 {
      SquareBelowHalf(t);
    }
    if 0.5 <= t <= 1.0 {
      var u := 1.0 - t;
      SquareBelowHalf(u);
      assert -1.0 + (4.0 - 2.0 * t) * t == 1.0 - 2.0 * (u * u);
    }
  }

  lemma SquareBelowHalf(u: real)
    requires 0.0 <= u <= 0.5
    ensures 0.0 <= u * u <= 0.5 * u
    ensures u < 0.5 ==> 2.0 * u * u < 0.5
  {
    MulNonNeg(u, 0.5 - u);
    MulNonNeg(u, u);
    assert u * (0.5 - u) == 0.5 * u - u * u;
  }

  lemma MulNonNeg(x: real, y: real)
    requires x >= 0.0 && y >= 0.0
    ensures x * y >= 0.0
  {
  }

  lemma ZeroProduct(x: real, y: real)
    requires x * y == 0.0 && y > 0.0
    ensures x == 0.0
  {
  }

  lemma SquareMonotone(x: real, y: real)
    requires 0.0 <= x <= y
    ensures x * x <= y * y
  {
    MulNonNeg(x, y - x);
    MulNonNeg(y, y - x);
    assert y * y - x * x == x * (y - x) + y * (y - x);
  }

  /** The two branches of `EaseInOut` meet at one half. */
  lemma EaseBranchesAgree()
    ensures 2.0 * 0.5 * 0.5 == -1.0 + (4.0 - 2.0 * 0.5) * 0.5 == 0.5
  {
  }

  /** The curve is point-symmetric about (1/2, 1/2). */
  lemma EaseInOutSymmetric(t: real)
    ensures EaseInOut(1.0 - t) == 1.0 - EaseInOut(t)
  {
    if t < 0.5 {
      assert 1.0 - t > 0.5;
      assert -1.0 + (4.0 - 2.0 * (1.0 - t)) * (1.0 - t) == 1.0 - 2.0 * t * t;
    } else if t > 0.5 {
      assert 1.0 - t < 0.5;
      assert 2.0 * (1.0 - t) * (1.0 - t) == 1.0 - (-1.0 + (4.0 - 2.0 * t) * t);
    }
  }

  /** On [0,1] the curve never goes backwards. */
  lemma EaseInOutMonotone(s: real, t: real)
    requires 0.0 <= s <= t <= 1.0
    ensures EaseInOut(s) <= EaseInOut(t)
  {
    if t < 0.5 {
      SquareMonotone(s, t);
    } else if s >= 0.5 {
      var u, v := 1.0 - t, 1.0 - s;
      assert 0.0 <= u <= v;
      SquareMonotone(u, v);
      assert EaseInOut(s) == 1.0 - 2.0 * v * v;
      assert EaseInOut(t) == 1.0 - 2.0 * u * u;
    }
  }

  /** Where the scene sits in its scroll-driven animation: the scroll offset
      as a fraction of the scroll distance, clamped to [0,1]. */
  function Progress(scrollTop: real, scrollDistance: real): (p: real)
    requires scrollDistance > 0.0
    ensures 0.0 <= p <= 1.0
    ensures scrollTop <= 0.0 ==> p == 0.0
    ensures scrollTop >= scrollDistance ==> p == 1.0
    ensures 0.0 <= scrollTop <= scrollDistance ==> p * scrollDistance == scrollTop
  {
    FractionBounds(scrollTop, 0.0, scrollDistance);
    Clamp01(scrollTop / scrollDistance)
  }

  /** Position and size of the Lottie character: pixel offsets from the
      bottom and left edges, a horizontal shift in percent of its own width,
      and its height in percent of the container. */
  datatype CharacterPose = CharacterPose(bottom: real, left: real, translateXPercent: real, heightPercent: real)

  /** The character's size at the end of the animation, in percent. */
  const CharEndHeightPct: real := 28.0

  /** Start anchor: below and to the left of the view, filling its height. */
  function StartPose(width: real, height: real): CharacterPose {
    CharacterPose(-height * 0.14, -width * 0.2, 0.0, 100.0)
  }

  /** End anchor: vertically centred, horizontally centred on the mid-line,
      scaled to `CharEndHeightPct` of the view's height. */
  function EndPose(width: real, height: real): CharacterPose {
    CharacterPose(height * (1.0 - CharEndHeightPct / 100.0) / 2.0, width / 2.0, -50.0, CharEndHeightPct)
  }

  /** Every channel of the pose interpolated with the same parameter `t`. */
  function PoseAt(width: real, height: real, t: real): (pose: CharacterPose)
    ensures t == 0.0 ==> pose == StartPose(width, height)
    ensures t == 1.0 ==> pose == EndPose(width, height)
  {
    var s, e := StartPose(width, height), EndPose(width, height);
    CharacterPose(
      Lerp(s.bottom, e.bottom, t),
      Lerp(s.left, e.left, t),
      Lerp(s.translateXPercent, e.translateXPercent, t),
      Lerp(s.heightPercent, e.heightPercent, t))
  }

  datatype SceneInput = SceneInput(scrollTop: real, containerWidth: real, containerHeight: real, scrollDistance: real)

  /** Opacities of the scene's layers. The cover fade-out is `None` when the
      source computes 0/0 (a container that has not been measured yet). */
  datatype SceneOpacities = SceneOpacities(title: real, hint: real, bubble1: real, bubble2: real, coverFadeOut: Option<real>)

  /** Everything the scene hands to its renderers for one scroll position. */
  datatype SceneFrame = SceneFrame(
    progress: real,
    eased: real,
    character: CharacterPose,
    opacities: SceneOpacities,
    logoTop: real,
    bubble1Top: real,
    bubble2Top: real,
    hintBottom: real,
    bubble1Visible: bool,
    bubble2Visible: bool)

  /** Full-bleed white cover: transparent until the scroll passes the
      scroll distance plus 70% of one container height, opaque from the
      scroll distance plus one container height. An unmeasured container
      (height 0) makes the window empty: the division by zero then yields
      an infinite fraction, clamped to 0 before the scroll distance and to
      1 after it, and no number (`None`, JavaScript's NaN) exactly at it. */
  function CoverFadeOut(scrollTop: real, scrollDistance: real, containerHeight: real): (r: Option<real>)
    ensures r.None? <==> containerHeight == 0.0 && scrollTop == scrollDistance
    ensures r.Some? ==> 0.0 <= r.value <= 1.0
    ensures containerHeight >= 0.0 && scrollTop < scrollDistance ==> r == Some(0.0)
    ensures containerHeight > 0.0 && scrollTop <= scrollDistance + containerHeight * 0.7 ==> r == Some(0.0)
    ensures containerHeight >= 0.0 && scrollTop >= scrollDistance + containerHeight && scrollTop != scrollDistance ==> r == Some(1.0)
  {
    var holdDistance := containerHeight;
    var fadeOutStart := scrollDistance + holdDistance * 0.7;
    var fadeOutEnd := scrollDistance + holdDistance;
    if fadeOutStart != fadeOutEnd then Some(MapRange(scrollTop, fadeOutStart, fadeOutEnd, 0.0, 1.0))
    else if scrollTop < fadeOutStart then Some(0.0)
    else if scrollTop > fadeOutEnd then Some(1.0)
    else None
  }

  /** Opacities of the title, scroll hint and the two speech bubbles: the
      hint is gone by 25% progress, the title by 35%; the first bubble holds
      until 35% and is gone by 55%; the second is absent until 70% and full
      from 90%. */
  function AuxOpacities(progress: real): (o: SceneOpacities)
    ensures 0.0 <= o.title <= 1.0 && 0.0 <= o.hint <= 1.0
    ensures 0.0 <= o.bubble1 <= 1.0 && 0.0 <= o.bubble2 <= 1.0
    ensures progress <= 0.0 ==> o.title == 1.0 && o.hint == 1.0
    ensures progress >= 0.25 ==> o.hint == 0.0
    ensures progress >= 0.35 ==> o.title == 0.0
    ensures progress <= 0.35 ==> o.bubble1 == 1.0
    ensures progress >= 0.55 ==> o.bubble1 == 0.0
    ensures progress <= 0.7 ==> o.bubble2 == 0.0
    ensures progress >= 0.9 ==> o.bubble2 == 1.0
    ensures o.coverFadeOut.None?
  {
    SceneOpacities(
      MapRange(progress, 0.0, 0.35, 1.0, 0.0),
      MapRange(progress, 0.0, 0.25, 1.0, 0.0),
      MapRange(progress, 0.35, 0.55, 1.0, 0.0),
      MapRange(progress, 0.7, 0.9, 0.0, 1.0),
      None)
  }

  /** As progress grows, the title, hint and first bubble only fade out and
      the second bubble only fades in. */
  lemma AuxOpacitiesMonotone(p1: real, p2: real)
    requires p1 <= p2
    ensures AuxOpacities(p2).title <= AuxOpacities(p1).title
    ensures AuxOpacities(p2).hint <= AuxOpacities(p1).hint
    ensures AuxOpacities(p2).bubble1 <= AuxOpacities(p1).bubble1
    ensures AuxOpacities(p1).bubble2 <= AuxOpacities(p2).bubble2
  {
    MapRangeMonotone(p1, p2, 0.0, 0.35, 1.0, 0.0);
    MapRangeMonotone(p1, p2, 0.0, 0.25, 1.0, 0.0);
    MapRangeMonotone(p1, p2, 0.35, 0.55, 1.0, 0.0);
    MapRangeMonotone(p1, p2, 0.7, 0.9, 0.0, 1.0);
  }

  /** The scene for one scroll position; the scroll distance is a positive
      configuration constant of the page. The character pose, the auxiliary
      opacities and the cover are driven by one progress value. */
  function Scene(input: SceneInput): (f: SceneFrame)
    requires input.scrollDistance > 0.0
    ensures 0.0 <= f.progress <= 1.0 && 0.0 <= f.eased <= 1.0
    ensures f.progress == Progress(input.scrollTop, input.scrollDistance)
    ensures f.eased == EaseInOut(f.progress)
    ensures f.character == PoseAt(input.containerWidth, input.containerHeight, f.eased)
    ensures f.opacities == AuxOpacities(f.progress).(coverFadeOut := CoverFadeOut(input.scrollTop, input.scrollDistance, input.containerHeight))
    ensures f.bubble1Visible <==> f.opacities.bubble1 > 0.01
    ensures f.bubble2Visible <==> f.opacities.bubble2 > 0.01
    ensures f.bubble1Top == 60.0
    ensures f.logoTop == 0.04 * input.containerHeight && f.bubble2Top == 0.3 * input.containerHeight
    ensures f.hintBottom == 0.06 * input.containerHeight
  {
    var progress := Progress(input.scrollTop, input.scrollDistance);
    var ep := EaseInOut(progress);
    var h := input.containerHeight;
    var opacities := AuxOpacities(progress).(coverFadeOut := CoverFadeOut(input.scrollTop, input.scrollDistance, h));
    SceneFrame(
      progress, ep, PoseAt(input.containerWidth, h, ep), opacities,
      h * 0.04, 60.0, h * 0.3, h * 0.06,
      opacities.bubble1 > 0.01, opacities.bubble2 > 0.01)
  }

  /** Progress is the clamped scroll fraction for every scroll offset, even
      negative or beyond the scroll distance; half way down it is one half,
      and so is the eased parameter. */
  lemma ProgressClamped(scrollTop: real, scrollDistance: real)
    requires scrollDistance > 0.0
    ensures 0.0 <= Progress(scrollTop, scrollDistance) <= 1.0
    ensures scrollTop >= scrollDistance ==> Progress(scrollTop, scrollDistance) == 1.0
    ensures scrollTop <= 0.0 ==> Progress(scrollTop, scrollDistance) == 0.0
    ensures scrollTop == scrollDistance / 2.0 ==> Progress(scrollTop, scrollDistance) == 0.5 == EaseInOut(0.5)
  {
    if scrollTop == scrollDistance / 2.0 {
      var p := Progress(scrollTop, scrollDistance);
      assert (p - 0.5) * scrollDistance == 0.0;
      ZeroProduct(p - 0.5, scrollDistance);
    }
  }

  /** At progress 0 the character is at the start anchor; at progress 1 it
      is at the end anchor: bottom 0.36 H, left W/2, shifted -50%, 28% tall. */
  lemma CharacterAnchors(width: real, height: real)
    ensures PoseAt(width, height, EaseInOut(0.0)) == CharacterPose(-height * 0.14, -width * 0.2, 0.0, 100.0)
    ensures PoseAt(width, height, EaseInOut(1.0)) == CharacterPose(height * 0.36, width / 2.0, -50.0, 28.0)
  {
  }

  /** The four channels share one parameter: each has moved the same
      fraction `t` of the way from its start anchor to its end anchor. */
  lemma PoseChannels(width: real, height: real, t: real)
    ensures var p, s, e := PoseAt(width, height, t), StartPose(width, height), EndPose(width, height);
      && p.translateXPercent == -50.0 * t
      && p.heightPercent == 100.0 - 72.0 * t
      && p.bottom - s.bottom == t * (e.bottom - s.bottom)
      && p.left - s.left == t * (e.left - s.left)
  {
  }

  /** Scrolling further down never moves the character backwards: it rises,
      moves right, shifts left in its own frame and shrinks (for measured,
      non-negative container sizes). */
  lemma CharacterMovesMonotonically(width: real, height: real, scrollDistance: real, top1: real, top2: real)
    requires scrollDistance > 0.0 && top1 <= top2
    requires width >= 0.0 && height >= 0.0
    ensures var c1 := PoseAt(width, height, EaseInOut(Progress(top1, scrollDistance)));
      var c2 := PoseAt(width, height, EaseInOut(Progress(top2, scrollDistance)));
      && c1.bottom <= c2.bottom
      && c1.left <= c2.left
      && c2.translateXPercent <= c1.translateXPercent
      && c2.heightPercent <= c1.heightPercent
  {
    var p1, p2 := Progress(top1, scrollDistance), Progress(top2, scrollDistance);
    ProgressMonotone(top1, top2, scrollDistance);
    EaseInOutMonotone(p1, p2);
    var e1, e2 := EaseInOut(p1), EaseInOut(p2);
    var s, e := StartPose(width, height), EndPose(width, height);
    LerpMonotoneInT(s.bottom, e.bottom, e1, e2);
    LerpMonotoneInT(s.left, e.left, e1, e2);
    LerpMonotoneInT(s.translateXPercent, e.translateXPercent, e1, e2);
    LerpMonotoneInT(s.heightPercent, e.heightPercent, e1, e2);
  }

  lemma ProgressMonotone(top1: real, top2: real, scrollDistance: real)
    requires scrollDistance > 0.0 && top1 <= top2
    ensures Progress(top1, scrollDistance) <= Progress(top2, scrollDistance)
  {
    DivMonotone(top1, top2, scrollDistance);
    Clamp01Monotone(top1 / scrollDistance, top2 / scrollDistance);
  }

  /** Scrolling further down only fades the title, hint and first bubble out
      and the second bubble in. */
  lemma OpacitiesMonotone(scrollDistance: real, top1: real, top2: real)
    requires scrollDistance > 0.0 && top1 <= top2
    ensures var o1, o2 := AuxOpacities(Progress(top1, scrollDistance)), AuxOpacities(Progress(top2, scrollDistance));
      && o2.title <= o1.title && o2.hint <= o1.hint
      && o2.bubble1 <= o1.bubble1 && o1.bubble2 <= o2.bubble2
  {
    ProgressMonotone(top1, top2, scrollDistance);
    AuxOpacitiesMonotone(Progress(top1, scrollDistance), Progress(top2, scrollDistance));
  }

  /** Worked example: scroll distance 1200, container 375 x 667. */
  lemma SceneExample()
    ensures Progress(600.0, 1200.0) == 0.5 == EaseInOut(Progress(600.0, 1200.0))
    ensures Progress(1200.0, 1200.0) == 1.0
    ensures Progress(2000.0, 1200.0) == 1.0
  {
    ProgressClamped(600.0, 1200.0);
  }

  /** Worked example for the cover: with a 667-pixel container it is clear
      at 1500 and opaque at 2000. */
  lemma CoverFadeOutExample()
    ensures CoverFadeOut(2000.0, 1200.0, 667.0) == Some(1.0)
    ensures CoverFadeOut(1500.0, 1200.0, 667.0) == Some(0.0)
  {
    assert 1500.0 <= 1200.0 + 667.0 * 0.7;
    assert CoverFadeOut(1500.0, 1200.0, 667.0) == Some(0.0);
  }

  /** Before the container is measured the cover jumps from clear to opaque
      at the scroll distance, where it is no number at all. */
  lemma CoverFadeOutUnmeasuredExample()
    ensures CoverFadeOut(1200.0, 1200.0, 0.0) == None
    ensures CoverFadeOut(1199.0, 1200.0, 0.0) == Some(0.0)
    ensures CoverFadeOut(1500.0, 1200.0, 0.0) == Some(1.0)
  {
  }
}
