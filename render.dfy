/**
 * The per-frame decision of `draw`: which labels, whether the mirrored video frame,
 * and where the two eye overlays go. Drawing primitives become `DrawAction` records;
 * p5's `atan2` and `dist` are arbitrary functions supplied in `Numerics`.
 */
module Render {
  import opened Wrappers

  datatype Point = Point(x: real, y: real)

  /** A detected face; a face without `keypoints` has the empty list. */
  datatype Face = Face(keypoints: seq<Point>)

  /** A decoded image, known by the URL it was loaded from. */
  datatype Image = Image(src: string)

  datatype Axis = X | Y

  function Coord(p: Point, axis: Axis): real {
    match axis
    case X => p.x
    case Y => p.y
  }

  // Canvas `createCanvas(W, 700)` with W = 640 * 1.8; the video is drawn W x H, H = 480 * 1.8.
  const CanvasWidth: real := 1152.0
  const CanvasHeight: real := 700.0
  const VideoWidth: real := 1152.0
  const VideoHeight: real := 864.0

  /** Iris refinement yields 478 keypoints; fewer means no iris data. */
  const KeypointCount: nat := 478
  const LeftIris: seq<nat> := [468, 469, 470, 471, 472]
  const RightIris: seq<nat> := [473, 474, 475, 476, 477]
  const LeftOuter: nat := 33
  const RightOuter: nat := 362
  /** Overlay edge length per unit of outer-corner distance. */
  const SizeFactor: real := 0.7

  const LoadingText := "Loading NFT…"
  const WebcamUnavailableText := "⚠️ 웹캠을 사용할 수 없습니다."
  const InitializingText := "웹캠을 초기화하는 중..."
  const ShowFaceText := "Show your face…"

  /** p5's `atan2(y, x)` and `dist(x1, y1, x2, y2)`; their numerics are not modelled. */
  datatype Numerics = Numerics(atan2: (real, real) -> real, dist: (real, real, real, real) -> real)

  /**
   * Where and how one overlay image is drawn: `translate(center)`, `rotate(angle)`,
   * `scale(flipX, flipY)`, then a `size` x `size` image centred on `center` (`imageMode(CENTER)`).
   */
  datatype Placement = Placement(center: Point, angle: real, size: real, flipX: real, flipY: real)

  datatype DrawAction =
    | Background(gray: int)
    | Label(x: real, y: real, text: string)
    /** `translate(originX, 0); scale(scaleX, scaleY); image(video, 0, 0, w, h)` */
    | VideoFrame(originX: real, scaleX: real, scaleY: real, w: real, h: real)
    | Overlay(img: Image, at: Placement)

  /** The session state that one frame reads. */
  datatype FrameInputs = FrameInputs(
    videoError: bool,
    loading: bool,
    hasVideo: bool,
    faces: seq<Face>,
    nftImg: Option<Image>)

  // ---------------------------------------------------------------- centroid

  predicate InRange(points: seq<Point>, idxs: seq<nat>) {
    forall k :: 0 <= k < |idxs| ==> idxs[k] < |points|
  }

  /** The sum of one coordinate over the selected points, accumulated left to right. */
  function Sum(points: seq<Point>, idxs: seq<nat>, axis: Axis): real
    requires InRange(points, idxs)
    decreases |idxs|
  {
    if |idxs| == 0 then 0.0
    else Sum(points, idxs[..|idxs| - 1], axis) + Coord(points[idxs[|idxs| - 1]], axis)
  }

  /** The arithmetic mean of the selected points, coordinate by coordinate. */
  function MeanPoint(points: seq<Point>, idxs: seq<nat>): Point
    requires |idxs| > 0 && InRange(points, idxs)
  {
    var n := |idxs| as real;
    Point(Sum(points, idxs, X) / n, Sum(points, idxs, Y) / n)
  }

  /** Lines 120-129: `centroid(points, idxs)` with its accumulating loop. */
  method Centroid(points: seq<Point>, idxs: seq<nat>) returns (c: Point)
    requires |idxs| > 0 && InRange(points, idxs)
    ensures c == MeanPoint(points, idxs)
  {
    var sx, sy := 0.0, 0.0;
    for k := 0 to |idxs|
      invariant sx == Sum(points, idxs[..k], X)
      invariant sy == Sum(points, idxs[..k], Y)
    {
      assert idxs[..k + 1][..k] == idxs[..k];
      sx := sx + points[idxs[k]].x;
      sy := sy + points[idxs[k]].y;
    }
    assert idxs[..|idxs|] == idxs;
    var n := |idxs| as real;
    c := Point(sx / n, sy / n);
  }

  lemma {:induction false} SumAppend(points: seq<Point>, a: seq<nat>, b: seq<nat>, axis: Axis)
    requires InRange(points, a) && InRange(points, b)
    ensures InRange(points, a + b)
    ensures Sum(points, a + b, axis) == Sum(points, a, axis) + Sum(points, b, axis)
    decreases |b|
  {
    assert InRange(points, a + b);
    if |b| > 0 {
      var b' := b[..|b| - 1];
      assert (a + b)[..|a + b| - 1] == a + b';
      SumAppend(points, a, b', axis);
    } else {
      assert a + b == a;
    }
  }

  lemma MultisetRemoveAt(b: seq<nat>, k: nat)
    requires k < |b|
    ensures multiset(b[..k] + b[k + 1..]) == multiset(b) - multiset{b[k]}
  {
    assert b == b[..k] + [b[k]] + b[k + 1..];
    assert multiset(b) == multiset(b[..k]) + multiset{b[k]} + multiset(b[k + 1..]);
  }

  /** Taking one index out of the list takes its coordinate out of the sum. */
  lemma SumRemoveAt(points: seq<Point>, b: seq<nat>, k: nat, axis: Axis)
    requires InRange(points, b) && k < |b|
    ensures InRange(points, b[..k] + b[k + 1..])
    ensures Sum(points, b, axis) == Sum(points, b[..k] + b[k + 1..], axis) + Coord(points[b[k]], axis)
  {
    var v := b[k];
    assert b == b[..k] + [v] + b[k + 1..];
    assert InRange(points, b[..k]) && InRange(points, b[k + 1..]) && InRange(points, [v]);
    SumAppend(points, b[..k], [v], axis);
    SumAppend(points, b[..k] + [v], b[k + 1..], axis);
    SumAppend(points, b[..k], b[k + 1..], axis);
    assert Sum(points, [v], axis) == Coord(points[v], axis) by {
      assert [v][..0] == [];
    }
  }

  /** The sum over an index list does not depend on the order of the indices. */
  lemma {:induction false} SumPermutation(points: seq<Point>, a: seq<nat>, b: seq<nat>, axis: Axis)
    requires InRange(points, a) && InRange(points, b)
    requires multiset(a) == multiset(b)
    ensures Sum(points, a, axis) == Sum(points, b, axis)
    decreases |a|
  {
    if |a| == 0 {
      assert |b| == |multiset(b)| == 0;
    } else {
      var v := a[|a| - 1];
      var a' := a[..|a| - 1];
      assert v in multiset(b) by {
        assert a == a' + [v];
      }
      var k :| 0 <= k < |b| && b[k] == v;
      MultisetRemoveAt(a, |a| - 1);
      MultisetRemoveAt(b, k);
      assert a[..|a| - 1] + a[|a|..] == a';
      SumRemoveAt(points, a, |a| - 1, axis);
      SumRemoveAt(points, b, k, axis);
      SumPermutation(points, a', b[..k] + b[k + 1..], axis);
    }
  }

  /** The centroid is order-independent: any permutation of the index list gives the same point. */
  lemma MeanPointPermutation(points: seq<Point>, a: seq<nat>, b: seq<nat>)
    requires |a| > 0 && InRange(points, a) && InRange(points, b)
    requires multiset(a) == multiset(b)
    ensures |b| > 0 && MeanPoint(points, a) == MeanPoint(points, b)
  {
    assert |a| == |multiset(a)| == |multiset(b)| == |b|;
    SumPermutation(points, a, b, X);
    SumPermutation(points, a, b, Y);
  }

  lemma {:induction false} SumOfSame(points: seq<Point>, idxs: seq<nat>, p: Point, axis: Axis)
    requires InRange(points, idxs)
    requires forall k :: 0 <= k < |idxs| ==> points[idxs[k]] == p
    ensures Sum(points, idxs, axis) == |idxs| as real * Coord(p, axis)
    decreases |idxs|
  {
    if |idxs| > 0 {
      SumOfSame(points, idxs[..|idxs| - 1], p, axis);
    }
  }

  /** When all selected points coincide, their centroid is that point. */
  lemma MeanPointOfSame(points: seq<Point>, idxs: seq<nat>, p: Point)
    requires |idxs| > 0 && InRange(points, idxs)
    requires forall k :: 0 <= k < |idxs| ==> points[idxs[k]] == p
    ensures MeanPoint(points, idxs) == p
  {
    SumOfSame(points, idxs, p, X);
    SumOfSame(points, idxs, p, Y);
  }

  // ---------------------------------------------------------------- placement

  predicate HasIris(face: Face) {
    |face.keypoints| >= KeypointCount
  }

  /** Lines 72-116: the two overlay placements for a face with iris keypoints. */
  function EyePlacements(kps: seq<Point>, num: Numerics): (r: (Placement, Placement))
    requires |kps| >= KeypointCount
    ensures InRange(kps, LeftIris) && InRange(kps, RightIris)
    ensures r.0.center == MeanPoint(kps, LeftIris) && r.1.center == MeanPoint(kps, RightIris)
    ensures r.0.angle == r.1.angle ==
      num.atan2(kps[LeftOuter].y - kps[RightOuter].y, kps[LeftOuter].x - kps[RightOuter].x)
    ensures r.0.size == r.1.size ==
      SizeFactor * num.dist(kps[LeftOuter].x, kps[LeftOuter].y, kps[RightOuter].x, kps[RightOuter].y)
    ensures r.0.flipX == 1.0 && r.1.flipX == -1.0 && r.0.flipY == r.1.flipY == -1.0
  {
    var l := MeanPoint(kps, LeftIris);
    var r := MeanPoint(kps, RightIris);
    var lx, ly := kps[LeftOuter].x, kps[LeftOuter].y;
    var rx, ry := kps[RightOuter].x, kps[RightOuter].y;
    var angle := num.atan2(ly - ry, lx - rx);
    var eyeDist := num.dist(lx, ly, rx, ry);
    var size := eyeDist * SizeFactor;
    (Placement(l, angle, size, 1.0, -1.0), Placement(r, angle, size, -1.0, -1.0))
  }

  /** Everything `draw` needs before it may place overlays. */
  predicate OverlaysDue(s: FrameInputs) {
    !s.videoError && s.hasVideo && |s.faces| > 0 && HasIris(s.faces[0]) && s.nftImg.Some?
  }

  const MirroredVideo := VideoFrame(CanvasWidth, -1.0, 1.0, VideoWidth, VideoHeight)

  function TopLabel(text: string): DrawAction { Label(CanvasWidth / 2.0, 20.0, text) }
  function MiddleLabel(text: string): DrawAction { Label(CanvasWidth / 2.0, CanvasHeight / 2.0, text) }
  function BottomLabel(text: string): DrawAction { Label(CanvasWidth / 2.0, CanvasHeight - 20.0, text) }

  /** Lines 63-116: what is drawn over the video frame, from the detected faces onwards. */
  function FaceActions(s: FrameInputs, num: Numerics): (r: seq<DrawAction>)
    ensures forall i :: 0 <= i < |r| ==> !r[i].VideoFrame? && !r[i].Background?
    ensures |s.faces| == 0 ==> r == [BottomLabel(ShowFaceText)]
    ensures |s.faces| > 0 && !HasIris(s.faces[0]) ==> r == []
    ensures |s.faces| > 0 && HasIris(s.faces[0]) && s.nftImg.None? ==> r == [TopLabel(LoadingText)]
    ensures (exists i :: 0 <= i < |r| && r[i].Overlay?) <==> |s.faces| > 0 && HasIris(s.faces[0]) && s.nftImg.Some?
    ensures |s.faces| > 0 && HasIris(s.faces[0]) && s.nftImg.Some? ==>
      var eyes := EyePlacements(s.faces[0].keypoints, num);
      r == [Overlay(s.nftImg.value, eyes.0), Overlay(s.nftImg.value, eyes.1)]
  {
    if |s.faces| == 0 then [BottomLabel(ShowFaceText)]
    else if !HasIris(s.faces[0]) then []
    else if s.nftImg.None? then [TopLabel(LoadingText)]
    else
      var eyes := EyePlacements(s.faces[0].keypoints, num);
      var r := [Overlay(s.nftImg.value, eyes.0), Overlay(s.nftImg.value, eyes.1)];
      assert r[0].Overlay?;
      r
  }

  /** Lines 36-117: the draw actions of one frame, in order. */
  function Frame(s: FrameInputs, num: Numerics): (r: seq<DrawAction>)
    ensures |r| >= 2 && r[0] == Background(0)
    // a webcam error shows one label and nothing else
    ensures s.videoError ==> r == [Background(0), if s.loading then TopLabel(LoadingText) else MiddleLabel(WebcamUnavailableText)]
    ensures !s.videoError && !s.hasVideo ==> r == [Background(0), MiddleLabel(InitializingText)]
    // the mirrored video comes right after the background whenever there is a video
    ensures (exists i :: 0 <= i < |r| && r[i].VideoFrame?) <==> !s.videoError && s.hasVideo
    ensures !s.videoError && s.hasVideo ==> r[1] == MirroredVideo
    ensures !s.videoError && s.hasVideo && s.loading ==> |r| >= 3 && r[2] == TopLabel(LoadingText)
    // after the video frame and the optional loading label come the face-dependent actions
    ensures !s.videoError && s.hasVideo ==>
      var skip := 2 + (if s.loading then 1 else 0);
      |r| >= skip && r[skip..] == FaceActions(s, num)
    // overlays: exactly two, last, and only when everything is ready
    ensures (exists i :: 0 <= i < |r| && r[i].Overlay?) <==> OverlaysDue(s)
    ensures OverlaysDue(s) ==>
      |r| >= 4 &&
      (forall i :: 0 <= i < |r| - 2 ==> !r[i].Overlay?) &&
      var eyes := EyePlacements(s.faces[0].keypoints, num);
      r[|r| - 2] == Overlay(s.nftImg.value, eyes.0) &&
      r[|r| - 1] == Overlay(s.nftImg.value, eyes.1)
  {
    if s.videoError then
      [Background(0), if s.loading then TopLabel(LoadingText) else MiddleLabel(WebcamUnavailableText)]
    else if !s.hasVideo then
      [Background(0), MiddleLabel(InitializingText)]
    else
      var status := if s.loading then [TopLabel(LoadingText)] else [];
      var rest := FaceActions(s, num);
      var head := [Background(0), MirroredVideo] + status;
      var r := head + rest;
      assert forall i :: 0 <= i < |head| ==> !head[i].Overlay?;
      assert r[|head|..] == rest;
      assert forall i :: |head| <= i < |r| ==> r[i] == rest[i - |head|];
      assert r[1].VideoFrame?;
      r
  }
}
