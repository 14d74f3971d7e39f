/** Which detected object a camera follows: the overlap of two rectangles, and the search for a face or a
    head that belongs to the object being tracked. */
module TargetSelection {
  import opened Options

  const TRACKING_LOST_CHECK := 0.0001
  const IOU_THRESHOLD := 0.1
  const IOU_DEFAULT := 0.0

  /** A region as the camera reports it: `width` and `height` are the right and the bottom edge. */
  datatype Rect = Rect(topLeftX: real, topLeftY: real, width: real, height: real)

  datatype Kind =
    FACE | BASE_FACE_DETECTION | HUMAN_HEAD | HUMAN_BODY | SALIENT_DETECTION | OTHER_OBJECT(code: int)

  datatype MetadataObject = MetadataObject(objectId: int, kind: Kind, box: Rect, lockFocusTracked: bool)

  function Min(a: real, b: real): real {
    if b < a then b else a
  }

  function Max(a: real, b: real): real {
    if a < b then b else a
  }

  function Abs(a: real): real {
    if a < 0.0 then -a else a
  }

  // Overlap ----------------------------------------------------------------------------------------------

  function Area(r: Rect): real {
    (r.width - r.topLeftX) * (r.height - r.topLeftY)
  }

  predicate Degenerate(r: Rect) {
    r.width <= r.topLeftX || r.height <= r.topLeftY
  }

  /** The part common to both. */
  function Common(r: Rect, s: Rect): Rect {
    Rect(Max(r.topLeftX, s.topLeftX), Max(r.topLeftY, s.topLeftY), Min(r.width, s.width), Min(r.height, s.height))
  }

  /** The common area, as a share of the smaller rectangle. */
  function CalculateIOU(r: Rect, s: Rect): real {
    if r.width <= 0.0 || r.height <= 0.0 || s.width <= 0.0 || s.height <= 0.0 then IOU_DEFAULT
    else if Degenerate(r) || Degenerate(s) then IOU_DEFAULT
    else if Degenerate(Common(r, s)) then IOU_DEFAULT
    else if Min(Area(r), Area(s)) <= TRACKING_LOST_CHECK || Min(Area(r), Area(s)) <= 0.0 then IOU_DEFAULT
    else Area(Common(r, s)) / Min(Area(r), Area(s))
  }

  /** A rectangle the ratio is meant for. */
  predicate Proper(r: Rect) {
    && r.topLeftX < r.width && r.topLeftY < r.height && r.width > 0.0 && r.height > 0.0
    && (r.width - r.topLeftX) * (r.height - r.topLeftY) > 0.0001
  }

  predicate Inside(r: Rect, s: Rect) {
    s.topLeftX <= r.topLeftX && s.topLeftY <= r.topLeftY && r.width <= s.width && r.height <= s.height
  }

  /** A point strictly inside a rectangle. */
  predicate Covers(r: Rect, x: real, y: real) {
    r.topLeftX < x < r.width && r.topLeftY < y < r.height
  }

  lemma ProductIsSmaller(a: real, b: real, c: real, d: real)
    requires 0.0 < a <= c && 0.0 < b <= d
    ensures a * b <= c * d
    ensures a * b == c * d <==> a == c && b == d
  {
    assert c * d - a * b == (c - a) * d + a * (d - b);
    assert (c - a) * d >= 0.0 && a * (d - b) >= 0.0;
    if a < c {
      assert (c - a) * d > 0.0;
    }
    if b < d {
      assert a * (d - b) > 0.0;
    }
  }

  lemma CommonIsSmaller(r: Rect, s: Rect)
    requires !Degenerate(r) && !Degenerate(s) && !Degenerate(Common(r, s))
    ensures 0.0 < Area(Common(r, s)) <= Area(r)
    ensures Area(Common(r, s)) == Area(r) <==> Inside(r, s)
  {
    var c := Common(r, s);
    ProductIsSmaller(c.width - c.topLeftX, c.height - c.topLeftY, r.width - r.topLeftX, r.height - r.topLeftY);
    assert (c.width - c.topLeftX) * (c.height - c.topLeftY) > 0.0;
  }

  lemma OverlapIsSymmetric(r: Rect, s: Rect)
    ensures CalculateIOU(r, s) == CalculateIOU(s, r)
  {
    assert Common(r, s) == Common(s, r);
    assert Min(Area(r), Area(s)) == Min(Area(s), Area(r));
  }

  lemma QuotientAtMostOne(a: real, b: real)
    requires 0.0 < a <= b
    ensures 0.0 < a / b <= 1.0
    ensures a / b == 1.0 <==> a == b
  {
    assert (a / b) * b == a;
  }

  lemma OverlapIsAShare(r: Rect, s: Rect)
    ensures 0.0 <= CalculateIOU(r, s) <= 1.0
  {
    if CalculateIOU(r, s) != IOU_DEFAULT {
      CommonIsSmaller(r, s);
      CommonIsSmaller(s, r);
      assert Common(r, s) == Common(s, r);
      QuotientAtMostOne(Area(Common(r, s)), Min(Area(r), Area(s)));
    }
  }

  /** Full overlap is containment, one way or the other. */
  lemma FullOverlapIsContainment(r: Rect, s: Rect)
    requires Proper(r) && Proper(s)
    ensures CalculateIOU(r, s) == 1.0 <==> Inside(r, s) || Inside(s, r)
  {
    var c := Common(r, s);
    if !Degenerate(c) {
      assert c == Common(s, r);
      CommonIsSmaller(r, s);
      CommonIsSmaller(s, r);
      QuotientAtMostOne(Area(c), Min(Area(r), Area(s)));
    }
  }

  /** Some overlap is a common point of rectangles the ratio is meant for. */
  lemma SomeOverlapIsACommonPoint(r: Rect, s: Rect)
    ensures CalculateIOU(r, s) > 0.0 <==>
              Proper(r) && Proper(s) && exists x, y :: Covers(r, x, y) && Covers(s, x, y)
  {
    var c := Common(r, s);
    if Proper(r) && Proper(s) && !Degenerate(c) {
      CommonIsSmaller(r, s);
      CommonIsSmaller(s, r);
      assert c == Common(s, r);
      QuotientAtMostOne(Area(c), Min(Area(r), Area(s)));
      var x, y := (c.topLeftX + c.width) / 2.0, (c.topLeftY + c.height) / 2.0;
      assert Covers(r, x, y) && Covers(s, x, y);
    }
  }

  predicate Between(x: real, a: real, b: real) {
    a < x < b
  }

  lemma NoLowerEnd(a: real, b: real, c: real, d: real)
    requires a < b && c < d && a < c
    ensures exists x :: Between(x, a, b) && !Between(x, c, d)
  {
    assert Between((a + Min(b, c)) / 2.0, a, b);
  }

  lemma NoHigherEnd(a: real, b: real, c: real, d: real)
    requires a < b && c < d && b > d
    ensures exists x :: Between(x, a, b) && !Between(x, c, d)
  {
    assert Between((b + Max(a, d)) / 2.0, a, b);
  }

  lemma SameInterval(a: real, b: real, c: real, d: real)
    requires a < b && c < d
    requires forall x :: Between(x, a, b) <==> Between(x, c, d)
    ensures a == c && b == d
  {
    if a < c {
      NoLowerEnd(a, b, c, d);
    } else if c < a {
      NoLowerEnd(c, d, a, b);
    } else if b > d {
      NoHigherEnd(a, b, c, d);
    } else if d > b {
      NoHigherEnd(c, d, a, b);
    }
  }

  /** `box` is what the rectangles have in common, point by point. */
  ghost predicate Shared(r: Rect, s: Rect, box: Rect) {
    forall x, y :: Covers(r, x, y) && Covers(s, x, y) <==> Covers(box, x, y)
  }

  lemma SharedIsCommon(r: Rect, s: Rect, box: Rect)
    requires box.topLeftX < box.width && box.topLeftY < box.height && Shared(r, s, box)
    ensures Common(r, s) == box && !Degenerate(box)
  {
    var c := Common(r, s);
    var midX, midY := (box.topLeftX + box.width) / 2.0, (box.topLeftY + box.height) / 2.0;
    assert Covers(box, midX, midY);
    forall x ensures Between(x, c.topLeftX, c.width) <==> Between(x, box.topLeftX, box.width) {
      assert Covers(c, x, midY) <==> Covers(r, x, midY) && Covers(s, x, midY);
    }
    forall y ensures Between(y, c.topLeftY, c.height) <==> Between(y, box.topLeftY, box.height) {
      assert Covers(c, midX, y) <==> Covers(r, midX, y) && Covers(s, midX, y);
    }
    SameInterval(c.topLeftX, c.width, box.topLeftX, box.width);
    SameInterval(c.topLeftY, c.height, box.topLeftY, box.height);
  }

  /** A quotient by the smaller of two, multiplied again. */
  lemma QuotientBySmaller(ratio: real, common: real, a: real, b: real)
    requires a > 0.0 && b > 0.0 && ratio == common / Min(a, b)
    ensures a <= b ==> ratio * a == common
    ensures b <= a ==> ratio * b == common
  {
  }

  lemma OverlapIsAQuotient(r: Rect, s: Rect)
    requires Proper(r) && Proper(s) && !Degenerate(Common(r, s))
    ensures Area(r) > 0.0 && Area(s) > 0.0
    ensures CalculateIOU(r, s) == Area(Common(r, s)) / Min(Area(r), Area(s))
  {
  }

  lemma OverlapOfCommon(r: Rect, s: Rect)
    requires Proper(r) && Proper(s) && !Degenerate(Common(r, s))
    ensures Area(r) <= Area(s) ==> CalculateIOU(r, s) * Area(r) == Area(Common(r, s))
    ensures Area(s) <= Area(r) ==> CalculateIOU(r, s) * Area(s) == Area(Common(r, s))
  {
    OverlapIsAQuotient(r, s);
    QuotientBySmaller(CalculateIOU(r, s), Area(Common(r, s)), Area(r), Area(s));
  }

  /** The ratio is the area of what two rectangles share, in terms of the smaller of them. */
  lemma OverlapIsTheSharedArea(r: Rect, s: Rect, box: Rect)
    requires Proper(r) && Proper(s)
    requires box.topLeftX < box.width && box.topLeftY < box.height && Shared(r, s, box)
    ensures Area(r) <= Area(s) ==> CalculateIOU(r, s) * Area(r) == Area(box)
    ensures Area(s) <= Area(r) ==> CalculateIOU(r, s) * Area(s) == Area(box)
    ensures Area(box) == (box.width - box.topLeftX) * (box.height - box.topLeftY)
  {
    SharedIsCommon(r, s, box);
    OverlapOfCommon(r, s);
  }

  // The search for a face or a head ----------------------------------------------------------------------

  datatype Wanted = Faces | Heads | FacesOrHeads

  predicate Eligible(o: MetadataObject, wanted: Wanted) {
    match wanted
    case Faces => o.kind == FACE || o.kind == BASE_FACE_DETECTION
    case Heads => o.kind == HUMAN_HEAD
    case FacesOrHeads => o.kind == FACE || o.kind == BASE_FACE_DETECTION || o.kind == HUMAN_HEAD
  }

  predicate Matches(o: MetadataObject, rect: Rect, wanted: Wanted) {
    Eligible(o, wanted) && CalculateIOU(rect, o.box) > 0.1
  }

  ghost predicate NoMatch(objects: seq<MetadataObject>, rect: Rect, wanted: Wanted) {
    forall i | 0 <= i < |objects| :: !Matches(objects[i], rect, wanted)
  }

  /** The match of largest overlap, the first of them if there are several. */
  ghost predicate IsBest(objects: seq<MetadataObject>, rect: Rect, wanted: Wanted, at: int) {
    && 0 <= at < |objects| && Matches(objects[at], rect, wanted)
    && (forall i | 0 <= i < |objects| && Eligible(objects[i], wanted) ::
          CalculateIOU(rect, objects[i].box) <= CalculateIOU(rect, objects[at].box))
    && (forall i | 0 <= i < at && Eligible(objects[i], wanted) ::
          CalculateIOU(rect, objects[i].box) < CalculateIOU(rect, objects[at].box))
  }

  lemma BestIsUnique(objects: seq<MetadataObject>, rect: Rect, wanted: Wanted, a: int, b: int)
    requires IsBest(objects, rect, wanted, a) && IsBest(objects, rect, wanted, b)
    ensures a == b
  {
  }

  /** What a search for the best match answers. */
  ghost predicate BestMatch(objects: seq<MetadataObject>, rect: Rect, wanted: Wanted, r: Option<MetadataObject>) {
    match r
    case None => NoMatch(objects, rect, wanted)
    case Some(o) => exists at :: IsBest(objects, rect, wanted, at) && o == objects[at]
  }

  /** The number of matches. */
  function Count(objects: seq<MetadataObject>, rect: Rect, wanted: Wanted): nat {
    if |objects| == 0 then 0
    else
      var last := objects[|objects| - 1];
      Count(objects[..|objects| - 1], rect, wanted) + if Matches(last, rect, wanted) then 1 else 0
  }

  /** What a search for an unambiguous match answers. */
  ghost predicate UniqueMatch(objects: seq<MetadataObject>, rect: Rect, wanted: Wanted, r: Option<MetadataObject>) {
    match r
    case None => Count(objects, rect, wanted) != 1
    case Some(o) => Count(objects, rect, wanted) == 1 && o in objects && Matches(o, rect, wanted)
  }

  /** The face of a body, or else its head. */
  ghost predicate FaceOrHeadOf(objects: seq<MetadataObject>, body: MetadataObject, r: Option<MetadataObject>) {
    if Count(objects, body.box, Faces) == 1 then r.Some? && UniqueMatch(objects, body.box, Faces, r)
    else UniqueMatch(objects, body.box, Heads, r)
  }

  lemma {:induction false} NoneCounted(objects: seq<MetadataObject>, rect: Rect, wanted: Wanted)
    ensures Count(objects, rect, wanted) == 0 <==> NoMatch(objects, rect, wanted)
  {
    if |objects| > 0 {
      NoneCounted(objects[..|objects| - 1], rect, wanted);
    }
  }

  /** A count of one means a single position. */
  lemma {:induction false} OneCounted(objects: seq<MetadataObject>, rect: Rect, wanted: Wanted, i: int, j: int)
    requires Count(objects, rect, wanted) == 1
    requires 0 <= i < |objects| && Matches(objects[i], rect, wanted)
    requires 0 <= j < |objects| && Matches(objects[j], rect, wanted)
    ensures i == j
  {
    var init := objects[..|objects| - 1];
    NoneCounted(init, rect, wanted);
    if i < |init| && j < |init| {
      OneCounted(init, rect, wanted, i, j);
    }
  }

  ghost predicate OnlyMatch(objects: seq<MetadataObject>, rect: Rect, wanted: Wanted, at: int) {
    && 0 <= at < |objects| && Matches(objects[at], rect, wanted)
    && forall i | 0 <= i < |objects| && i != at :: !Matches(objects[i], rect, wanted)
  }

  lemma {:induction false} OnlyMatchIsCounted(objects: seq<MetadataObject>, rect: Rect, wanted: Wanted, at: int)
    requires OnlyMatch(objects, rect, wanted, at)
    ensures Count(objects, rect, wanted) == 1
  {
    var init := objects[..|objects| - 1];
    NoneCounted(init, rect, wanted);
    if at < |init| {
      OnlyMatchIsCounted(init, rect, wanted, at);
    }
  }

  /** A count of one is a single object that overlaps. */
  lemma CountedOnce(objects: seq<MetadataObject>, rect: Rect, wanted: Wanted)
    ensures Count(objects, rect, wanted) == 1 <==> exists at :: OnlyMatch(objects, rect, wanted, at)
  {
    NoneCounted(objects, rect, wanted);
    if at :| OnlyMatch(objects, rect, wanted, at) {
      OnlyMatchIsCounted(objects, rect, wanted, at);
    }
    if Count(objects, rect, wanted) == 1 {
      var at :| 0 <= at < |objects| && Matches(objects[at], rect, wanted);
      forall i | 0 <= i < |objects| && i != at ensures !Matches(objects[i], rect, wanted) {
        if Matches(objects[i], rect, wanted) {
          OneCounted(objects, rect, wanted, at, i);
        }
      }
      assert OnlyMatch(objects, rect, wanted, at);
    }
  }

  method SelectBestObjectByRegion(trackingRegion: Rect, detectedObjects: seq<MetadataObject>)
    returns (best: Option<MetadataObject>)
    ensures BestMatch(detectedObjects, trackingRegion, FacesOrHeads, best)
    ensures best == None ==>
              forall o <- detectedObjects | o.kind in {FACE, BASE_FACE_DETECTION, HUMAN_HEAD} ::
                CalculateIOU(trackingRegion, o.box) <= 0.1
    ensures best.Some? ==>
              && best.value in detectedObjects && best.value.kind in {FACE, BASE_FACE_DETECTION, HUMAN_HEAD}
              && CalculateIOU(trackingRegion, best.value.box) > 0.1
              && forall o <- detectedObjects | o.kind in {FACE, BASE_FACE_DETECTION, HUMAN_HEAD} ::
                   CalculateIOU(trackingRegion, o.box) <= CalculateIOU(trackingRegion, best.value.box)
  {
    best := None;
    var bestIou := IOU_THRESHOLD;
    for i := 0 to |detectedObjects|
      invariant BestMatch(detectedObjects[..i], trackingRegion, FacesOrHeads, best)
      invariant bestIou == BestIou(trackingRegion, best, IOU_THRESHOLD)
    {
      var obj := detectedObjects[i];
      if obj.kind == FACE || obj.kind == BASE_FACE_DETECTION || obj.kind == HUMAN_HEAD {
        var iou := CalculateIOU(trackingRegion, obj.box);
        if iou > bestIou {
          BestMatchReplaced(detectedObjects[..i], trackingRegion, FacesOrHeads, best, obj);
          bestIou, best := iou, Some(obj);
        } else {
          BestMatchStays(detectedObjects[..i], trackingRegion, FacesOrHeads, best, obj);
        }
      } else {
        BestMatchStays(detectedObjects[..i], trackingRegion, FacesOrHeads, best, obj);
      }
      assert detectedObjects[..i + 1] == detectedObjects[..i] + [obj];
    }
    assert detectedObjects[..|detectedObjects|] == detectedObjects;
  }

  method FindFaceForHead(head: MetadataObject, detectedObjects: seq<MetadataObject>)
    returns (best: Option<MetadataObject>)
    ensures BestMatch(detectedObjects, head.box, Faces, best)
    ensures best == None ==>
              forall o <- detectedObjects | o.kind in {FACE, BASE_FACE_DETECTION} ::
                CalculateIOU(head.box, o.box) <= 0.1
    ensures best.Some? ==>
              && best.value in detectedObjects && best.value.kind in {FACE, BASE_FACE_DETECTION}
              && CalculateIOU(head.box, best.value.box) > 0.1
              && forall o <- detectedObjects | o.kind in {FACE, BASE_FACE_DETECTION} ::
                   CalculateIOU(head.box, o.box) <= CalculateIOU(head.box, best.value.box)
  {
    best := None;
    var bestIou := 0.0;
    for i := 0 to |detectedObjects|
      invariant BestMatch(detectedObjects[..i], head.box, Faces, best)
      invariant bestIou == BestIou(head.box, best, 0.0)
    {
      var obj := detectedObjects[i];
      assert detectedObjects[..i + 1] == detectedObjects[..i] + [obj];
      if obj.kind != FACE && obj.kind != BASE_FACE_DETECTION {
        BestMatchStays(detectedObjects[..i], head.box, Faces, best, obj);
        continue;
      }
      var iou := CalculateIOU(head.box, obj.box);
      if iou > bestIou && iou > IOU_THRESHOLD {
        BestMatchReplaced(detectedObjects[..i], head.box, Faces, best, obj);
        bestIou, best := iou, Some(obj);
      } else {
        BestMatchStays(detectedObjects[..i], head.box, Faces, best, obj);
      }
    }
    assert detectedObjects[..|detectedObjects|] == detectedObjects;
  }

  function BestIou(rect: Rect, best: Option<MetadataObject>, initially: real): real {
    match best
    case None => initially
    case Some(o) => CalculateIOU(rect, o.box)
  }

  lemma BestMatchStays(objects: seq<MetadataObject>, rect: Rect, wanted: Wanted, best: Option<MetadataObject>,
                       o: MetadataObject)
    requires BestMatch(objects, rect, wanted, best)
    requires Eligible(o, wanted) ==>
               CalculateIOU(rect, o.box) <= BestIou(rect, best, IOU_THRESHOLD)
    ensures BestMatch(objects + [o], rect, wanted, best)
  {
    if best.Some? {
      var at :| IsBest(objects, rect, wanted, at) && best.value == objects[at];
      assert IsBest(objects + [o], rect, wanted, at);
    }
  }

  lemma BestMatchReplaced(objects: seq<MetadataObject>, rect: Rect, wanted: Wanted, best: Option<MetadataObject>,
                          o: MetadataObject)
    requires BestMatch(objects, rect, wanted, best)
    requires Matches(o, rect, wanted) && CalculateIOU(rect, o.box) > BestIou(rect, best, IOU_THRESHOLD)
    ensures BestMatch(objects + [o], rect, wanted, Some(o))
  {
    var at := |objects|;
    forall i | 0 <= i < |objects| && Eligible(objects[i], wanted)
      ensures CalculateIOU(rect, objects[i].box) < CalculateIOU(rect, o.box)
    {
      if best.Some? {
        var b :| IsBest(objects, rect, wanted, b) && best.value == objects[b];
      }
    }
    assert IsBest(objects + [o], rect, wanted, at);
  }

  /** The objects of one sort, in order. */
  function Kept(objects: seq<MetadataObject>, wanted: Wanted): seq<MetadataObject> {
    if |objects| == 0 then []
    else
      var last := objects[|objects| - 1];
      Kept(objects[..|objects| - 1], wanted) + if Eligible(last, wanted) then [last] else []
  }

  lemma {:induction false} KeptMembers(objects: seq<MetadataObject>, wanted: Wanted, o: MetadataObject)
    ensures o in Kept(objects, wanted) <==> o in objects && Eligible(o, wanted)
  {
    if |objects| > 0 {
      var init, last := objects[..|objects| - 1], objects[|objects| - 1];
      KeptMembers(init, wanted, o);
      assert objects == init + [last];
    }
  }

  lemma CountExtends(objects: seq<MetadataObject>, o: MetadataObject, rect: Rect, wanted: Wanted)
    ensures Count(objects + [o], rect, wanted) ==
            Count(objects, rect, wanted) + if Matches(o, rect, wanted) then 1 else 0
  {
    assert (objects + [o])[..|objects|] == objects;
  }

  lemma {:induction false} KeptCount(objects: seq<MetadataObject>, rect: Rect, wanted: Wanted)
    ensures Count(Kept(objects, wanted), rect, wanted) == Count(objects, rect, wanted)
  {
    if |objects| > 0 {
      var init, last := objects[..|objects| - 1], objects[|objects| - 1];
      KeptCount(init, rect, wanted);
      CountExtends(Kept(init, wanted), last, rect, wanted);
      assert Kept(init, wanted) + [] == Kept(init, wanted);
    }
  }

  lemma KeptLosesNoMatch(objects: seq<MetadataObject>, rect: Rect, wanted: Wanted)
    ensures Count(Kept(objects, wanted), rect, wanted) == Count(objects, rect, wanted)
    ensures forall o :: o in Kept(objects, wanted) <==> o in objects && Eligible(o, wanted)
  {
    KeptCount(objects, rect, wanted);
    forall o ensures o in Kept(objects, wanted) <==> o in objects && Eligible(o, wanted) {
      KeptMembers(objects, wanted, o);
    }
  }

  /** Counts the objects that overlap and keeps the best; several are as good as none. `wanted` names the
      sort all of the objects are of. */
  method FindBestMatchForBody(bodyRect: Rect, objectsForBody: seq<MetadataObject>, ghost wanted: Wanted)
    returns (bestMatch: Option<MetadataObject>)
    requires forall o <- objectsForBody :: Eligible(o, wanted)
    ensures UniqueMatch(objectsForBody, bodyRect, wanted, bestMatch)
  {
    bestMatch := None;
    var bestIou := 0.0;
    var matchCount := 0;
    for i := 0 to |objectsForBody|
      invariant matchCount == Count(objectsForBody[..i], bodyRect, wanted)
      invariant bestMatch.Some? <==> matchCount > 0
      invariant bestMatch.Some? ==> bestMatch.value in objectsForBody && Matches(bestMatch.value, bodyRect, wanted)
      invariant bestMatch == None ==> bestIou == 0.0
    {
      var candidate := objectsForBody[i];
      assert objectsForBody[..i + 1][..i] == objectsForBody[..i];
      var iou := CalculateIOU(bodyRect, candidate.box);
      if iou > IOU_THRESHOLD {
        matchCount := matchCount + 1;
        if iou > bestIou {
          bestIou, bestMatch := iou, Some(candidate);
        }
      }
    }
    assert objectsForBody[..|objectsForBody|] == objectsForBody;
    if matchCount > 1 {
      return None;
    }
  }

  method FindBestFaceOrHeadForBody(body: MetadataObject, detectedObjects: seq<MetadataObject>)
    returns (bestMatch: Option<MetadataObject>)
    ensures FaceOrHeadOf(detectedObjects, body, bestMatch)
    ensures bestMatch.Some? ==> bestMatch.value in detectedObjects && CalculateIOU(body.box, bestMatch.value.box) > 0.1
    ensures forall i | OnlyMatch(detectedObjects, body.box, Faces, i) ::
              bestMatch == Some(detectedObjects[i]) && detectedObjects[i].kind in {FACE, BASE_FACE_DETECTION}
    ensures (forall i :: !OnlyMatch(detectedObjects, body.box, Faces, i)) ==>
              && (bestMatch.Some? <==> exists i :: OnlyMatch(detectedObjects, body.box, Heads, i))
              && forall i | OnlyMatch(detectedObjects, body.box, Heads, i) ::
                   bestMatch == Some(detectedObjects[i]) && detectedObjects[i].kind == HUMAN_HEAD
  {
    var faces: seq<MetadataObject>, heads: seq<MetadataObject> := [], [];
    for i := 0 to |detectedObjects|
      invariant faces == Kept(detectedObjects[..i], Faces) && heads == Kept(detectedObjects[..i], Heads)
    {
      var obj := detectedObjects[i];
      assert detectedObjects[..i + 1][..i] == detectedObjects[..i];
      if obj.kind == FACE || obj.kind == BASE_FACE_DETECTION {
        faces := faces + [obj];
      } else if obj.kind == HUMAN_HEAD {
        heads := heads + [obj];
      }
    }
    assert detectedObjects[..|detectedObjects|] == detectedObjects;
    KeptLosesNoMatch(detectedObjects, body.box, Faces);
    KeptLosesNoMatch(detectedObjects, body.box, Heads);
    CountedOnce(detectedObjects, body.box, Faces);
    CountedOnce(detectedObjects, body.box, Heads);
    bestMatch := FindBestMatchForBody(body.box, faces, Faces);
    if bestMatch != None {
      return;
    }
    bestMatch := FindBestMatchForBody(body.box, heads, Heads);
  }

  /** What is tracked for a selected object: for a head its best face, for a body or a locked salient
      object the face or else the head that is the only one to overlap it; otherwise the object itself. */
  ghost predicate TargetOf(objects: seq<MetadataObject>, selected: MetadataObject, target: MetadataObject) {
    match selected.kind
    case HUMAN_HEAD =>
      if NoMatch(objects, selected.box, Faces) then target == selected
      else BestMatch(objects, selected.box, Faces, Some(target))
    case HUMAN_BODY => TargetOfBody(objects, selected, target)
    case SALIENT_DETECTION =>
      if selected.lockFocusTracked then TargetOfBody(objects, selected, target) else target == selected
    case _ => target == selected
  }

  ghost predicate TargetOfBody(objects: seq<MetadataObject>, selected: MetadataObject, target: MetadataObject) {
    if FaceOrHeadOf(objects, selected, None) then target == selected else FaceOrHeadOf(objects, selected, Some(target))
  }

  method ProcessTargetByType(selected: MetadataObject, detectedObjects: seq<MetadataObject>)
    returns (target: MetadataObject)
    ensures TargetOf(detectedObjects, selected, target)
    ensures selected.kind == FACE || selected.kind == BASE_FACE_DETECTION || selected.kind.OTHER_OBJECT? ==>
              target == selected
    ensures selected.kind == SALIENT_DETECTION && !selected.lockFocusTracked ==> target == selected
    ensures target != selected ==>
              && target in detectedObjects && CalculateIOU(selected.box, target.box) > 0.1
              && (target.kind == FACE || target.kind == BASE_FACE_DETECTION
                  || (target.kind == HUMAN_HEAD && selected.kind != HUMAN_HEAD))
    ensures selected.kind == HUMAN_HEAD ==>
              forall o <- detectedObjects | o.kind in {FACE, BASE_FACE_DETECTION} ::
                CalculateIOU(selected.box, o.box) <= 0.1
                || (target.kind in {FACE, BASE_FACE_DETECTION}
                    && CalculateIOU(selected.box, o.box) <= CalculateIOU(selected.box, target.box))
    ensures selected.kind == HUMAN_BODY || (selected.kind == SALIENT_DETECTION && selected.lockFocusTracked) ==>
              forall i | OnlyMatch(detectedObjects, selected.box, Faces, i) :: target == detectedObjects[i]
    ensures selected.kind == HUMAN_BODY || (selected.kind == SALIENT_DETECTION && selected.lockFocusTracked) ==>
              (forall i :: !OnlyMatch(detectedObjects, selected.box, Faces, i)) ==>
                forall i | OnlyMatch(detectedObjects, selected.box, Heads, i) :: target == detectedObjects[i]
  {
    var found: Option<MetadataObject>;
    match selected.kind {
      case HUMAN_HEAD =>
        found := FindFaceForHead(selected, detectedObjects);
        if found != None {
          return found.value;
        }
        target := selected;
      case HUMAN_BODY =>
        found := FindBestFaceOrHeadForBody(selected, detectedObjects);
        if found != None {
          return found.value;
        }
        target := selected;
      case SALIENT_DETECTION =>
        if selected.lockFocusTracked {
          found := FindBestFaceOrHeadForBody(selected, detectedObjects);
          if found != None {
            return found.value;
          }
        }
        target := selected;
      case _ =>
        target := selected;
    }
  }

  /** The target is determined, is one of the objects, and is the selected object or a face or head that
      overlaps it by more than the threshold. */
  lemma TargetBelongsToSelection(objects: seq<MetadataObject>, selected: MetadataObject, target: MetadataObject)
    requires selected in objects && TargetOf(objects, selected, target)
    ensures target in objects
    ensures target == selected || Matches(target, selected.box, FacesOrHeads)
    ensures selected.kind == HUMAN_BODY && Count(objects, selected.box, Faces) == 1 ==>
              Matches(target, selected.box, Faces)
    ensures selected.kind == HUMAN_BODY && Count(objects, selected.box, Faces) != 1
            && Count(objects, selected.box, Heads) == 1 ==>
              Matches(target, selected.box, Heads)
    ensures selected.kind == HUMAN_BODY && Count(objects, selected.box, Faces) != 1
            && Count(objects, selected.box, Heads) != 1 ==>
              target == selected
  {
  }

  lemma TargetIsDetermined(objects: seq<MetadataObject>, selected: MetadataObject,
                           a: MetadataObject, b: MetadataObject)
    requires TargetOf(objects, selected, a) && TargetOf(objects, selected, b)
    ensures a == b
  {
    if a != selected || b != selected {
      if selected.kind == HUMAN_HEAD {
        var i :| IsBest(objects, selected.box, Faces, i) && a == objects[i];
        var j :| IsBest(objects, selected.box, Faces, j) && b == objects[j];
        BestIsUnique(objects, selected.box, Faces, i, j);
      } else {
        var wanted := if Count(objects, selected.box, Faces) == 1 then Faces else Heads;
        var i :| 0 <= i < |objects| && objects[i] == a;
        var j :| 0 <= j < |objects| && objects[j] == b;
        OneCounted(objects, selected.box, wanted, i, j);
      }
    }
  }
}
