/** Frame by frame: the controller picks a target, and in the cinematic mode with a locked salient object
    holds back frames whose target changed, for a bounded number of frames. The build is the standard one,
    in which an accepted frame is handed on for motor control at once. */
module CameraTracking {
  import opened Options
  import opened TargetSelection

  const MAX_PAUSED_FRAME := 10

  type Int32 = n: int | -0x8000_0000 <= n < 0x8000_0000
  type TargetId = n: nat | n < 0x1_0000

  datatype TrackingObjectType = MSG_OBJ_OTHER | MSG_OBJ_HEAD | MSG_OBJ_FACE | MSG_OBJ_BODY

  function ConvertObjectType(kind: Kind): TrackingObjectType {
    match kind
    case FACE => MSG_OBJ_FACE
    case BASE_FACE_DETECTION => MSG_OBJ_FACE
    case HUMAN_BODY => MSG_OBJ_BODY
    case _ => MSG_OBJ_OTHER
  }

  /** The cast of a 32-bit id to the 16 bits of a frame. */
  function Narrow(id: int): TargetId {
    id % 0x1_0000
  }

  datatype MetaInfo = MetaInfo(
    lockedMode: bool, trackingRegion: Rect, trackingObjectId: Int32, detectedObjects: seq<MetadataObject>)

  // Selection --------------------------------------------------------------------------------------------

  datatype Criterion = WithId(id: int) | LockedSalient | AtRegion(region: Rect)

  predicate Meets(o: MetadataObject, c: Criterion) {
    match c
    case WithId(id) => o.objectId == id
    case LockedSalient => o.kind == SALIENT_DETECTION && o.lockFocusTracked
    case AtRegion(r) =>
      && Abs(o.box.topLeftX - r.topLeftX) <= TRACKING_LOST_CHECK
      && Abs(o.box.topLeftY - r.topLeftY) <= TRACKING_LOST_CHECK
  }

  /** `at` is the first object that meets the criterion, or the end if none does. */
  ghost predicate IsFirst(objects: seq<MetadataObject>, c: Criterion, at: int) {
    && 0 <= at <= |objects|
    && (at < |objects| ==> Meets(objects[at], c))
    && forall i | 0 <= i < at :: !Meets(objects[i], c)
  }

  ghost predicate NoneMeets(objects: seq<MetadataObject>, c: Criterion) {
    forall i | 0 <= i < |objects| :: !Meets(objects[i], c)
  }

  ghost predicate FirstIs(objects: seq<MetadataObject>, c: Criterion, o: MetadataObject) {
    exists at :: IsFirst(objects, c, at) && at < |objects| && o == objects[at]
  }

  /** The object selected in a nonempty list: by the tracked id; else, in cinematic mode, by overlap with
      the tracked region; else by the fallbacks in turn. */
  ghost predicate Selected(cinematic: bool, lastTargetId: TargetId, info: MetaInfo, o: MetadataObject)
    requires |info.detectedObjects| > 0
  {
    var objects, id := info.detectedObjects, info.trackingObjectId;
    if id >= 0 && !NoneMeets(objects, WithId(id)) then FirstIs(objects, WithId(id), o)
    else if cinematic && id >= 0 && !NoMatch(objects, info.trackingRegion, FacesOrHeads) then
      BestMatch(objects, info.trackingRegion, FacesOrHeads, Some(o))
    else if !NoneMeets(objects, LockedSalient) then FirstIs(objects, LockedSalient, o)
    else if !NoneMeets(objects, WithId(lastTargetId)) then FirstIs(objects, WithId(lastTargetId), o)
    else if !NoneMeets(objects, AtRegion(info.trackingRegion)) then FirstIs(objects, AtRegion(info.trackingRegion), o)
    else o == objects[0]
  }

  /** The lock is decided anew only where the fallback is reached. */
  ghost predicate LockedAfter(cinematic: bool, locked: bool, info: MetaInfo) {
    var objects, id := info.detectedObjects, info.trackingObjectId;
    if |objects| == 0 || (id >= 0 && !NoneMeets(objects, WithId(id)))
       || (cinematic && id >= 0 && !NoMatch(objects, info.trackingRegion, FacesOrHeads)) then locked
    else !NoneMeets(objects, LockedSalient)
  }

  /** Target selection on a nonempty list chooses a member. If the tracked id is present, the choice is the
      object of that id or a face or head that overlaps it by more than the threshold; for a body, the one
      overlapping face, else the one overlapping head, else the body. */
  lemma TargetFollowsTheTrackedObject(cinematic: bool, last: TargetId, info: MetaInfo,
                                      o: MetadataObject, target: MetadataObject)
    requires |info.detectedObjects| > 0
    requires Selected(cinematic, last, info, o) && TargetOf(info.detectedObjects, o, target)
    ensures target in info.detectedObjects
    ensures target == o || Matches(target, o.box, FacesOrHeads)
    ensures info.trackingObjectId >= 0 && !NoneMeets(info.detectedObjects, WithId(info.trackingObjectId)) ==>
              o.objectId == info.trackingObjectId
    ensures o.kind == HUMAN_BODY ==>
              var faces, heads := Count(info.detectedObjects, o.box, Faces), Count(info.detectedObjects, o.box, Heads);
              && (faces == 1 ==> Matches(target, o.box, Faces))
              && (faces != 1 && heads == 1 ==> Matches(target, o.box, Heads))
              && (faces != 1 && heads != 1 ==> target == o)
  {
    TargetBelongsToSelection(info.detectedObjects, o, target);
  }

  /** The first object with a property. */
  ghost predicate FirstWith(objects: seq<MetadataObject>, p: MetadataObject -> bool, o: MetadataObject) {
    exists at :: 0 <= at < |objects| && o == objects[at] && p(o) && forall i | 0 <= i < at :: !p(objects[i])
  }

  ghost predicate NoneWith(objects: seq<MetadataObject>, p: MetadataObject -> bool) {
    forall o <- objects :: !p(o)
  }

  /** The order in which an object is selected: the first of the tracked id; in cinematic mode a face or head
      over the tracked region; the first locked salient object; the first of the last target's id; the first
      whose corner is at that of the tracked region; the first of all. */
  lemma SelectionInOrder(cinematic: bool, last: TargetId, info: MetaInfo, o: MetadataObject)
    requires |info.detectedObjects| > 0 && Selected(cinematic, last, info, o)
    ensures var objects, region := info.detectedObjects, info.trackingRegion;
            var tracked := (x: MetadataObject) => x.objectId == info.trackingObjectId;
            var salient := (x: MetadataObject) => x.kind == SALIENT_DETECTION && x.lockFocusTracked;
            var former := (x: MetadataObject) => x.objectId == last;
            var nearby := (x: MetadataObject) =>
                            -0.0001 <= x.box.topLeftX - region.topLeftX <= 0.0001
                            && -0.0001 <= x.box.topLeftY - region.topLeftY <= 0.0001;
            if info.trackingObjectId >= 0 && !NoneWith(objects, tracked) then FirstWith(objects, tracked, o)
            else if cinematic && info.trackingObjectId >= 0 && !NoMatch(objects, region, FacesOrHeads) then
              o.kind in {FACE, BASE_FACE_DETECTION, HUMAN_HEAD} && CalculateIOU(region, o.box) > 0.1
            else if !NoneWith(objects, salient) then FirstWith(objects, salient, o)
            else if !NoneWith(objects, former) then FirstWith(objects, former, o)
            else if !NoneWith(objects, nearby) then FirstWith(objects, nearby, o)
            else o == objects[0]
  {
    var objects, region := info.detectedObjects, info.trackingRegion;
    var tracked := (x: MetadataObject) => x.objectId == info.trackingObjectId;
    var salient := (x: MetadataObject) => x.kind == SALIENT_DETECTION && x.lockFocusTracked;
    var former := (x: MetadataObject) => x.objectId == last;
    var nearby := (x: MetadataObject) =>
                    -0.0001 <= x.box.topLeftX - region.topLeftX <= 0.0001
                    && -0.0001 <= x.box.topLeftY - region.topLeftY <= 0.0001;
    CriterionIsProperty(objects, WithId(info.trackingObjectId), tracked, o);
    CriterionIsProperty(objects, LockedSalient, salient, o);
    CriterionIsProperty(objects, WithId(last), former, o);
    CriterionIsProperty(objects, AtRegion(region), nearby, o);
  }

  lemma CriterionIsProperty(objects: seq<MetadataObject>, c: Criterion, p: MetadataObject -> bool, o: MetadataObject)
    requires forall x :: Meets(x, c) <==> p(x)
    ensures NoneMeets(objects, c) <==> NoneWith(objects, p)
    ensures FirstIs(objects, c, o) ==> FirstWith(objects, p, o)
  {
    if NoneMeets(objects, c) {
      forall x <- objects ensures !p(x) {
        var i :| 0 <= i < |objects| && objects[i] == x;
        assert !Meets(objects[i], c);
      }
    } else {
      var i :| 0 <= i < |objects| && Meets(objects[i], c);
      assert objects[i] in objects && p(objects[i]);
    }
    if FirstIs(objects, c, o) {
      var at :| IsFirst(objects, c, at) && at < |objects| && o == objects[at];
      forall i | 0 <= i < at ensures !p(objects[i]) {
        assert !Meets(objects[i], c);
      }
    }
  }

  // The filter, as a machine -----------------------------------------------------------------------------

  /** What is remembered of the last frame let through, and the frames held back since. */
  datatype Tracker = Tracker(targetId: TargetId, objectType: TrackingObjectType, rect: Rect, pauseFrameCount: int)

  const NO_RECT := Rect(0.0, 0.0, 0.0, 0.0)
  const START := Tracker(0, MSG_OBJ_OTHER, NO_RECT, 0)

  /** One frame after selection. Without a target (`found` false) the tracking rectangle is an earlier
      one. */
  datatype Frame = Frame(
    gated: bool, zeroRegion: bool, found: bool, targetId: TargetId, objectType: TrackingObjectType, rect: Rect)
  {
    /** The region of interest is empty, so that the frame is not passed on to the motors. */
    predicate Lost() {
      !found || LostRegion(rect)
    }

    /** What selection can produce. */
    predicate Possible() {
      objectType != MSG_OBJ_HEAD && (!found ==> objectType == MSG_OBJ_FACE)
    }
  }

  predicate LostRegion(r: Rect) {
    || (r.topLeftX < TRACKING_LOST_CHECK && r.topLeftY < TRACKING_LOST_CHECK)
    || r.width < TRACKING_LOST_CHECK || r.height < TRACKING_LOST_CHECK
    || r.width - r.topLeftX <= TRACKING_LOST_CHECK || r.height - r.topLeftY <= TRACKING_LOST_CHECK
  }

  predicate ZeroRegion(info: MetaInfo) {
    && info.lockedMode
    && Abs(info.trackingRegion.topLeftX - info.trackingRegion.width) <= TRACKING_LOST_CHECK
    && Abs(info.trackingRegion.topLeftY - info.trackingRegion.height) <= TRACKING_LOST_CHECK
  }

  datatype Verdict = Accepted | Invalid | Paused

  /** A change of target that is taken for another view of the same person. */
  predicate AllowedConversion(t: Tracker, f: Frame) {
    && (|| (t.objectType == MSG_OBJ_BODY && f.objectType in {MSG_OBJ_FACE, MSG_OBJ_HEAD})
        || (t.objectType == MSG_OBJ_FACE && f.objectType == MSG_OBJ_HEAD)
        || (t.objectType == MSG_OBJ_HEAD && f.objectType == MSG_OBJ_FACE))
    && CalculateIOU(t.rect, f.rect) > IOU_THRESHOLD
  }

  predicate Changed(t: Tracker, f: Frame) {
    t.targetId != f.targetId && !AllowedConversion(t, f)
  }

  function Judge(t: Tracker, f: Frame): Verdict {
    if !f.gated then Accepted
    else if f.zeroRegion then Invalid
    else if Changed(t, f) && t.pauseFrameCount < MAX_PAUSED_FRAME then Paused
    else Accepted
  }

  /** The next frame. The record of an accepted frame is the object handed on for motor control, whose type
      is overwritten there unless its region is lost. */
  function Next(t: Tracker, f: Frame): Tracker {
    match Judge(t, f)
    case Invalid => t
    case Paused => t.(pauseFrameCount := t.pauseFrameCount + 1)
    case Accepted =>
      Tracker(f.targetId, if f.Lost() then f.objectType else MSG_OBJ_OTHER, f.rect,
              if f.gated then 0 else t.pauseFrameCount)
  }

  function After(t: Tracker, frames: seq<Frame>): Tracker {
    if |frames| == 0 then t else Next(After(t, frames[..|frames| - 1]), frames[|frames| - 1])
  }

  /** The verdict on frame `i` of a run. */
  function VerdictAt(t: Tracker, frames: seq<Frame>, i: nat): Verdict
    requires i < |frames|
  {
    Judge(After(t, frames[..i]), frames[i])
  }

  ghost predicate AcceptsOne(t: Tracker, frames: seq<Frame>) {
    exists i: nat | i < |frames| :: VerdictAt(t, frames, i) == Accepted
  }

  /** How many frames of a run were held back because the target changed. */
  function PausedIn(t: Tracker, frames: seq<Frame>): nat {
    if |frames| == 0 then 0
    else
      PausedIn(t, frames[..|frames| - 1])
      + if VerdictAt(t, frames, |frames| - 1) == Paused then 1 else 0
  }

  lemma VerdictOfPrefix(t: Tracker, frames: seq<Frame>, i: nat, n: nat)
    requires i < n <= |frames|
    ensures VerdictAt(t, frames[..n], i) == VerdictAt(t, frames, i)
  {
    assert frames[..n][..i] == frames[..i];
  }

  lemma {:induction false} PauseCountStaysBounded(t: Tracker, frames: seq<Frame>)
    requires 0 <= t.pauseFrameCount <= 10
    ensures 0 <= After(t, frames).pauseFrameCount <= 10
  {
    if |frames| > 0 {
      PauseCountStaysBounded(t, frames[..|frames| - 1]);
    }
  }

  /** As long as no frame is accepted, what is remembered does not change except for the count, which is the
      number of frames held back. */
  lemma {:induction false} RejectionsOnlyCount(t: Tracker, frames: seq<Frame>)
    requires !AcceptsOne(t, frames)
    ensures After(t, frames) == t.(pauseFrameCount := t.pauseFrameCount + PausedIn(t, frames))
  {
    if |frames| > 0 {
      var init := frames[..|frames| - 1];
      forall i: nat | i < |init| ensures VerdictAt(t, init, i) != Accepted {
        VerdictOfPrefix(t, frames, i, |init|);
      }
      RejectionsOnlyCount(t, init);
      assert VerdictAt(t, frames, |frames| - 1) != Accepted;
    }
  }

  /** Without an accepted frame, at most ten frames are held back, whatever other frames are dropped for a
      zero region in between. */
  lemma AtMostTenPaused(t: Tracker, frames: seq<Frame>)
    requires 0 <= t.pauseFrameCount <= 10
    requires !AcceptsOne(t, frames)
    ensures PausedIn(t, frames) <= 10 - t.pauseFrameCount
  {
    RejectionsOnlyCount(t, frames);
    PauseCountStaysBounded(t, frames);
  }

  /** What is remembered is the last frame accepted, whatever was rejected since. */
  lemma {:induction false} LastAcceptedIsRemembered(t: Tracker, frames: seq<Frame>, i: nat)
    requires i < |frames| && VerdictAt(t, frames, i) == Accepted
    requires forall j: nat | i < j < |frames| :: VerdictAt(t, frames, j) != Accepted
    ensures After(t, frames).targetId == frames[i].targetId && After(t, frames).rect == frames[i].rect
    ensures After(t, frames).objectType == if frames[i].Lost() then frames[i].objectType else MSG_OBJ_OTHER
  {
    var n := |frames| - 1;
    if i < n {
      assert VerdictAt(t, frames, n) != Accepted;
      forall j: nat | i <= j < n ensures VerdictAt(t, frames[..n], j) == VerdictAt(t, frames, j) {
        VerdictOfPrefix(t, frames, j, n);
      }
      LastAcceptedIsRemembered(t, frames[..n], i);
    }
  }

  lemma {:induction false} RejectedMeansPaused(t: Tracker, frames: seq<Frame>)
    requires !AcceptsOne(t, frames)
    requires forall i: nat | i < |frames| :: VerdictAt(t, frames, i) != Invalid
    ensures PausedIn(t, frames) == |frames|
  {
    if |frames| > 0 {
      var init := frames[..|frames| - 1];
      forall i: nat | i < |init| ensures VerdictAt(t, init, i) == Paused {
        VerdictOfPrefix(t, frames, i, |init|);
        assert VerdictAt(t, frames, i) != Invalid && VerdictAt(t, frames, i) != Accepted;
      }
      RejectedMeansPaused(t, init);
      assert VerdictAt(t, frames, |frames| - 1) != Invalid && VerdictAt(t, frames, |frames| - 1) != Accepted;
    }
  }

  /** Among any eleven frames in a row of which none has a zero region, one is accepted. */
  lemma OneOfElevenIsAccepted(t: Tracker, frames: seq<Frame>)
    requires 0 <= t.pauseFrameCount <= 10
    requires |frames| == 11
    requires forall i: nat | i < |frames| :: VerdictAt(t, frames, i) != Invalid
    ensures AcceptsOne(t, frames)
  {
    if !AcceptsOne(t, frames) {
      RejectedMeansPaused(t, frames);
      AtMostTenPaused(t, frames);
    }
  }

  /** The bound is met: a new target that stays is held back until the count is full, and then taken. */
  lemma {:induction false} NewTargetWaitsItsTurn(t: Tracker, f: Frame, n: nat)
    requires 0 <= t.pauseFrameCount && t.pauseFrameCount + n <= 10
    requires f.gated && !f.zeroRegion && Changed(t, f)
    ensures After(t, seq(n, _ => f)) == t.(pauseFrameCount := t.pauseFrameCount + n)
    ensures Judge(After(t, seq(n, _ => f)), f) == Accepted <==> t.pauseFrameCount + n == 10
  {
    if n > 0 {
      NewTargetWaitsItsTurn(t, f, n - 1);
      assert seq(n, _ => f)[..n - 1] == seq(n - 1, _ => f);
    }
  }

  /** The type of the last frame survives only if its region was lost. */
  lemma {:induction false} TypeSurvivesOnlyIfLost(frames: seq<Frame>)
    requires forall f <- frames :: f.Possible()
    ensures var t := After(START, frames);
            && t.objectType != MSG_OBJ_HEAD
            && (t.objectType == MSG_OBJ_BODY ==> LostRegion(t.rect))
  {
    if |frames| > 0 {
      TypeSurvivesOnlyIfLost(frames[..|frames| - 1]);
      assert frames[|frames| - 1] in frames;
    }
  }

  /** So over every run of the standard build, a change of target is let through before the count is full
      exactly when the last accepted frame was a body whose region was lost, the new target is a face, and the
      two overlap. The conversions between faces and heads never apply. */
  lemma ConversionNeedsALostBody(frames: seq<Frame>, f: Frame)
    requires (forall g <- frames :: g.Possible()) && f.Possible()
    requires f.gated && !f.zeroRegion
    requires var t := After(START, frames); f.targetId != t.targetId && t.pauseFrameCount < 10
    ensures var t := After(START, frames);
            Judge(t, f) == Accepted <==>
              && t.objectType == MSG_OBJ_BODY && LostRegion(t.rect)
              && f.objectType == MSG_OBJ_FACE && CalculateIOU(t.rect, f.rect) > 0.1
  {
    TypeSurvivesOnlyIfLost(frames);
  }

  /** It does happen, for a body in the corner of the picture. */
  lemma ConversionExample() returns (body: Frame, face: Frame)
    ensures body.Possible() && face.Possible() && face.gated && !face.zeroRegion
    ensures var t := After(START, [body]);
            face.targetId != t.targetId && t.pauseFrameCount < 10 && Judge(t, face) == Accepted
  {
    var rect := Rect(0.0, 0.0, 1.0, 1.0);
    assert Proper(rect) && Inside(rect, rect);
    FullOverlapIsContainment(rect, rect);
    body, face := Frame(false, false, true, 1, MSG_OBJ_BODY, rect), Frame(true, false, true, 2, MSG_OBJ_FACE, rect);
    assert After(START, [body]) == Tracker(1, MSG_OBJ_BODY, rect, 0) by {
      assert [body][..0] == [];
    }
  }

  // The controller ---------------------------------------------------------------------------------------

  /** The frame handed on for motor control. The controller keeps a reference to the last one. */
  class TrackingFrameParams {
    var targetId: TargetId
    var objectType: TrackingObjectType
    var lost: bool

    constructor (targetId: TargetId, objectType: TrackingObjectType)
      ensures this.targetId == targetId && this.objectType == objectType && lost
    {
      this.targetId, this.objectType, lost := targetId, objectType, true;
    }
  }

  class McCameraTrackingController {
    var cinematic: bool
    var isSalientDetectionLocked: bool
    var lastTrackingFrame: TrackingFrameParams
    var lastTrackingRect: Rect
    var trackingRect: Rect
    var pauseFrameCount: int

    ghost function View(): Tracker
      reads this, lastTrackingFrame
    {
      Tracker(lastTrackingFrame.targetId, lastTrackingFrame.objectType, lastTrackingRect, pauseFrameCount)
    }

    constructor (cinematic: bool)
      ensures View() == START && !isSalientDetectionLocked && trackingRect == NO_RECT && this.cinematic == cinematic
    {
      this.cinematic, isSalientDetectionLocked := cinematic, false;
      lastTrackingRect, trackingRect, pauseFrameCount := NO_RECT, NO_RECT, 0;
      lastTrackingFrame := new TrackingFrameParams(0, MSG_OBJ_OTHER);
    }

    static method FindFirst(detectedObjects: seq<MetadataObject>, c: Criterion) returns (at: nat)
      ensures IsFirst(detectedObjects, c, at)
    {
      at := 0;
      while at < |detectedObjects| && !Meets(detectedObjects[at], c)
        invariant 0 <= at <= |detectedObjects|
        invariant forall i | 0 <= i < at :: !Meets(detectedObjects[i], c)
      {
        at := at + 1;
      }
    }

    /** The fallbacks. A 16-bit target id is never negative, so the last target is always looked for. */
    method GetTrackingTargetFallback(info: MetaInfo) returns (target: MetadataObject, ghost selected: MetadataObject)
      requires |info.detectedObjects| > 0
      modifies this`isSalientDetectionLocked
      ensures isSalientDetectionLocked <==> !NoneMeets(info.detectedObjects, LockedSalient)
      ensures (info.trackingObjectId < 0 || NoneMeets(info.detectedObjects, WithId(info.trackingObjectId)))
              && (!cinematic || info.trackingObjectId < 0
                  || NoMatch(info.detectedObjects, info.trackingRegion, FacesOrHeads)) ==>
                Selected(cinematic, lastTrackingFrame.targetId, info, selected)
      ensures TargetOf(info.detectedObjects, selected, target)
      ensures isSalientDetectionLocked <==>
                exists o <- info.detectedObjects :: o.kind == SALIENT_DETECTION && o.lockFocusTracked
    {
      var objects := info.detectedObjects;
      var at := FindFirst(objects, LockedSalient);
      if at < |objects| {
        isSalientDetectionLocked := true;
        target := ProcessTargetByType(objects[at], objects);
        return target, objects[at];
      }
      isSalientDetectionLocked := false;
      at := FindFirst(objects, WithId(lastTrackingFrame.targetId));
      if at < |objects| {
        target := ProcessTargetByType(objects[at], objects);
        return target, objects[at];
      }
      at := FindFirst(objects, AtRegion(info.trackingRegion));
      if at < |objects| {
        target := ProcessTargetByType(objects[at], objects);
        return target, objects[at];
      }
      target := ProcessTargetByType(objects[0], objects);
      selected := objects[0];
    }

    method GetTrackingTarget(info: MetaInfo) returns (target: Option<MetadataObject>, ghost selected: MetadataObject)
      modifies this`isSalientDetectionLocked
      ensures target == None <==> |info.detectedObjects| == 0
      ensures target.Some? ==> Selected(cinematic, lastTrackingFrame.targetId, info, selected)
      ensures target.Some? ==> TargetOf(info.detectedObjects, selected, target.value)
      ensures isSalientDetectionLocked <==> LockedAfter(cinematic, old(isSalientDetectionLocked), info)
    {
      var objects := info.detectedObjects;
      if |objects| == 0 {
        return None, *;
      }
      if info.trackingObjectId >= 0 {
        var at := FindFirst(objects, WithId(info.trackingObjectId));
        if at < |objects| {
          var found := ProcessTargetByType(objects[at], objects);
          return Some(found), objects[at];
        }
      }
      if cinematic && info.trackingObjectId >= 0 {
        var matched := SelectBestObjectByRegion(info.trackingRegion, objects);
        if matched != None {
          var found := ProcessTargetByType(matched.value, objects);
          return Some(found), matched.value;
        }
      }
      var found: MetadataObject;
      found, selected := GetTrackingTargetFallback(info);
      target := Some(found);
    }

    method IsAllowedConversion(lastRect: Rect, rect: Rect) returns (allowed: bool)
      ensures allowed <==> CalculateIOU(lastRect, rect) > 0.1
    {
      var iou := CalculateIOU(lastRect, rect);
      allowed := iou > IOU_THRESHOLD;
    }

    /** The frame as the filter sees it. */
    ghost function FrameOf(info: MetaInfo, params: TrackingFrameParams, found: bool): Frame
      reads this, params
    {
      Frame(cinematic && isSalientDetectionLocked, ZeroRegion(info), found, params.targetId, params.objectType,
            trackingRect)
    }

    /** The camera locks on to a region without extent. */
    static predicate NoRegion(info: MetaInfo) {
      var r := info.trackingRegion;
      && info.lockedMode
      && -0.0001 <= r.topLeftX - r.width <= 0.0001 && -0.0001 <= r.topLeftY - r.height <= 0.0001
    }

    /** A body that becomes its face or head, or a face and a head in turn, in overlapping places. */
    static predicate SamePerson(last: TrackingObjectType, lastRect: Rect, now: TrackingObjectType, rect: Rect) {
      && (last, now) in {(MSG_OBJ_BODY, MSG_OBJ_FACE), (MSG_OBJ_BODY, MSG_OBJ_HEAD),
                         (MSG_OBJ_FACE, MSG_OBJ_HEAD), (MSG_OBJ_HEAD, MSG_OBJ_FACE)}
      && CalculateIOU(lastRect, rect) > 0.1
    }

    method CinematicVideoModeTrackingTargetFilter(info: MetaInfo, params: TrackingFrameParams, ghost found: bool)
      returns (ok: bool)
      modifies this`pauseFrameCount
      ensures ok <==> Judge(old(View()), FrameOf(info, params, found)) == Accepted
      ensures !ok ==> View() == Next(old(View()), FrameOf(info, params, found))
      ensures ok ==> pauseFrameCount == Next(old(View()), FrameOf(info, params, found)).pauseFrameCount
      ensures !cinematic || !isSalientDetectionLocked ==> ok && pauseFrameCount == old(pauseFrameCount)
      ensures cinematic && isSalientDetectionLocked && NoRegion(info) ==>
                !ok && pauseFrameCount == old(pauseFrameCount)
      ensures cinematic && isSalientDetectionLocked && !NoRegion(info) ==>
                && (ok <==>
                     || lastTrackingFrame.targetId == params.targetId || old(pauseFrameCount) >= 10
                     || SamePerson(lastTrackingFrame.objectType, lastTrackingRect, params.objectType, trackingRect))
                && pauseFrameCount == if ok then 0 else old(pauseFrameCount) + 1
    {
      if !cinematic || !isSalientDetectionLocked {
        return true;
      }
      var region := info.trackingRegion;
      if info.lockedMode && Abs(region.topLeftX - region.width) <= TRACKING_LOST_CHECK
         && Abs(region.topLeftY - region.height) <= TRACKING_LOST_CHECK {
        return false;
      }
      if lastTrackingFrame.targetId != params.targetId && pauseFrameCount < MAX_PAUSED_FRAME {
        var isAllowedConversion := false;
        var last, now := lastTrackingFrame.objectType, params.objectType;
        if last == MSG_OBJ_BODY && (now == MSG_OBJ_FACE || now == MSG_OBJ_HEAD) {
          isAllowedConversion := IsAllowedConversion(lastTrackingRect, trackingRect);
        } else if (last == MSG_OBJ_FACE && now == MSG_OBJ_HEAD) || (last == MSG_OBJ_HEAD && now == MSG_OBJ_FACE) {
          isAllowedConversion := IsAllowedConversion(lastTrackingRect, trackingRect);
        }
        if !isAllowedConversion {
          pauseFrameCount := pauseFrameCount + 1;
          return false;
        }
      }
      pauseFrameCount := 0;
      ok := true;
    }

    /** The frame a target makes; without a target it has the tracked id, the type of a face and no region. */
    ghost predicate Describes(f: Frame, info: MetaInfo, target: Option<MetadataObject>, before: Rect)
      reads this
    {
      && (f.gated <==> cinematic && isSalientDetectionLocked)
      && (f.zeroRegion <==> NoRegion(info))
      && (f.found <==> target.Some?)
      && f.targetId == (if target == None then info.trackingObjectId else target.value.objectId) % 65536
      && f.rect == (if target == None then before else target.value.box)
      && (f.objectType == MSG_OBJ_FACE <==> target == None || target.value.kind in {FACE, BASE_FACE_DETECTION})
      && (f.objectType == MSG_OBJ_BODY <==> target.Some? && target.value.kind == HUMAN_BODY)
      && f.objectType != MSG_OBJ_HEAD
    }

    /** The first half of a frame: the target and what it makes of the frame. */
    method DescribeTarget(info: MetaInfo)
      returns (built: TrackingFrameParams, ghost target: Option<MetadataObject>, ghost f: Frame)
      modifies this`isSalientDetectionLocked, this`trackingRect
      ensures isSalientDetectionLocked <==> LockedAfter(cinematic, old(isSalientDetectionLocked), info)
      ensures target == None <==> |info.detectedObjects| == 0
      ensures target.Some? ==>
                exists o :: Selected(cinematic, lastTrackingFrame.targetId, info, o)
                            && TargetOf(info.detectedObjects, o, target.value)
      ensures fresh(built) && f == FrameOf(info, built, target.Some?)
      ensures Describes(f, info, target, old(trackingRect)) && f.Possible()
      ensures built.lost == f.Lost()
      ensures built.lost <==>
                || target == None || (f.rect.topLeftX < 0.0001 && f.rect.topLeftY < 0.0001)
                || f.rect.width < 0.0001 || f.rect.height < 0.0001
                || f.rect.width <= f.rect.topLeftX + 0.0001 || f.rect.height <= f.rect.topLeftY + 0.0001
    {
      built := new TrackingFrameParams(Narrow(info.trackingObjectId), MSG_OBJ_FACE);
      var found: Option<MetadataObject>;
      ghost var selected: MetadataObject;
      found, selected := GetTrackingTarget(info);
      target := found;
      if found.Some? {
        built.targetId, built.objectType := Narrow(found.value.objectId), ConvertObjectType(found.value.kind);
        trackingRect := found.value.box;
        built.lost := LostRegion(trackingRect);
      }
      f := FrameOf(info, built, found.Some?);
    }

    method BuildTrackingParams(info: MetaInfo)
      returns (params: TrackingFrameParams?, ghost target: Option<MetadataObject>, ghost f: Frame)
      modifies this
      ensures cinematic == old(cinematic)
      ensures isSalientDetectionLocked <==> LockedAfter(cinematic, old(isSalientDetectionLocked), info)
      ensures target == None <==> |info.detectedObjects| == 0
      ensures target.Some? ==>
                exists o :: Selected(cinematic, old(lastTrackingFrame.targetId), info, o)
                            && TargetOf(info.detectedObjects, o, target.value)
      ensures Describes(f, info, target, old(trackingRect)) && f.Possible() && trackingRect == f.rect
      ensures params == null <==> Judge(old(View()), f) != Accepted
      ensures params == null ==> View() == Next(old(View()), f) && lastTrackingFrame == old(lastTrackingFrame)
      ensures params != null ==> fresh(params) && params == lastTrackingFrame && params.lost == f.Lost()
      ensures params != null ==> View() == Next(old(View()), f).(objectType := f.objectType)
      ensures params != null ==> params.targetId == f.targetId && params.objectType == f.objectType
      ensures params != null ==> lastTrackingRect == f.rect
      ensures params == null ==> lastTrackingRect == old(lastTrackingRect)
      ensures params != null ==>
                (params.lost <==>
                  || target == None || (f.rect.topLeftX < 0.0001 && f.rect.topLeftY < 0.0001)
                  || f.rect.width < 0.0001 || f.rect.height < 0.0001
                  || f.rect.width <= f.rect.topLeftX + 0.0001 || f.rect.height <= f.rect.topLeftY + 0.0001)
    {
      var built: TrackingFrameParams;
      built, target, f := DescribeTarget(info);
      var ok := CinematicVideoModeTrackingTargetFilter(info, built, target.Some?);
      if !ok {
        return null, target, f;
      }
      lastTrackingFrame := built;
      lastTrackingRect := trackingRect;
      params := built;
    }

    /** A frame from the camera. What the run-level theorems say of `Next` holds of the controller. */
    method OnFocusTracking(info: MetaInfo) returns (ghost target: Option<MetadataObject>, ghost f: Frame)
      modifies this
      ensures cinematic == old(cinematic)
      ensures isSalientDetectionLocked <==> LockedAfter(cinematic, old(isSalientDetectionLocked), info)
      ensures target == None <==> |info.detectedObjects| == 0
      ensures target.Some? ==>
                exists o :: Selected(cinematic, old(lastTrackingFrame.targetId), info, o)
                            && TargetOf(info.detectedObjects, o, target.value)
      ensures Describes(f, info, target, old(trackingRect)) && f.Possible() && trackingRect == f.rect
      ensures View() == Next(old(View()), f)
    {
      var params: TrackingFrameParams?;
      params, target, f := BuildTrackingParams(info);
      if params == null {
        return;
      }
      if params.lost {
        return;
      }
      AdjustOffset(params);
    }

    method AdjustOffset(params: TrackingFrameParams)
      modifies params`objectType
      ensures params.objectType == MSG_OBJ_OTHER
    {
      params.objectType := MSG_OBJ_OTHER;
    }
  }
}
