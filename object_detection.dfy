/**
 * The object-detection screen: the choice between labelling and tracking, and the texts
 * and boxes built from the detector's results.
 */
module ObjectDetection {
  import opened Wrappers
  import opened Graphics
  import opened Entities
  import opened Strings
  import opened Preferences

  // ---------------------------------------------------------------- mode selection

  const ModeDetectObjectsPos: int := 0
  const ModeTrackObjectsPos: int := 1

  /** Which detection runs on a frame. */
  datatype Pipeline = Labelling | Tracking

  /**
   * `setupUi`: position 0 when the stored mode (default true) is true; with no
   * preference store at all the comparison `null == true` fails and position 1 is chosen.
   */
  function ModeFromPreferences(prefs: Option<Prefs>): (m: int)
    ensures m == ModeDetectObjectsPos || m == ModeTrackObjectsPos
    ensures prefs.None? ==> m == ModeTrackObjectsPos
    ensures prefs.Some? && ObjectDetectionModeKey !in prefs.value ==> m == ModeDetectObjectsPos
  {
    if prefs.Some? && GetBoolean(prefs.value, ObjectDetectionModeKey, true) then ModeDetectObjectsPos
    else ModeTrackObjectsPos
  }

  /** The dispatch of the frame loop: position 0 labels, any other position tracks. */
  function PipelineFor(modeSelected: int): (p: Pipeline)
    ensures p == Labelling <==> modeSelected == ModeDetectObjectsPos
  {
    if modeSelected == ModeDetectObjectsPos then Labelling else Tracking
  }

  /**
   * Labelling runs exactly when the store holds no mode or holds true; a missing store
   * means tracking.
   */
  lemma ModeSelection(prefs: Option<Prefs>)
    ensures PipelineFor(ModeFromPreferences(prefs)) == Labelling
        <==> (prefs.Some? && (ObjectDetectionModeKey !in prefs.value
                              || !prefs.value[ObjectDetectionModeKey].BoolValue?
                              || prefs.value[ObjectDetectionModeKey].b))
  {
  }

  /** The screen's mutable `modeSelected`, set by `setupUi` and by the spinner. */
  class ObjectDetectionScreen {
    var modeSelected: int

    constructor ()
      ensures modeSelected == -1
    {
      modeSelected := -1;
    }

    method SetupUi(prefs: Option<Prefs>)
      modifies this
      ensures modeSelected == ModeFromPreferences(prefs)
    {
      modeSelected := if prefs.Some? && GetBoolean(prefs.value, ObjectDetectionModeKey, true)
                      then ModeDetectObjectsPos else ModeTrackObjectsPos;
    }

    /** The spinner's `onItemSelected(position)`. */
    method OnItemSelected(position: int)
      modifies this
      ensures modeSelected == position
    {
      modeSelected := position;
    }

    /** The detection the frame loop runs next. */
    function NextPipeline(): Pipeline
      reads this
    {
      PipelineFor(modeSelected)
    }
  }

  // ---------------------------------------------------------------- labelling

  const NoObjectDetectedText: string := "No Object is Detected"

  /** An image label: its text and the rendering of its confidence float. */
  datatype Label = Label(text: string, confidence: string)

  /** A label's line: the fixed prefix, the text, the confidence, and a closing newline. */
  function LabelLine(l: Label): (s: string)
    ensures "Object Detected is : " <= s && s[|s| - 1] == '\n'
    ensures l.text <= s[21..]
  {
    "Object Detected is : " + l.text + " ---- Confidence : " + l.confidence + " \n"
  }

  /**
   * The text shown after labelling: a line per label, in order. It is the no-object
   * text exactly when there is no label, since every label line starts with 'O'.
   */
  function LabelsText(labels: seq<Label>): (t: string)
    ensures t == NoObjectDetectedText <==> |labels| == 0
  {
    if |labels| == 0 then NoObjectDetectedText
    else
      ConcatMapFirst(labels, LabelLine);
      assert ConcatMap(labels, LabelLine)[0] == 'O';
      ConcatMap(labels, LabelLine)
  }

  /**
   * The text of a non-empty label list is the first label's line followed by the lines
   * of the rest.
   */
  lemma LabelsTextLines(labels: seq<Label>)
    requires |labels| > 0
    ensures LabelsText(labels) == LabelLine(labels[0]) + ConcatMap(labels[1..], LabelLine)
  {
    ConcatMapFirst(labels, LabelLine);
  }

  /** The `for (label in labels)` loop accumulating `detectedLabelText`. */
  method DetectedLabelText(labels: seq<Label>) returns (text: string)
    ensures text == LabelsText(labels)
  {
    if |labels| == 0 {
      return NoObjectDetectedText;
    }
    var detectedLabelText := "";
    for i := 0 to |labels|
      invariant detectedLabelText == ConcatMap(labels[..i], LabelLine)
    {
      assert labels[..i + 1][..i] == labels[..i];
      detectedLabelText := detectedLabelText + "Object Detected is : " + labels[i].text
                           + " ---- Confidence : " + labels[i].confidence + " \n";
    }
    assert labels[..|labels|] == labels;
    return detectedLabelText;
  }

  // ---------------------------------------------------------------- tracking

  /** A tracked object: its bounding box and its labels (at most three, best first). */
  datatype DetectedObject = DetectedObject(boundingBox: Rect, labels: seq<Label>)

  /** One box per object that has a label, captioned with its first label. */
  function TrackedBoxes(objects: seq<DetectedObject>): (r: seq<BoxWithText>)
    ensures |r| <= |objects|
    ensures forall i :: 0 <= i < |r| ==> !r[i].additionalInfo.recognized
  {
    if |objects| == 0 then []
    else
      var last := objects[|objects| - 1];
      TrackedBoxes(objects[..|objects| - 1])
      + (if |last.labels| > 0 then [PlainBox(last.labels[0].text, last.boundingBox)] else [])
  }

  /** A tracked label's line: the fixed prefix, the text, the confidence, and a newline. */
  function TrackLine(l: Label): (s: string)
    ensures "Object Tracked : " <= s && s[|s| - 1] == '\n'
    ensures l.text <= s[17..]
  {
    "Object Tracked : " + l.text + " : " + l.confidence + "\n"
  }

  /** The lines logged for one object: one per label. */
  function ObjectTrackLines(o: DetectedObject): string {
    ConcatMap(o.labels, TrackLine)
  }

  /** The `StringBuilder` contents: a line for every label of every object. */
  function TrackLog(objects: seq<DetectedObject>): (t: string)
    ensures |objects| == 0 ==> t == ""
    ensures |objects| > 0 ==> t == ObjectTrackLines(objects[0]) + ConcatMap(objects[1..], ObjectTrackLines)
  {
    if |objects| == 0 then ""
    else
      ConcatMapFirst(objects, ObjectTrackLines);
      ConcatMap(objects, ObjectTrackLines)
  }

  /** The number of objects that have a label. */
  function CountLabelled(objects: seq<DetectedObject>): (c: nat)
    ensures c <= |objects|
  {
    if |objects| == 0 then 0
    else CountLabelled(objects[..|objects| - 1]) + (if |objects[|objects| - 1].labels| > 0 then 1 else 0)
  }

  /** Exactly the labelled objects get a box, so there are at most as many boxes as objects. */
  lemma {:induction false} TrackedBoxesCount(objects: seq<DetectedObject>)
    ensures |TrackedBoxes(objects)| == CountLabelled(objects) <= |objects|
  {
    if |objects| > 0 {
      TrackedBoxesCount(objects[..|objects| - 1]);
    }
  }

  /**
   * A box is drawn for an object exactly when it has a label; the box is the object's
   * bounding box captioned with its first label, with no recognition attached.
   */
  lemma {:induction false} TrackedBoxesMembers(objects: seq<DetectedObject>, b: BoxWithText)
    ensures b in TrackedBoxes(objects)
        <==> exists i :: 0 <= i < |objects| && |objects[i].labels| > 0
               && b == PlainBox(objects[i].labels[0].text, objects[i].boundingBox)
  {
    if |objects| > 0 {
      var init := objects[..|objects| - 1];
      TrackedBoxesMembers(init, b);
      assert forall i :: 0 <= i < |init| ==> init[i] == objects[i];
    }
  }

  /** The inner loop of the success listener: appends a line for each label of one object. */
  method AppendTrackLines(sb: string, labels: seq<Label>) returns (r: string)
    ensures r == sb + ConcatMap(labels, TrackLine)
  {
    r := sb;
    for j := 0 to |labels|
      invariant r == sb + ConcatMap(labels[..j], TrackLine)
    {
      var objectLabel := labels[j];
      ConcatMapSnoc(sb, labels, j, TrackLine);
      r := r + TrackLine(objectLabel);
    }
    assert labels[..|labels|] == labels;
  }

  /**
   * The success listener of `detectAndTrackObjectsOnImage`: the boxes to draw, and the
   * new text (unchanged when nothing was detected).
   */
  method TrackObjects(detectedObjects: seq<DetectedObject>) returns (list: seq<BoxWithText>, text: Option<string>)
    ensures list == TrackedBoxes(detectedObjects)
    ensures text == if |detectedObjects| == 0 then None else Some(TrackLog(detectedObjects))
  {
    list := [];
    var sb := "";
    for i := 0 to |detectedObjects|
      invariant list == TrackedBoxes(detectedObjects[..i])
      invariant sb == TrackLog(detectedObjects[..i])
    {
      var detectedObject := detectedObjects[i];
      assert detectedObjects[..i + 1][..i] == detectedObjects[..i];
      sb := AppendTrackLines(sb, detectedObject.labels);
      if |detectedObject.labels| > 0 {
        list := list + [PlainBox(detectedObject.labels[0].text, detectedObject.boundingBox)];
      }
    }
    assert detectedObjects[..|detectedObjects|] == detectedObjects;
    text := if |detectedObjects| == 0 then None else Some(sb);
  }
}
