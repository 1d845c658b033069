/**
 * Value types shared by the screens: the persisted enrollment record, the recognition
 * pair `Pair<Boolean, String>`, the annotated box `BoxWithText` and the face detector's
 * answer.
 */
module Entities {
  import opened Wrappers
  import opened Graphics

  /** A row of the enrolled-faces table: Room assigns `id` on insert (null before). */
  datatype FaceInfo = FaceInfo(id: Option<int>, faceName: string, faceImage: string)

  /** The outcome of analysing one face: matched or not, and the caption to show. */
  datatype Recognition = Recognition(recognized: bool, caption: string)

  /** `Pair(false, EMPTY)`: the initial and the no-match outcome. */
  const NotRecognized := Recognition(false, "")

  /** A box to draw with its caption; `additionalInfo` defaults to `Pair(false, EMPTY)`. */
  datatype BoxWithText = BoxWithText(text: string, rect: Rect, additionalInfo: Recognition)

  /** The two-argument constructor call `BoxWithText(text, rect)`. */
  function PlainBox(text: string, rect: Rect): (b: BoxWithText)
    ensures b.text == text && b.rect == rect && !b.additionalInfo.recognized
    ensures b.additionalInfo.caption == ""
  {
    BoxWithText(text, rect, NotRecognized)
  }

  /** The face detector's answer: failure, or the bounding boxes of the faces found. */
  datatype DetectionOutcome = DetectionFailed | FacesDetected(faces: seq<Rect>)
}
