/**
 * The face-detection screen: per frame, every detected face is cropped, analysed
 * against the gallery and given a numbered box; the boxes are drawn green or red and a
 * summary text is built. The gallery field is replaced whenever the enrolled faces change.
 */
module FaceDetection {
  import opened Wrappers
  import opened Graphics
  import opened Strings
  import opened Entities
  import opened Crop
  import opened FaceMatching

  const NoFaceDetectedText := "No Face is Detected"

  /**
   * The vendor side of recognition: the embedding model applied to a bitmap (resize to
   * 112x112, normalise, run the interpreter) and the formatting of the confidence
   * figure from a distance.
   */
  datatype FaceNet = FaceNet(embed: Bitmap -> Embedding, confidenceText: real -> string)

  /** The string resources `one_face_detected_text` and `more_than_one_face_detected_text` (formatted with the count). */
  datatype Resources = Resources(oneFaceDetected: string, moreThanOneFaceDetected: int -> string)

  /** Every gallery vector is at least as long as an embedding. */
  predicate GalleryFits(gallery: seq<Person>) {
    forall j :: 0 <= j < |gallery| && gallery[j].faceVector.Some?
      ==> EmbeddingSize <= |gallery[j].faceVector.value|
  }

  /** `analyzeCroppedFace(faceBitmap)`: embed the crop, then take the match decision. */
  function AnalyzeFace(faceBitmap: Bitmap, gallery: seq<Person>, net: FaceNet): (r: Recognition)
    requires GalleryFits(gallery)
    ensures !r.recognized ==> r == NotRecognized
    ensures r.recognized ==> |gallery| > 0
  {
    Analyze(net.embed(faceBitmap), gallery, net.confidenceText)
  }

  // ---------------------------------------------------------------- per-frame bookkeeping

  /** The loop state of `getInfoFromFaceDetected`: `boxes`, `allAnalyzedFaces`, `faceRecognized`. */
  datatype FrameAcc = FrameAcc(boxes: seq<BoxWithText>, analyzed: seq<Recognition>, current: Recognition)

  /** The recognition a face's box carries: its own analysis if its crop succeeds, else `previous`. */
  function FaceRecognition(image: Bitmap, face: Rect, previous: Recognition, gallery: seq<Person>, net: FaceNet): (r: Recognition)
    requires GalleryFits(gallery)
    ensures CropToBBox(image, face).None? ==> r == previous
    ensures CropToBBox(image, face).Some? ==> r == AnalyzeFace(CropToBBox(image, face).value, gallery, net)
  {
    var crop := CropToBBox(image, face);
    if crop.Some? then AnalyzeFace(crop.value, gallery, net) else previous
  }

  /** The loop state after the first `n` faces. */
  function ProcessFaces(image: Bitmap, faces: seq<Rect>, n: nat, gallery: seq<Person>, net: FaceNet): (acc: FrameAcc)
    requires n <= |faces| && GalleryFits(gallery)
    ensures |acc.boxes| == n
  {
    if n == 0 then FrameAcc([], [], NotRecognized)
    else
      var acc := ProcessFaces(image, faces, n - 1, gallery, net);
      var current := FaceRecognition(image, faces[n - 1], acc.current, gallery, net);
      FrameAcc(acc.boxes + [BoxWithText(NatToString(n), faces[n - 1], current)],
               if CropToBBox(image, faces[n - 1]).Some? then acc.analyzed + [current] else acc.analyzed,
               current)
  }

  /** The analyses of the faces whose crop succeeds, in face order (an independent reference). */
  function CroppedAnalyses(image: Bitmap, faces: seq<Rect>, gallery: seq<Person>, net: FaceNet): (r: seq<Recognition>)
    requires GalleryFits(gallery)
    ensures |r| <= |faces|
  {
    if |faces| == 0 then []
    else
      var crop := CropToBBox(image, faces[0]);
      (if crop.Some? then [AnalyzeFace(crop.value, gallery, net)] else [])
      + CroppedAnalyses(image, faces[1..], gallery, net)
  }

  lemma {:induction false} CroppedAnalysesSnoc(image: Bitmap, faces: seq<Rect>, face: Rect, gallery: seq<Person>, net: FaceNet)
    requires GalleryFits(gallery)
    ensures CroppedAnalyses(image, faces + [face], gallery, net)
         == CroppedAnalyses(image, faces, gallery, net)
            + (if CropToBBox(image, face).Some?
               then [AnalyzeFace(CropToBBox(image, face).value, gallery, net)] else [])
    decreases |faces|
  {
    if |faces| == 0 {
      assert [face][1..] == [];
    } else {
      assert (faces + [face])[1..] == faces[1..] + [face];
      CroppedAnalysesSnoc(image, faces[1..], face, gallery, net);
    }
  }

  /** The boxes of the first `n` faces are the first `n` boxes of any later state. */
  lemma {:induction false} FramePrefix(image: Bitmap, faces: seq<Rect>, n: nat, m: nat, gallery: seq<Person>, net: FaceNet)
    requires n <= m <= |faces| && GalleryFits(gallery)
    ensures ProcessFaces(image, faces, m, gallery, net).boxes[..n]
         == ProcessFaces(image, faces, n, gallery, net).boxes
    decreases m
  {
    if n < m {
      FramePrefix(image, faces, n, m - 1, gallery, net);
      var prev := ProcessFaces(image, faces, m - 1, gallery, net).boxes;
      assert ProcessFaces(image, faces, m, gallery, net).boxes[..n] == prev[..n];
    }
  }

  /**
   * One box per face, in order: box `i` is labelled with the decimal text of `i + 1` and
   * carries face `i`'s rectangle. Its recognition is the face's own analysis when the
   * crop succeeds, and otherwise the previous box's (initially `(false, "")`).
   */
  lemma FrameBox(image: Bitmap, faces: seq<Rect>, gallery: seq<Person>, net: FaceNet, i: nat)
    requires i < |faces| && GalleryFits(gallery)
    ensures var boxes := ProcessFaces(image, faces, |faces|, gallery, net).boxes;
      boxes[i].text == NatToString(i + 1)
      && boxes[i].rect == faces[i]
      && boxes[i].additionalInfo
         == FaceRecognition(image, faces[i],
                            if i == 0 then NotRecognized else boxes[i - 1].additionalInfo,
                            gallery, net)
  {
    var boxes := ProcessFaces(image, faces, |faces|, gallery, net).boxes;
    FramePrefix(image, faces, i + 1, |faces|, gallery, net);
    var upto := ProcessFaces(image, faces, i + 1, gallery, net);
    assert boxes[i] == upto.boxes[i];
    if i > 0 {
      FramePrefix(image, faces, i, |faces|, gallery, net);
      FrameCurrent(image, faces, i, gallery, net);
      assert boxes[i - 1] == ProcessFaces(image, faces, i, gallery, net).boxes[i - 1];
    }
  }

  /** `faceRecognized` is the last box's recognition, initially `(false, "")`. */
  lemma FrameCurrent(image: Bitmap, faces: seq<Rect>, n: nat, gallery: seq<Person>, net: FaceNet)
    requires n <= |faces| && GalleryFits(gallery)
    ensures var acc := ProcessFaces(image, faces, n, gallery, net);
      acc.current == if n == 0 then NotRecognized else acc.boxes[n - 1].additionalInfo
  {
  }

  /** `allAnalyzedFaces` holds one entry per successful crop, in face order. */
  lemma {:induction false} FrameAnalyses(image: Bitmap, faces: seq<Rect>, n: nat, gallery: seq<Person>, net: FaceNet)
    requires n <= |faces| && GalleryFits(gallery)
    ensures ProcessFaces(image, faces, n, gallery, net).analyzed
         == CroppedAnalyses(image, faces[..n], gallery, net)
    ensures |ProcessFaces(image, faces, n, gallery, net).analyzed| <= n
  {
    if n > 0 {
      FrameAnalyses(image, faces, n - 1, gallery, net);
      assert faces[..n] == faces[..n - 1] + [faces[n - 1]];
      CroppedAnalysesSnoc(image, faces[..n - 1], faces[n - 1], gallery, net);
    }
  }

  /**
   * A box's recognition is `(false, "")` or the analysis of this face or of an earlier
   * face whose crop succeeded: a face that cannot be cropped inherits, it never invents.
   */
  lemma FrameRecognitionOrigin(image: Bitmap, faces: seq<Rect>, gallery: seq<Person>, net: FaceNet, i: nat)
    requires i < |faces| && GalleryFits(gallery)
    ensures var info := ProcessFaces(image, faces, |faces|, gallery, net).boxes[i].additionalInfo;
      info == NotRecognized
      || exists j :: 0 <= j <= i && CropToBBox(image, faces[j]).Some?
           && info == AnalyzeFace(CropToBBox(image, faces[j]).value, gallery, net)
    decreases i
  {
    FrameBox(image, faces, gallery, net, i);
    if CropToBBox(image, faces[i]).Some? {
      assert 0 <= i <= i;
    } else if i > 0 {
      FrameRecognitionOrigin(image, faces, gallery, net, i - 1);
    }
  }

  /** Box labels are pairwise distinct. */
  lemma FrameLabelsDistinct(image: Bitmap, faces: seq<Rect>, gallery: seq<Person>, net: FaceNet, i: nat, j: nat)
    requires i < j < |faces| && GalleryFits(gallery)
    ensures ProcessFaces(image, faces, |faces|, gallery, net).boxes[i].text
         != ProcessFaces(image, faces, |faces|, gallery, net).boxes[j].text
  {
    FrameBox(image, faces, gallery, net, i);
    FrameBox(image, faces, gallery, net, j);
    if NatToString(i + 1) == NatToString(j + 1) {
      NatToStringInjective(i + 1, j + 1);
    }
  }

  // ---------------------------------------------------------------- summary text

  /** The recognised entries, in order (`filter { it.first == true }`). */
  function RecognizedOnly(analyzed: seq<Recognition>): (r: seq<Recognition>)
    ensures forall k :: 0 <= k < |r| ==> r[k].recognized
  {
    if |analyzed| == 0 then []
    else
      RecognizedOnly(analyzed[..|analyzed| - 1])
      + (if analyzed[|analyzed| - 1].recognized then [analyzed[|analyzed| - 1]] else [])
  }

  /** The line a recognised face adds to the summary. */
  function FoundLine(found: Recognition): (s: string)
    ensures |s| == 15 + |found.caption|
    ensures s[..15] == "\n Face Found : " && s[15..] == found.caption
  {
    "\n Face Found : " + found.caption
  }

  /** The text shown (and announced) for a frame with `faceCount` faces. */
  function SummaryText(faceCount: nat, analyzed: seq<Recognition>, res: Resources): (s: string)
    ensures faceCount == 1 ==> res.oneFaceDetected <= s
    ensures faceCount == 1 && (|analyzed| == 0 || !analyzed[0].recognized) ==> s == res.oneFaceDetected
    ensures faceCount != 1 ==> res.moreThanOneFaceDetected(faceCount) <= s
  {
    if faceCount == 1 then
      if |analyzed| > 0 && analyzed[0].recognized then
        res.oneFaceDetected + " Face Found : " + analyzed[0].caption
      else res.oneFaceDetected
    else
      res.moreThanOneFaceDetected(faceCount) + ConcatMap(RecognizedOnly(analyzed), FoundLine)
  }

  /** With a single face the text names the person exactly when that face was cropped and matched. */
  lemma SummaryForOneFace(image: Bitmap, face: Rect, gallery: seq<Person>, net: FaceNet, res: Resources)
    requires GalleryFits(gallery)
    ensures var crop := CropToBBox(image, face);
      SummaryText(1, ProcessFaces(image, [face], 1, gallery, net).analyzed, res)
      == if crop.Some? && AnalyzeFace(crop.value, gallery, net).recognized
         then res.oneFaceDetected + " Face Found : " + AnalyzeFace(crop.value, gallery, net).caption
         else res.oneFaceDetected
  {
    assert ProcessFaces(image, [face], 0, gallery, net).analyzed == [];
  }

  lemma {:induction false} RecognizedOnlyNone(analyzed: seq<Recognition>)
    requires forall k :: 0 <= k < |analyzed| ==> !analyzed[k].recognized
    ensures RecognizedOnly(analyzed) == []
  {
    if |analyzed| > 0 {
      RecognizedOnlyNone(analyzed[..|analyzed| - 1]);
    }
  }

  lemma {:induction false} RecognizedOnlyAppend(a: seq<Recognition>, b: seq<Recognition>)
    ensures RecognizedOnly(a + b) == RecognizedOnly(a) + RecognizedOnly(b)
    decreases |b|
  {
    if |b| == 0 {
      assert a + b == a;
    } else {
      assert (a + b)[..|a + b| - 1] == a + b[..|b| - 1];
      RecognizedOnlyAppend(a, b[..|b| - 1]);
    }
  }

  /**
   * With several faces the text is the formatted count followed by the found-lines of
   * the analysed faces taken in order: appending an analysis appends its line when,
   * and only when, it is a match.
   */
  lemma SummaryForSeveralFaces(faceCount: nat, analyzed: seq<Recognition>, next: Recognition, res: Resources)
    requires faceCount != 1
    ensures SummaryText(faceCount, analyzed + [next], res)
         == SummaryText(faceCount, analyzed, res)
            + (if next.recognized then FoundLine(next) else "")
  {
    var extra := if next.recognized then [next] else [];
    RecognizedOnlySnoc(analyzed, next);
    ConcatMapAppend(RecognizedOnly(analyzed), extra, FoundLine);
    FoundLinesSingle(extra);
  }

  lemma RecognizedOnlySnoc(analyzed: seq<Recognition>, next: Recognition)
    ensures RecognizedOnly(analyzed + [next])
         == RecognizedOnly(analyzed) + (if next.recognized then [next] else [])
  {
    assert (analyzed + [next])[..|analyzed|] == analyzed;
  }

  lemma FoundLinesSingle(found: seq<Recognition>)
    requires |found| <= 1
    ensures ConcatMap(found, FoundLine) == if |found| == 0 then "" else FoundLine(found[0])
  {
    if |found| == 1 {
      assert found[..0] == [];
    }
  }

  /** With several faces and no match the text is the formatted count alone. */
  lemma SummaryForSeveralFacesNoMatch(faceCount: nat, analyzed: seq<Recognition>, res: Resources)
    requires faceCount != 1
    requires forall k :: 0 <= k < |analyzed| ==> !analyzed[k].recognized
    ensures SummaryText(faceCount, analyzed, res) == res.moreThanOneFaceDetected(faceCount)
  {
    RecognizedOnlyNone(analyzed);
  }

  // ---------------------------------------------------------------- drawing

  /** A rectangle stroked on the output copy, with the caption drawn at its top. */
  datatype Stroke = Stroke(rect: Rect, color: Color, text: string)

  /** What the screen shows: the frame itself, or an annotated copy of it. */
  datatype Shown = Original(bitmap: Bitmap) | Annotated(source: Bitmap, strokes: seq<Stroke>)

  /** The image shown and the new text (None: the text view is left as it was). */
  datatype FrameView = FrameView(shown: Shown, text: Option<string>)

  /**
   * `drawDetectionResult`: one rectangle per box, green when the box's recognition is a
   * match and red otherwise, captioned with the box text.
   */
  method DrawDetectionResult(detectionResults: seq<BoxWithText>) returns (strokes: seq<Stroke>)
    ensures |strokes| == |detectionResults|
    ensures forall i :: 0 <= i < |strokes| ==>
              strokes[i].rect == detectionResults[i].rect
              && strokes[i].text == detectionResults[i].text
              && (strokes[i].color == Green <==> detectionResults[i].additionalInfo.recognized)
              && (strokes[i].color == Red <==> !detectionResults[i].additionalInfo.recognized)
  {
    strokes := [];
    for i := 0 to |detectionResults|
      invariant |strokes| == i
      invariant forall k :: 0 <= k < i ==>
                  strokes[k].rect == detectionResults[k].rect
                  && strokes[k].text == detectionResults[k].text
                  && (strokes[k].color == Green <==> detectionResults[k].additionalInfo.recognized)
                  && (strokes[k].color == Red <==> !detectionResults[k].additionalInfo.recognized)
    {
      var box := detectionResults[i];
      var color := if box.additionalInfo.recognized then Green else Red;
      strokes := strokes + [Stroke(box.rect, color, box.text)];
    }
  }

  /** The face-detection screen with its gallery snapshot `recognisedFaceList`. */
  class FaceDetectionScreen {
    var recognisedFaceList: seq<Person>

    predicate Valid()
      reads this
    {
      GalleryFits(recognisedFaceList)
    }

    constructor ()
      ensures recognisedFaceList == [] && Valid()
    {
      recognisedFaceList := [];
    }

    /** The observer of the enrolled faces: the gallery is rebuilt and replaced as a whole. */
    method OnFaceListChanged(faceList: seq<FaceInfo>, embedEncoded: string -> Embedding)
      modifies this
      ensures recognisedFaceList == RecognizedFaces(faceList, embedEncoded)
      ensures Valid()
    {
      recognisedFaceList := CreateRecognizedFaceList(faceList, embedEncoded);
      forall j | 0 <= j < |recognisedFaceList| && recognisedFaceList[j].faceVector.Some?
        ensures EmbeddingSize <= |recognisedFaceList[j].faceVector.value|
      {
        RecognizedFacesFit(faceList, embedEncoded, seq(EmbeddingSize, _ => 0.0));
        assert recognisedFaceList[j] in RecognizedFaces(faceList, embedEncoded);
        RecognizedFacesMembers(faceList, embedEncoded, recognisedFaceList[j]);
      }
    }

    /** `analyzeCroppedFace`: a match only for a non-empty gallery and a best distance below 1.0. */
    method AnalyzeCroppedFace(faceBitmap: Bitmap, net: FaceNet) returns (r: Recognition)
      requires Valid()
      ensures r == AnalyzeFace(faceBitmap, recognisedFaceList, net)
    {
      var faceOutput := net.embed(faceBitmap);
      if |recognisedFaceList| > 0 {
        var result := FindNearestFace(faceOutput, recognisedFaceList);
        if result.Some? && result.value.distance < 1.0 {
          return Recognition(true, "Person-" + NameText(result.value.name)
                                   + " \n Confidence-" + net.confidenceText(result.value.distance));
        }
      }
      return NotRecognized;
    }

    /**
     * `getInfoFromFaceDetected`: builds the boxes and analyses, draws them on a copy of
     * the frame and derives the summary text.
     */
    method GetInfoFromFaceDetected(image: Bitmap, faces: seq<Rect>, net: FaceNet, res: Resources)
      returns (view: FrameView, boxes: seq<BoxWithText>, allAnalyzedFaces: seq<Recognition>)
      requires Valid()
      ensures boxes == ProcessFaces(image, faces, |faces|, recognisedFaceList, net).boxes
      ensures allAnalyzedFaces == ProcessFaces(image, faces, |faces|, recognisedFaceList, net).analyzed
      ensures view.shown.Annotated? && view.shown.source == image && |view.shown.strokes| == |faces|
      ensures forall i :: 0 <= i < |faces| ==>
                view.shown.strokes[i].rect == faces[i]
                && view.shown.strokes[i].text == boxes[i].text == NatToString(i + 1)
                && (view.shown.strokes[i].color == Green <==> boxes[i].additionalInfo.recognized)
                && (view.shown.strokes[i].color == Red <==> !boxes[i].additionalInfo.recognized)
      ensures view.text == Some(SummaryText(|faces|, allAnalyzedFaces, res))
    {
      boxes := [];
      allAnalyzedFaces := [];
      var faceRecognized := NotRecognized;
      for i := 0 to |faces|
        invariant FrameAcc(boxes, allAnalyzedFaces, faceRecognized)
               == ProcessFaces(image, faces, i, recognisedFaceList, net)
      {
        var face := faces[i];
        var faceNumber := NatToString(i + 1);
        var croppedFaceBitmap := CropToBBox(image, face);
        if croppedFaceBitmap.Some? {
          faceRecognized := AnalyzeCroppedFace(croppedFaceBitmap.value, net);
          allAnalyzedFaces := allAnalyzedFaces + [faceRecognized];
        }
        boxes := boxes + [BoxWithText(faceNumber, face, faceRecognized)];
      }
      forall i | 0 <= i < |faces|
        ensures boxes[i].rect == faces[i] && boxes[i].text == NatToString(i + 1)
      {
        FrameBox(image, faces, recognisedFaceList, net, i);
      }
      var strokes := DrawDetectionResult(boxes);

      var faceDetectedText;
      if |faces| == 1 {
        if |allAnalyzedFaces| > 0 && allAnalyzedFaces[0].recognized {
          faceDetectedText := res.oneFaceDetected + " Face Found : " + allAnalyzedFaces[0].caption;
        } else {
          faceDetectedText := res.oneFaceDetected;
        }
      } else {
        var allFoundFaces := RecognizedOnly(allAnalyzedFaces);
        var faceFoundString := "";
        for k := 0 to |allFoundFaces|
          invariant faceFoundString == ConcatMap(allFoundFaces[..k], FoundLine)
        {
          ConcatMapSnoc("", allFoundFaces, k, FoundLine);
          faceFoundString := faceFoundString + FoundLine(allFoundFaces[k]);
        }
        assert allFoundFaces[..|allFoundFaces|] == allFoundFaces;
        faceDetectedText := res.moreThanOneFaceDetected(|faces|) + faceFoundString;
      }
      view := FrameView(Annotated(image, strokes), Some(faceDetectedText));
    }

    /**
     * `detectFacesOnImage`: nothing happens without a frame; a detector failure shows the
     * frame unannotated and keeps the text; no faces shows the frame with
     * "No Face is Detected"; otherwise the annotated copy, with one numbered stroke per
     * face that is green exactly when the face's box is recognised and red otherwise,
     * and the summary.
     */
    method DetectFacesOnImage(imageBitmap: Option<Bitmap>, detection: DetectionOutcome, net: FaceNet, res: Resources)
      returns (view: Option<FrameView>)
      requires Valid()
      ensures imageBitmap.None? ==> view.None?
      ensures imageBitmap.Some? && detection.DetectionFailed?
              ==> view == Some(FrameView(Original(imageBitmap.value), None))
      ensures imageBitmap.Some? && detection.FacesDetected? && |detection.faces| == 0
              ==> view == Some(FrameView(Original(imageBitmap.value), Some(NoFaceDetectedText)))
      ensures imageBitmap.Some? && detection.FacesDetected? && |detection.faces| > 0
              ==> view.Some? && view.value.shown.Annotated?
                  && view.value.shown.source == imageBitmap.value
                  && view.value.text == Some(SummaryText(|detection.faces|,
                       ProcessFaces(imageBitmap.value, detection.faces, |detection.faces|,
                                    recognisedFaceList, net).analyzed, res))
                  && |view.value.shown.strokes| == |detection.faces|
      ensures imageBitmap.Some? && detection.FacesDetected? && |detection.faces| > 0
              ==> view.Some? && view.value.shown.Annotated?
                  && |view.value.shown.strokes| == |detection.faces|
                  && forall i :: 0 <= i < |detection.faces| ==>
                       view.value.shown.strokes[i].rect == detection.faces[i]
                       && view.value.shown.strokes[i].text == NatToString(i + 1)
                       && (view.value.shown.strokes[i].color == Green <==>
                           ProcessFaces(imageBitmap.value, detection.faces, |detection.faces|,
                                        recognisedFaceList, net).boxes[i].additionalInfo.recognized)
                       && (view.value.shown.strokes[i].color == Red <==>
                           !ProcessFaces(imageBitmap.value, detection.faces, |detection.faces|,
                                         recognisedFaceList, net).boxes[i].additionalInfo.recognized)
    {
      if imageBitmap.None? {
        return None;
      }
      var bitmap := imageBitmap.value;
      match detection
      case DetectionFailed =>
        view := Some(FrameView(Original(bitmap), None));
      case FacesDetected(faces) =>
        if |faces| == 0 {
          view := Some(FrameView(Original(bitmap), Some(NoFaceDetectedText)));
        } else {
          var frame, _, _ := GetInfoFromFaceDetected(bitmap, faces, net, res);
          view := Some(frame);
        }
    }
  }
}
