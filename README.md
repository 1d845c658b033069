# SmartVision core in Dafny

SmartVision is an Android assistant for visually impaired users. It takes frames from a camera server, finds faces or objects in them, and shows (and can speak) what it found. This project models, in Dafny, the decision logic of its four central screens.

- **Face detection screen** (`FaceDetectionFragment.kt`). The gallery of known faces is built from the enrolled records. Each detected face is cropped with `cropToBBox`, embedded, and matched by an L2 nearest-neighbour search with a strict threshold of 1.0. Every face gets a numbered box, green when matched and red otherwise. A summary text follows: one found-face line per match, and a special case for a single face. Modules `Crop`, `FaceMatching`, `FaceDetection`.
- **Object detection screen** (`ObjectDetectionFragment.kt`). The mode (labelling or tracking) is chosen from the stored preference and the spinner. The label text and the tracking log are built in loops, and a box is listed for every labelled object. `calculateInSampleSize` sizes the downloaded frame. Modules `ObjectDetection`, `FrameDecoding`.
- **Settings screen** (`SettingsFragment.kt`). Controls are set up from the shared preferences. Each listener writes its key. Restore defaults rewrites six keys. A photo's last face is cropped, shown and saved as the familiar face. Modules `Preferences`, `Settings`.
- **Face settings screen** (`FaceSettingsFragment.kt`). The enrolled faces are listed, with an error view when there are none. A new face is enrolled from a photo through the dialog. An existing face is edited or deleted. Module `FaceSettings`.

Shared modules:
- `Wrappers`: `Option`.
- `Graphics`: rectangles and bitmaps. A bitmap is either a picture of known size or a region copied out of another bitmap. Pixels are not modelled.
- `Strings`: `Int.toString()` for non-negative numbers, and the concatenation a loop accumulates.
- `Entities`: `FaceInfo`, the `(Boolean, String)` recognition pair, `BoxWithText`, and the detector's outcome.

The model follows the program's form. A screen whose fields change is a `class`:
- `FaceDetectionScreen` holds `recognisedFaceList`;
- `ObjectDetectionScreen` holds `modeSelected`;
- `SettingsScreen` holds the preference store and the controls;
- `FaceSettingsScreen` holds the list and the visibility flags.

The loops of the source are methods with loop invariants. Most of them are proved equal to a specification function, and the properties are lemmas about that function. `DrawDetectionResult` instead states its per-box properties directly.

Some inputs come from code outside this model. They are parameters:
- the face-embedding model (`embed`, `embedEncoded`);
- the confidence formatting (`confidenceText`). It receives the SQUARED distance `s` and stands for the source's text of the true distance, `BigDecimal(sqrt(s) * 100).setScale(2, FLOOR)` followed by "%";
- Base64/JPEG encoding and decoding (`encode`, `decode`);
- the bitmap decoder (`decodeWith`);
- the string resources (`Resources`, `defaultUrl`);
- the ML detectors' results (`DetectionOutcome`, the label and object lists);
- the name typed into the dialog.

Where the intended behaviour and the code differ, the model follows the code:
- `cropToBBox` (in all three copies) compares the box's `bottom` with the image **width**, not its height. Its right edge is tested as `left + width()`, which is the same as `right`. The crop therefore equals "inside the image" only on landscape images (`CropCompleteForLandscape`). On a portrait image it rejects some boxes that lie fully inside (`CropRejectsPortraitInterior`).
- `calculateInSampleSize` does not loop forever when neither requested dimension is positive, e.g. a 0x0 image view before layout. Kotlin's 32-bit `inSampleSize *= 2` wraps to -2^31 and then to 0. The next `halfHeight / inSampleSize` throws `ArithmeticException`, and `downloadImageFromUrl` catches it and returns null. The model keeps that path as `DivisionByZero` (`SampleSizeProperties`, `DownloadedFrame`). It states no precondition against it.
- The analysis keeps `faceRecognized` across faces. A face whose crop fails inherits the previous face's recognition in its box, and adds nothing to `allAnalyzedFaces` (`FrameBox`, `FrameRecognitionOrigin`).

One departure is deliberate. Dafny has no square root on reals, so face distances are kept squared. The square root is strictly increasing on non-negative numbers, so every comparison has the same outcome (`SqrtPreservesLess`, `SqrtPreservesThreshold`). The value reported as a match's distance differs, though; the section "Left out" says what that means.

A face's label is `faces.indexOf(face) + 1`, and the model numbers faces by their position in the list. The two agree because ML Kit's `Face` does not override `equals`, so `indexOf` finds the face itself (`FrameBox`, `FrameLabelsDistinct`).

## Model

| member | source | states |
|---|---|---|
| Graphics.CreateBitmap | app/src/main/java/com/mobileassistant/smartvision/ui/detect_faces/FaceDetectionFragment.kt:386-392 | the bitmap taken out of the source has the requested size and records its source and its top-left corner |
| Entities.PlainBox | app/src/main/java/com/mobileassistant/smartvision/ui/detect_objects/ObjectDetectionFragment.kt:229-233 | the definition: a box from a label text and a rectangle, with the `(false, "")` recognition; what the tracked boxes are is proved in `TrackedBoxesMembers` |
| Strings.Digit | app/src/main/java/com/mobileassistant/smartvision/ui/detect_faces/FaceDetectionFragment.kt:248 | a decimal digit renders as one of the characters `0`..`9` |
| Strings.NatToString | app/src/main/java/com/mobileassistant/smartvision/ui/detect_faces/FaceDetectionFragment.kt:248 | `Int.toString()` of a non-negative number is a non-empty run of decimal digits, one digit long exactly below 10 |
| Strings.DigitInjective | app/src/main/java/com/mobileassistant/smartvision/ui/detect_faces/FaceDetectionFragment.kt:248 | different digits render as different characters |
| Strings.NatToStringInjective | app/src/main/java/com/mobileassistant/smartvision/ui/detect_faces/FaceDetectionFragment.kt:248 | different face numbers give different box labels (proved by induction on the digits) |
| Strings.NatToStringExamples | app/src/main/java/com/mobileassistant/smartvision/ui/detect_faces/FaceDetectionFragment.kt:248 | faces 1 and 12 are labelled "1" and "12" |
| Strings.ConcatMapAppend | app/src/main/java/com/mobileassistant/smartvision/ui/detect_faces/FaceDetectionFragment.kt:278-281 | text accumulated over two lists in turn is the text of the first list followed by the text of the second |
| Strings.ConcatMapSnoc | app/src/main/java/com/mobileassistant/smartvision/ui/detect_objects/ObjectDetectionFragment.kt:181-186 | one more loop step appends exactly the new element's line to the text built so far |
| Strings.ConcatMapFirst | app/src/main/java/com/mobileassistant/smartvision/ui/detect_objects/ObjectDetectionFragment.kt:180-187 | the text of a non-empty list starts with the first element's line, followed by the text of the rest |
| Crop.Admissible | app/src/main/java/com/mobileassistant/smartvision/ui/detect_faces/FaceDetectionFragment.kt:384 | the acceptance test, term for term, reduces to: left and top non-negative, right at most the width, bottom at most both the width and the height |
| Crop.CropToBBox | app/src/main/java/com/mobileassistant/smartvision/ui/detect_faces/FaceDetectionFragment.kt:377-393 | the crop succeeds exactly when left and top are non-negative, right is at most the image width and bottom is at most both the width and the height; it is then the region under the box |
| Crop.CropIsInside | app/src/main/java/com/mobileassistant/smartvision/ui/detect_faces/FaceDetectionFragment.kt:384 | an accepted box lies inside the image and the crop has the box's width and height |
| Crop.CropCompleteForLandscape | app/src/main/java/com/mobileassistant/smartvision/ui/detect_faces/FaceDetectionFragment.kt:384 | on an image at least as wide as it is tall, the crop succeeds exactly for boxes inside the image |
| Crop.CropRejectsPortraitInterior | app/src/main/java/com/mobileassistant/smartvision/ui/settings/SettingsFragment.kt:293 | on a 100x200 portrait image the test rejects a box lying fully inside the image, because it compares `bottom` with the width |
| Crop.CropLastFace | app/src/main/java/com/mobileassistant/smartvision/ui/settings/FaceSettingsFragment.kt:179-183 | the crop kept after the loop over the faces is that of the last face; with no face there is none |
| Preferences.GetBoolean | app/src/main/java/com/mobileassistant/smartvision/ui/settings/SettingsFragment.kt:95 | a stored boolean is returned; a missing key yields the caller's default |
| Preferences.GetString | app/src/main/java/com/mobileassistant/smartvision/ui/settings/SettingsFragment.kt:98-99 | a stored string is returned; a missing key yields the caller's default |
| Preferences.GetInt | app/src/main/java/com/mobileassistant/smartvision/ui/settings/SettingsFragment.kt:106-108 | a stored integer is returned; a missing key yields the caller's default |
| Preferences.PutThenGetBoolean | app/src/main/java/com/mobileassistant/smartvision/ui/settings/SettingsFragment.kt:146-149 | a boolean read back after it is put is the value put |
| Preferences.PutThenGetString | app/src/main/java/com/mobileassistant/smartvision/ui/settings/SettingsFragment.kt:150-153 | a string read back after it is put is the value put |
| Preferences.PutThenGetInt | app/src/main/java/com/mobileassistant/smartvision/ui/settings/SettingsFragment.kt:131-133 | an integer read back after it is put is the value put |
| Preferences.PutKeepsOtherReads | app/src/main/java/com/mobileassistant/smartvision/ui/settings/SettingsFragment.kt:146-159 | a put leaves every read of another key unchanged, whatever the default |
| FaceMatching.SqDistUpTo | app/src/main/java/com/mobileassistant/smartvision/ui/detect_faces/FaceDetectionFragment.kt:402-408 | the partial sum of squared differences is never negative |
| FaceMatching.SqDist | app/src/main/java/com/mobileassistant/smartvision/ui/detect_faces/FaceDetectionFragment.kt:403-408 | the definition: the squared distance over the probe's indices, never negative, and 0 between a vector and itself; symmetry and the ignored tail are proved in `SqDistSymmetric` and `SqDistIgnoresTail` |
| FaceMatching.SqDistUpToSelf | app/src/main/java/com/mobileassistant/smartvision/ui/detect_faces/FaceDetectionFragment.kt:404-407 | the partial sum of a vector against itself is 0 |
| FaceMatching.SqDistSelf | app/src/main/java/com/mobileassistant/smartvision/ui/detect_faces/FaceDetectionFragment.kt:402-409 | a vector is at distance 0 from itself |
| FaceMatching.SqDistUpToSymmetric | app/src/main/java/com/mobileassistant/smartvision/ui/detect_faces/FaceDetectionFragment.kt:404-407 | the partial sums do not depend on the order of the two vectors |
| FaceMatching.SqDistSymmetric | app/src/main/java/com/mobileassistant/smartvision/ui/detect_faces/FaceDetectionFragment.kt:402-409 | the distance between two equal-length vectors is symmetric |
| FaceMatching.SqDistUpToPrefix | app/src/main/java/com/mobileassistant/smartvision/ui/detect_faces/FaceDetectionFragment.kt:404-407 | the partial sum over the first `n` indices ignores the known vector beyond index `m >= n` |
| FaceMatching.SqDistIgnoresTail | app/src/main/java/com/mobileassistant/smartvision/ui/detect_faces/FaceDetectionFragment.kt:404 | only the probe's indices count: entries of a longer known vector past the probe's length are ignored |
| FaceMatching.SqrtPreservesLess | app/src/main/java/com/mobileassistant/smartvision/ui/detect_faces/FaceDetectionFragment.kt:409-410 | on non-negative numbers, comparing two distances gives the same result as comparing their squares |
| FaceMatching.SqrtPreservesThreshold | app/src/main/java/com/mobileassistant/smartvision/ui/detect_faces/FaceDetectionFragment.kt:433 | a distance is below 1.0 exactly when its square is below 1.0 |
| FaceMatching.EntryDistance | app/src/main/java/com/mobileassistant/smartvision/ui/detect_faces/FaceDetectionFragment.kt:402-409 | an entry's distance is non-negative, and 0 for a null vector |
| FaceMatching.NearestUpTo | app/src/main/java/com/mobileassistant/smartvision/ui/detect_faces/FaceDetectionFragment.kt:398-413 | after `n` entries the search holds a match exactly when `n > 0`, at a non-negative distance |
| FaceMatching.NearestUpToWitness | app/src/main/java/com/mobileassistant/smartvision/ui/detect_faces/FaceDetectionFragment.kt:399-413 | after the first `n` entries the search holds entry `k < n`, which is at least as near as every entry seen and strictly nearer than every entry before it |
| FaceMatching.NearestFace | app/src/main/java/com/mobileassistant/smartvision/ui/detect_faces/FaceDetectionFragment.kt:397-415 | the search finds nothing exactly when the gallery is empty, and otherwise a match at a non-negative (squared) distance |
| FaceMatching.NearestIsFirstMinimum | app/src/main/java/com/mobileassistant/smartvision/ui/detect_faces/FaceDetectionFragment.kt:410-412 | the result is the first entry of minimum distance (the update uses a strict `<`) |
| FaceMatching.FirstNearestUnique | app/src/main/java/com/mobileassistant/smartvision/ui/detect_faces/FaceDetectionFragment.kt:410-412 | there is only one first entry of minimum distance |
| FaceMatching.NullVectorIsNearest | app/src/main/java/com/mobileassistant/smartvision/ui/detect_faces/FaceDetectionFragment.kt:402-409 | an entry with a null vector is at distance 0, so the search returns a match at distance 0 |
| FaceMatching.NameText | app/src/main/java/com/mobileassistant/smartvision/ui/detect_faces/FaceDetectionFragment.kt:436 | the definition: a name renders as itself, a null name as "null"; its use in the caption is proved in `AnalyzeDecision` |
| FaceMatching.Analyze | app/src/main/java/com/mobileassistant/smartvision/ui/detect_faces/FaceDetectionFragment.kt:429-440 | an unrecognised face gets `(false, "")`; a match needs a non-empty gallery and a nearest distance below 1.0 |
| FaceMatching.AnalyzeDecision | app/src/main/java/com/mobileassistant/smartvision/ui/detect_faces/FaceDetectionFragment.kt:429-440 | there is a match exactly when some gallery entry is at distance below 1.0; a match captions the first nearest entry with its name and confidence, otherwise the result is `(false, "")` |
| FaceMatching.ThresholdIsStrict | app/src/main/java/com/mobileassistant/smartvision/ui/detect_faces/FaceDetectionFragment.kt:433 | a nearest distance of exactly 1.0 is not a match |
| FaceMatching.EmptyGalleryNeverMatches | app/src/main/java/com/mobileassistant/smartvision/ui/detect_faces/FaceDetectionFragment.kt:429 | with an empty gallery no face is recognised |
| FaceMatching.RecognizesIdenticalVector | app/src/main/java/com/mobileassistant/smartvision/ui/detect_faces/FaceDetectionFragment.kt:417-441 | the embedding of an enrolled face itself is recognised at distance 0 and captioned with the enrolled name |
| FaceDetection.AnalyzeFace | app/src/main/java/com/mobileassistant/smartvision/ui/detect_faces/FaceDetectionFragment.kt:417-441 | the definition: the match decision for the crop's embedding; no match is exactly `(false, "")`, and a match needs a non-empty gallery; the decision itself is proved in `AnalyzeDecision` |
| FaceMatching.RecognizedFaces | app/src/main/java/com/mobileassistant/smartvision/ui/detect_faces/FaceDetectionFragment.kt:443-463 | the gallery is no longer than the records and every entry has a vector of the embedding length |
| FaceMatching.CountWithImage | app/src/main/java/com/mobileassistant/smartvision/ui/detect_faces/FaceDetectionFragment.kt:447 | the number of records with a stored image is at most the number of records |
| FaceMatching.RecognizedFacesAppend | app/src/main/java/com/mobileassistant/smartvision/ui/detect_faces/FaceDetectionFragment.kt:443-463 | the gallery built from two record lists in turn is the first gallery followed by the second |
| FaceMatching.RecognizedFacesLength | app/src/main/java/com/mobileassistant/smartvision/ui/detect_faces/FaceDetectionFragment.kt:443-463 | the gallery has one entry per record with a non-empty image |
| FaceMatching.RecognizedFacesMembers | app/src/main/java/com/mobileassistant/smartvision/ui/detect_faces/FaceDetectionFragment.kt:443-463 | a person is in the gallery exactly when some record has a non-empty image and that person has the record's name and the embedding of its image |
| FaceMatching.RecognizedFacesFit | app/src/main/java/com/mobileassistant/smartvision/ui/detect_faces/FaceDetectionFragment.kt:451-459 | every gallery entry has a vector of the embedding length |
| FaceMatching.CreateRecognizedFaceList | app/src/main/java/com/mobileassistant/smartvision/ui/detect_faces/FaceDetectionFragment.kt:443-463 | the loop builds the gallery, one entry per record with an image, in record order |
| FaceMatching.FindNearestFace | app/src/main/java/com/mobileassistant/smartvision/ui/detect_faces/FaceDetectionFragment.kt:397-415 | the nested loop returns the first entry of minimum distance, or nothing for an empty gallery |
| FaceDetection.ProcessFaces | app/src/main/java/com/mobileassistant/smartvision/ui/detect_faces/FaceDetectionFragment.kt:245-259 | after `n` faces there are `n` boxes |
| FaceDetection.CroppedAnalyses | app/src/main/java/com/mobileassistant/smartvision/ui/detect_faces/FaceDetectionFragment.kt:253-256 | there are at most as many analyses as faces |
| FaceDetection.FaceRecognition | app/src/main/java/com/mobileassistant/smartvision/ui/detect_faces/FaceDetectionFragment.kt:252-256 | the definition: a face whose crop fails keeps the previous recognition, and a cropped face gets its own analysis; its effect on the boxes is proved in `FrameBox` and `FrameRecognitionOrigin` |
| FaceDetection.CroppedAnalysesSnoc | app/src/main/java/com/mobileassistant/smartvision/ui/detect_faces/FaceDetectionFragment.kt:253-256 | one more face adds its analysis exactly when its crop succeeds |
| FaceDetection.FramePrefix | app/src/main/java/com/mobileassistant/smartvision/ui/detect_faces/FaceDetectionFragment.kt:247-258 | the boxes made for the first `n` faces stay the first `n` boxes as the loop goes on |
| FaceDetection.FrameBox | app/src/main/java/com/mobileassistant/smartvision/ui/detect_faces/FaceDetectionFragment.kt:247-258 | box `i` is labelled with `i + 1` and carries face `i`'s rectangle; its recognition is the face's own analysis when the crop succeeds and the previous box's otherwise, `(false, "")` for the first |
| FaceDetection.FrameCurrent | app/src/main/java/com/mobileassistant/smartvision/ui/detect_faces/FaceDetectionFragment.kt:244-258 | `faceRecognized` is the last box's recognition, `(false, "")` before the first face |
| FaceDetection.FrameAnalyses | app/src/main/java/com/mobileassistant/smartvision/ui/detect_faces/FaceDetectionFragment.kt:253-256 | `allAnalyzedFaces` holds the analyses of exactly the faces whose crop succeeded, in face order |
| FaceDetection.FrameRecognitionOrigin | app/src/main/java/com/mobileassistant/smartvision/ui/detect_faces/FaceDetectionFragment.kt:253-257 | a box's recognition is `(false, "")` or the analysis of this face or of an earlier cropped face: it is never invented |
| FaceDetection.FrameLabelsDistinct | app/src/main/java/com/mobileassistant/smartvision/ui/detect_faces/FaceDetectionFragment.kt:248 | no two boxes carry the same label |
| FaceDetection.RecognizedOnly | app/src/main/java/com/mobileassistant/smartvision/ui/detect_faces/FaceDetectionFragment.kt:275-276 | the filter keeps only recognised entries |
| FaceDetection.FoundLine | app/src/main/java/com/mobileassistant/smartvision/ui/detect_faces/FaceDetectionFragment.kt:280 | the definition: the fixed text `\n Face Found : ` followed by the face's caption; which lines the summary holds is proved in `SummaryForSeveralFaces` |
| FaceDetection.SummaryText | app/src/main/java/com/mobileassistant/smartvision/ui/detect_faces/FaceDetectionFragment.kt:264-285 | with one face the text starts with the one-face resource and is just that without a match on the first analysis; with several it starts with the formatted count |
| FaceDetection.SummaryForOneFace | app/src/main/java/com/mobileassistant/smartvision/ui/detect_faces/FaceDetectionFragment.kt:264-273 | with one face the text names the person exactly when the face was cropped and matched |
| FaceDetection.RecognizedOnlyNone | app/src/main/java/com/mobileassistant/smartvision/ui/detect_faces/FaceDetectionFragment.kt:275-276 | without a match the filter keeps nothing |
| FaceDetection.RecognizedOnlyAppend | app/src/main/java/com/mobileassistant/smartvision/ui/detect_faces/FaceDetectionFragment.kt:275-276 | filtering two lists in turn filters each and concatenates |
| FaceDetection.SummaryForSeveralFaces | app/src/main/java/com/mobileassistant/smartvision/ui/detect_faces/FaceDetectionFragment.kt:274-284 | with several faces, a further analysis adds its found-line to the text exactly when it is a match |
| FaceDetection.RecognizedOnlySnoc | app/src/main/java/com/mobileassistant/smartvision/ui/detect_faces/FaceDetectionFragment.kt:275-276 | a further entry is kept exactly when it is recognised |
| FaceDetection.FoundLinesSingle | app/src/main/java/com/mobileassistant/smartvision/ui/detect_faces/FaceDetectionFragment.kt:279-281 | zero or one found face contributes no line or exactly its own line |
| FaceDetection.SummaryForSeveralFacesNoMatch | app/src/main/java/com/mobileassistant/smartvision/ui/detect_faces/FaceDetectionFragment.kt:274-284 | with several faces and no match the text is the formatted face count alone |
| FaceDetection.DrawDetectionResult | app/src/main/java/com/mobileassistant/smartvision/ui/detect_faces/FaceDetectionFragment.kt:293-333 | one rectangle per box, in order, with the box's rectangle and text, green exactly for a recognised box and red exactly for the others |
| FaceDetection.FaceDetectionScreen.constructor | app/src/main/java/com/mobileassistant/smartvision/ui/detect_faces/FaceDetectionFragment.kt:89 | the gallery starts empty |
| FaceDetection.FaceDetectionScreen.OnFaceListChanged | app/src/main/java/com/mobileassistant/smartvision/ui/detect_faces/FaceDetectionFragment.kt:190-194 | each change of the enrolled faces replaces the gallery with the one built from the new records |
| FaceDetection.FaceDetectionScreen.AnalyzeCroppedFace | app/src/main/java/com/mobileassistant/smartvision/ui/detect_faces/FaceDetectionFragment.kt:417-441 | the recognition of a crop is the match decision for its embedding against the current gallery |
| FaceDetection.FaceDetectionScreen.GetInfoFromFaceDetected | app/src/main/java/com/mobileassistant/smartvision/ui/detect_faces/FaceDetectionFragment.kt:242-291 | computes the boxes and analyses of the loop, shows the annotated copy of the frame (one stroke per face, on the face's rectangle, with its number, green exactly when recognised and red exactly otherwise) and sets the summary text |
| FaceDetection.FaceDetectionScreen.DetectFacesOnImage | app/src/main/java/com/mobileassistant/smartvision/ui/detect_faces/FaceDetectionFragment.kt:209-240 | nothing without a frame; a detector failure shows the plain frame and keeps the text; no face shows the plain frame and "No Face is Detected"; otherwise the annotated frame with one stroke per face, on its rectangle, labelled with its number and green exactly when its box is recognised and red otherwise, and the summary text |
| FrameDecoding.Wrap32 | app/src/main/java/com/mobileassistant/smartvision/ui/detect_objects/ObjectDetectionFragment.kt:268 | the 32-bit result equals the mathematical one modulo 2^32 |
| FrameDecoding.TDiv | app/src/main/java/com/mobileassistant/smartvision/ui/detect_objects/ObjectDetectionFragment.kt:267 | Kotlin's `/` on Int: for non-negative operands the usual quotient, and otherwise the quotient of the magnitudes with the sign of the product (truncation toward zero) |
| FrameDecoding.Pow2 | app/src/main/java/com/mobileassistant/smartvision/ui/detect_objects/ObjectDetectionFragment.kt:265-269 | every power of two is at least 1 |
| FrameDecoding.Doubled | app/src/main/java/com/mobileassistant/smartvision/ui/detect_objects/ObjectDetectionFragment.kt:268 | the definition: `inSampleSize` after k doublings is 2^k up to k = 30 and -2^31 at k = 31; the full sequence is proved in `DoubledValues` |
| FrameDecoding.DoubledValues | app/src/main/java/com/mobileassistant/smartvision/ui/detect_objects/ObjectDetectionFragment.kt:267-269 | in 32 bits, doubling from 1 runs through 2^0 .. 2^30, then -2^31, then 0 after 32 steps, each step being the wrapped doubling of the previous one |
| FrameDecoding.Pow2Add | app/src/main/java/com/mobileassistant/smartvision/ui/detect_objects/ObjectDetectionFragment.kt:268 | 2^(a+b) = 2^a * 2^b |
| FrameDecoding.Pow2Bounds | app/src/main/java/com/mobileassistant/smartvision/ui/detect_objects/ObjectDetectionFragment.kt:268 | the values of 2^30, 2^31 and 2^32, and 2^k <= 2^30 for k <= 30 |
| FrameDecoding.HalfRange | app/src/main/java/com/mobileassistant/smartvision/ui/detect_objects/ObjectDetectionFragment.kt:262-263 | halving a 32-bit value gives a value in [-2^30, 2^30), non-negative for a non-negative value |
| FrameDecoding.DivisionAtTheTop | app/src/main/java/com/mobileassistant/smartvision/ui/detect_objects/ObjectDetectionFragment.kt:267 | a halved dimension divided by 2^30 is at most 0, and divided by -2^31 is 0 |
| FrameDecoding.DivisionKeepsSign | app/src/main/java/com/mobileassistant/smartvision/ui/detect_objects/ObjectDetectionFragment.kt:267 | a non-negative dimension divided by a positive sample size stays non-negative |
| FrameDecoding.NonNegativeQuotient | app/src/main/java/com/mobileassistant/smartvision/ui/detect_objects/ObjectDetectionFragment.kt:267 | the same for the underlying division |
| FrameDecoding.KeepsRequestedSize | app/src/main/java/com/mobileassistant/smartvision/ui/detect_objects/ObjectDetectionFragment.kt:267 | the definition of the loop condition in truncating division; with no positive requested dimension it holds at every positive size (also `ConditionWithoutRequest`); where it fails is proved in `ConditionAtTheTop` and `DoublingResult` |
| FrameDecoding.ConditionAtTheTop | app/src/main/java/com/mobileassistant/smartvision/ui/detect_objects/ObjectDetectionFragment.kt:267 | with a positive requested dimension the loop stops at 2^30 at the latest; at -2^31 the condition holds exactly when neither requested dimension is positive |
| FrameDecoding.ConditionWithoutRequest | app/src/main/java/com/mobileassistant/smartvision/ui/detect_objects/ObjectDetectionFragment.kt:267 | when neither requested dimension is positive, every positive sample size keeps the condition for non-negative halves |
| FrameDecoding.DoublingFrom | app/src/main/java/com/mobileassistant/smartvision/ui/detect_objects/ObjectDetectionFragment.kt:267-269 | when the loop stops with a value, that value is a non-zero 32-bit sample size that breaks the loop condition |
| FrameDecoding.SampleSizeFor | app/src/main/java/com/mobileassistant/smartvision/ui/detect_objects/ObjectDetectionFragment.kt:253-273 | 1 when the image fits the request; otherwise a value it yields is a non-zero 32-bit size breaking the loop condition |
| FrameDecoding.CalculateInSampleSize | app/src/main/java/com/mobileassistant/smartvision/ui/detect_objects/ObjectDetectionFragment.kt:253-273 | the loop in 32-bit arithmetic yields exactly the sample size specified by the doubling (or the division by zero the wrap to 0 leads to) |
| FrameDecoding.DoublingResult | app/src/main/java/com/mobileassistant/smartvision/ui/detect_objects/ObjectDetectionFragment.kt:267-269 | when a sample size results it is the first power of two 2^j (j <= 30) that fails the condition, all smaller ones passing; a positive request always gives one; no positive request with non-negative halves ends in the division by zero |
| FrameDecoding.SampleSizeProperties | app/src/main/java/com/mobileassistant/smartvision/ui/detect_objects/ObjectDetectionFragment.kt:253-273 | the result is 1 when the image fits the request, otherwise the smallest power of two (at most 2^30) that breaks the condition; a positive request always yields a size; an empty 0x0 request with a non-negative image larger than it ends in the division by zero |
| FrameDecoding.DownloadedFrame | app/src/main/java/com/mobileassistant/smartvision/ui/detect_objects/ObjectDetectionFragment.kt:141-161 | a frame is decoded only when the bounds were read, and then with the computed sample size; for a 0x0 view (before layout) and a positive image size no frame results, since the exception is caught |
| FrameDecoding.Pow2MonotoneIndex | app/src/main/java/com/mobileassistant/smartvision/ui/detect_objects/ObjectDetectionFragment.kt:268 | a smaller power of two has a smaller exponent |
| FrameDecoding.Pow2Monotone | app/src/main/java/com/mobileassistant/smartvision/ui/detect_objects/ObjectDetectionFragment.kt:268 | powers of two grow with the exponent |
| ObjectDetection.ModeFromPreferences | app/src/main/java/com/mobileassistant/smartvision/ui/detect_objects/ObjectDetectionFragment.kt:131-134 | the mode is one of the two positions: track without a store, detect when the store holds no mode |
| ObjectDetection.PipelineFor | app/src/main/java/com/mobileassistant/smartvision/ui/detect_objects/ObjectDetectionFragment.kt:111-115 | the definition of the dispatch: labelling exactly at position 0, tracking at every other position, -1 included; which pipeline a store selects is proved in `ModeSelection` and `RadioSelectsPipeline` |
| ObjectDetection.LabelLine | app/src/main/java/com/mobileassistant/smartvision/ui/detect_objects/ObjectDetectionFragment.kt:184 | the definition: "Object Detected is : ", the label text, the confidence and a newline; what the labelling text holds is proved in `LabelsText` and `LabelsTextLines` |
| ObjectDetection.ModeSelection | app/src/main/java/com/mobileassistant/smartvision/ui/detect_objects/ObjectDetectionFragment.kt:111-115 | the frame loop labels exactly when a store is present and holds no mode, a non-boolean or true; otherwise it tracks |
| ObjectDetection.ObjectDetectionScreen.constructor | app/src/main/java/com/mobileassistant/smartvision/ui/detect_objects/ObjectDetectionFragment.kt:67 | the mode starts at -1 |
| ObjectDetection.ObjectDetectionScreen.SetupUi | app/src/main/java/com/mobileassistant/smartvision/ui/detect_objects/ObjectDetectionFragment.kt:126-134 | the mode is read from the store, detect when the stored mode is true or absent |
| ObjectDetection.ObjectDetectionScreen.OnItemSelected | app/src/main/java/com/mobileassistant/smartvision/ui/detect_objects/ObjectDetectionFragment.kt:93-98 | the mode becomes the selected spinner position |
| ObjectDetection.LabelsText | app/src/main/java/com/mobileassistant/smartvision/ui/detect_objects/ObjectDetectionFragment.kt:175-187 | the text is the no-object text exactly when there is no label |
| ObjectDetection.LabelsTextLines | app/src/main/java/com/mobileassistant/smartvision/ui/detect_objects/ObjectDetectionFragment.kt:175-187 | the text of a non-empty label list is the first label's line followed by the lines of the rest |
| ObjectDetection.DetectedLabelText | app/src/main/java/com/mobileassistant/smartvision/ui/detect_objects/ObjectDetectionFragment.kt:175-187 | the loop's text is one line per label, in order, and the no-object text for no label |
| ObjectDetection.TrackedBoxes | app/src/main/java/com/mobileassistant/smartvision/ui/detect_objects/ObjectDetectionFragment.kt:228-233 | at most one box per object, none of them carrying a recognition |
| ObjectDetection.TrackLine | app/src/main/java/com/mobileassistant/smartvision/ui/detect_objects/ObjectDetectionFragment.kt:224-225 | the definition: "Object Tracked : ", the label text, the confidence and a newline; how the log accumulates is proved in `AppendTrackLines` and `TrackLog` |
| ObjectDetection.TrackLog | app/src/main/java/com/mobileassistant/smartvision/ui/detect_objects/ObjectDetectionFragment.kt:219-227 | the log is empty for no object, and otherwise the first object's lines followed by those of the rest |
| ObjectDetection.CountLabelled | app/src/main/java/com/mobileassistant/smartvision/ui/detect_objects/ObjectDetectionFragment.kt:228 | the number of labelled objects is at most the number of objects |
| ObjectDetection.TrackedBoxesCount | app/src/main/java/com/mobileassistant/smartvision/ui/detect_objects/ObjectDetectionFragment.kt:219-235 | one box per object that has a label |
| ObjectDetection.TrackedBoxesMembers | app/src/main/java/com/mobileassistant/smartvision/ui/detect_objects/ObjectDetectionFragment.kt:228-233 | a box is listed exactly when some labelled object gives it, with the object's first label and its rectangle |
| ObjectDetection.AppendTrackLines | app/src/main/java/com/mobileassistant/smartvision/ui/detect_objects/ObjectDetectionFragment.kt:221-227 | the inner loop appends one tracked line per label, in order, to the builder's contents |
| ObjectDetection.TrackObjects | app/src/main/java/com/mobileassistant/smartvision/ui/detect_objects/ObjectDetectionFragment.kt:217-243 | the boxes of the labelled objects, and the builder's text, shown only when some object was detected |
| Settings.SetupView | app/src/main/java/com/mobileassistant/smartvision/ui/settings/SettingsFragment.kt:94-142 | with a store exactly one mode radio is checked and the spinner is set; without one no radio is checked, the switch is off, both text fields are cleared and the image is left as it was |
| Settings.SetupViewProperties | app/src/main/java/com/mobileassistant/smartvision/ui/settings/SettingsFragment.kt:94-142 | the switch is on only when the stored status is true; the layout's image is replaced only by a stored, non-empty face image |
| Settings.FreshInstallView | app/src/main/java/com/mobileassistant/smartvision/ui/settings/SettingsFragment.kt:94-142 | an empty store shows the default URL, detect mode, the 70 percent threshold and the placeholder image |
| Settings.Put | app/src/main/java/com/mobileassistant/smartvision/ui/settings/SettingsFragment.kt:146-159 | a put stores the value under its key and leaves every other key as it was; without a store nothing is written |
| Settings.RestoredPreferences | app/src/main/java/com/mobileassistant/smartvision/ui/settings/SettingsFragment.kt:178-199 | after the six writes, each of the six keys reads back its default value, whatever the reader's default |
| Settings.RestoreTouchesOnlyItsKeys | app/src/main/java/com/mobileassistant/smartvision/ui/settings/SettingsFragment.kt:178-207 | restoring sets all six keys and leaves every other key untouched |
| Settings.RestoreIdempotent | app/src/main/java/com/mobileassistant/smartvision/ui/settings/SettingsFragment.kt:178-207 | restoring twice is restoring once |
| Settings.RestoreLooksLikeFreshInstall | app/src/main/java/com/mobileassistant/smartvision/ui/settings/SettingsFragment.kt:178-207 | after restoring, the screen set up from the store looks as after a fresh install |
| Settings.RestoredView | app/src/main/java/com/mobileassistant/smartvision/ui/settings/SettingsFragment.kt:178-207 | the definition: the switch off, the default URL, detect checked, position 2, an empty name and the placeholder image; that this is the fresh-install setup is proved in `RestoredViewIsFreshSetup` |
| Settings.RestoredViewIsFreshSetup | app/src/main/java/com/mobileassistant/smartvision/ui/settings/SettingsFragment.kt:178-207 | the controls the restore button sets are those a fresh install shows |
| Settings.ModeRadioUpdate | app/src/main/java/com/mobileassistant/smartvision/ui/settings/SettingsFragment.kt:161-172 | detect makes the mode read true and track makes it read false; another id leaves the store as it was; no other key changes |
| Settings.RadioSelectsPipeline | app/src/main/java/com/mobileassistant/smartvision/ui/settings/SettingsFragment.kt:161-172 | after checking detect the object screen labels, after track it tracks, another id changes nothing, and after restoring it labels |
| Settings.SavedFaceIsShownAtSetup | app/src/main/java/com/mobileassistant/smartvision/ui/settings/SettingsFragment.kt:224-242 | a saved non-empty face image is shown the next time the screen is set up |
| Settings.SettingsScreen.constructor | app/src/main/java/com/mobileassistant/smartvision/ui/settings/SettingsFragment.kt:94-142 | the setup view of the store, with the placeholder image |
| Settings.SettingsScreen.OnAnnouncementChanged | app/src/main/java/com/mobileassistant/smartvision/ui/settings/SettingsFragment.kt:146-149 | the status is put into the store and the switch shows it |
| Settings.SettingsScreen.OnCamServerUrlChanged | app/src/main/java/com/mobileassistant/smartvision/ui/settings/SettingsFragment.kt:151-154 | the URL text is put into the store and shown |
| Settings.SettingsScreen.OnFaceNameChanged | app/src/main/java/com/mobileassistant/smartvision/ui/settings/SettingsFragment.kt:156-159 | the face name is put into the store and shown |
| Settings.SettingsScreen.OnConfidenceSelected | app/src/main/java/com/mobileassistant/smartvision/ui/settings/SettingsFragment.kt:128-134 | the selected position is put into the store and shown |
| Settings.SettingsScreen.OnModeRadioChecked | app/src/main/java/com/mobileassistant/smartvision/ui/settings/SettingsFragment.kt:161-172 | checking detect stores true, track stores false, another id stores nothing; the group checks one radio at a time |
| Settings.SettingsScreen.RestoreDefaults | app/src/main/java/com/mobileassistant/smartvision/ui/settings/SettingsFragment.kt:178-207 | the six defaults are written to the store and the controls are reset |
| Settings.SettingsScreen.GetInfoFromFaceDetected | app/src/main/java/com/mobileassistant/smartvision/ui/settings/SettingsFragment.kt:273-284 | the last face's crop is shown (nothing when it fails) and saved encoded only when it exists |
| Settings.SettingsScreen.DetectFacesOnImage | app/src/main/java/com/mobileassistant/smartvision/ui/settings/SettingsFragment.kt:244-271 | nothing without a photo; a detector failure or no face shows the photo itself; otherwise the last face's crop is shown and saved |
| FaceSettings.GetInfoFromFaceDetected | app/src/main/java/com/mobileassistant/smartvision/ui/settings/FaceSettingsFragment.kt:178-190 | the last face's crop opens the new-face dialog; a failed crop gives the unable-to-crop message |
| FaceSettings.DetectFacesOnImage | app/src/main/java/com/mobileassistant/smartvision/ui/settings/FaceSettingsFragment.kt:149-176 | nothing happens exactly without a photo; the no-face message exactly for a failure or no face; the dialog with the last face's crop otherwise, or the unable-to-crop message exactly when that crop fails |
| FaceSettings.EditRequest | app/src/main/java/com/mobileassistant/smartvision/ui/settings/FaceSettingsFragment.kt:117-123 | the definition: the dialog in edit mode with the note visible, the record's id and name and its decoded image; what OK then does is proved in `EditThenSaveUpdatesRecord` |
| FaceSettings.EncodeImage | app/src/main/java/com/mobileassistant/smartvision/ui/settings/FaceSettingsFragment.kt:260-264 | no image encodes as the empty text |
| FaceSettings.SaveOrUpdate | app/src/main/java/com/mobileassistant/smartvision/ui/settings/FaceSettingsFragment.kt:257-271 | OK updates exactly in edit mode, keeping the id, and inserts with no id otherwise, with the typed name and the encoded image |
| FaceSettings.EditThenSaveUpdatesRecord | app/src/main/java/com/mobileassistant/smartvision/ui/settings/FaceSettingsFragment.kt:257-271 | editing a record and pressing OK updates that same record, under the typed name, with the re-encoded image; it never inserts another |
| FaceSettings.ConfirmDelete | app/src/main/java/com/mobileassistant/smartvision/ui/settings/FaceSettingsFragment.kt:106-115 | the definition: confirming deletes exactly the chosen record (the deletion itself is left to the database, which is not modelled) |
| FaceSettings.EnrolledFaceJoinsGallery | app/src/main/java/com/mobileassistant/smartvision/ui/settings/FaceSettingsFragment.kt:257-271 | a new face saved with an image is recognised afterwards: appended to the records, it appends one gallery entry with the typed name |
| FaceSettings.FaceSettingsScreen.constructor | app/src/main/java/com/mobileassistant/smartvision/ui/settings/FaceSettingsFragment.kt:45-50 | no face shown, the grid without layout, visibility as the layout gives it |
| FaceSettings.FaceSettingsScreen.SetupUi | app/src/main/java/com/mobileassistant/smartvision/ui/settings/FaceSettingsFragment.kt:85-104 | the list is shown; the error views are visible exactly when it is empty; a non-empty list shows the grid with two columns |

## Left out

- The frame loops: the `while (true)` loops with `delay`, the coroutines, the ping of the camera server and the connection-error screen. These are I/O and concurrency. Each model operation is one iteration's decision.
- Network download, the stream decoding of `BitmapFactory` and the camera intent. The decoder, the bounds and the photo are parameters.
- Text-to-speech and the announcement calls. They only echo texts the model computes.
- ML Kit face detection, image labelling and object tracking, and the TensorFlow Lite FaceNet model. Their outputs are parameters.
- FaceMatching.NearestFace, FaceMatching.FindNearestFace: `Match.distance` is the SQUARED distance. The source returns its square root, and formats the confidence from that square root. The match decision and the choice of the nearest entry are the same (`SqrtPreservesLess`, `SqrtPreservesThreshold`). `confidenceText` therefore stands for formatting `sqrt(s) * 100`.
- FaceMatching.ProbeFits: the search requires every known vector to be at least as long as the probe. The source would throw `ArrayIndexOutOfBoundsException` at `knownVector[i]` for a shorter one. Every gallery the screen builds meets the requirement (`RecognizedFacesFit`, `FaceDetectionScreen.Valid`).
- Float arithmetic of the distances. The vectors are `real`, so rounding in `Float` is not modelled.
- The confidence text `BigDecimal(d * 100).setScale(2, FLOOR)` and the label confidences. These are float formatting, passed as text.
- Base64 and JPEG. `encode` and `decode` are parameters. An empty stream encodes as the empty text (`EncodeImage`).
- Canvas drawing details of `drawDetectionResult`: the font size, margin and stroke widths. The object screen's `drawDetectionResult` and its 800x600 `createScaledBitmap` are also left out.
- `Bitmap.createBitmap` throwing for a box of zero or negative size is not modelled. An accepted box always yields a region.
- Preferences: a value stored with another type makes Android throw `ClassCastException`. `GetBoolean`, `GetString` and `GetInt` return the default instead. No core path stores a wrong type.
- Settings.SettingsScreen.constructor: Android calls the confidence spinner's `onItemSelected` once at its first layout, and the listener then writes the selected position to `min_confidence_threshold_key`. The model keeps the store as it was. That position was just read from the same key, or is the default, so every read of the key gives the same value.
- The setup of the settings spinner with no store: the adapter and the missing selection are kept as `None`. This case does not arise in practice, because the activity always provides a store.
- The Room database, the repository and the view models. `FaceCommand` is the call made to the view model; the insertion itself is not modelled.
- FaceSettings.EnrolledFaceJoinsGallery: it assumes that the database appends an inserted record at the end of the list the observer receives.
- The `Person` class is not part of this model. A null gallery entry behaves like `Person(None, None)`, which is at distance 0 in the search.
- The toasts are outcomes (`EnrollmentOutcome`). Their display is left out.
- The dialog's window layout and buttons. The OK button is `SaveOrUpdate` with the typed name; cancel does nothing.
- The other screens (home, reading mode, document summary, about), the gallery settings screen and the adapters.
