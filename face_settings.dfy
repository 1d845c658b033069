/**
 * The enrolled-faces screen: the list shown for the stored records, enrolling a face
 * from a camera photo through the name dialog, and editing or deleting a record.
 */
module FaceSettings {
  import opened Wrappers
  import opened Graphics
  import opened Entities
  import opened Crop
  import opened FaceMatching

  /** The dialog `showCroppedFaceInCustomDialog` opens. */
  datatype DialogRequest = DialogRequest(
    faceId: Option<int>,
    image: Option<Bitmap>,
    presetName: Option<string>,
    editMode: bool)
  {
    /** The note about editing is shown only in edit mode. */
    predicate NoteVisible() {
      editMode
    }
  }

  /** What a camera photo leads to. */
  datatype EnrollmentOutcome =
    | NoFaceMessage      // toast `no_face_detected_text`
    | UnableToCropMessage  // toast `unable_to_crop_image_msg`
    | OpenDialog(request: DialogRequest)

  /** The view-model call the dialog's OK button or the delete confirmation makes. */
  datatype FaceCommand = InsertFace(info: FaceInfo) | UpdateFace(info: FaceInfo) | DeleteFace(info: FaceInfo)

  /**
   * `getInfoFromFaceDetected`: the crop of the last face opens a new-face dialog; when
   * that crop fails the unable-to-crop message is shown.
   */
  method GetInfoFromFaceDetected(image: Bitmap, faces: seq<Rect>) returns (outcome: EnrollmentOutcome)
    ensures var cropped := if |faces| == 0 then None else CropToBBox(image, faces[|faces| - 1]);
      outcome == if cropped.Some? then OpenDialog(DialogRequest(None, cropped, None, false))
                 else UnableToCropMessage
  {
    var croppedFaceBitmap := CropLastFace(image, faces);
    if croppedFaceBitmap.Some? {
      outcome := OpenDialog(DialogRequest(None, croppedFaceBitmap, None, false));
    } else {
      outcome := UnableToCropMessage;
    }
  }

  /**
   * `detectFacesOnImage` for the camera photo: nothing without a photo; the no-face
   * message on a detector failure or when no face is found; otherwise as
   * `getInfoFromFaceDetected`.
   */
  method DetectFacesOnImage(imageBitmap: Option<Bitmap>, detection: DetectionOutcome)
    returns (outcome: Option<EnrollmentOutcome>)
    ensures imageBitmap.None? <==> outcome.None?
    ensures outcome == Some(NoFaceMessage)
        <==> imageBitmap.Some? && (detection.DetectionFailed? || |detection.faces| == 0)
    ensures outcome.Some? && outcome.value.OpenDialog? ==>
              imageBitmap.Some? && detection.FacesDetected? && |detection.faces| > 0
              && outcome.value.request
                 == DialogRequest(None, CropToBBox(imageBitmap.value, detection.faces[|detection.faces| - 1]), None, false)
    ensures outcome == Some(UnableToCropMessage)
        <==> imageBitmap.Some? && detection.FacesDetected? && |detection.faces| > 0
             && CropToBBox(imageBitmap.value, detection.faces[|detection.faces| - 1]).None?
  {
    if imageBitmap.None? {
      return None;
    }
    match detection
    case DetectionFailed =>
      outcome := Some(NoFaceMessage);
    case FacesDetected(faces) =>
      if |faces| == 0 {
        outcome := Some(NoFaceMessage);
      } else {
        var o := GetInfoFromFaceDetected(imageBitmap.value, faces);
        outcome := Some(o);
      }
  }

  /**
   * `onEditButtonClickListener`: an edit dialog for the record, with its name preset and
   * its stored image decoded (`decode` stands for Base64 and JPEG decoding, null on
   * failure).
   */
  function EditRequest(info: FaceInfo, decode: string -> Option<Bitmap>): (r: DialogRequest)
    ensures r.editMode && r.NoteVisible()
    ensures r.faceId == info.id && r.presetName == Some(info.faceName)
    ensures r.image == decode(info.faceImage)
  {
    DialogRequest(info.id, decode(info.faceImage), Some(info.faceName), true)
  }

  /** Base64 of the JPEG of the image; an absent image gives an empty stream and so "". */
  function EncodeImage(image: Option<Bitmap>, encode: Bitmap -> string): (s: string)
    ensures image.None? ==> s == ""
  {
    if image.Some? then encode(image.value) else ""
  }

  /**
   * `saveOrUpdateFamiliarFaceInDatabaseBasedOnFlag`, run by the dialog's OK button with
   * the typed name: in edit mode the record keeps its id, otherwise a new record without
   * id is inserted.
   */
  function SaveOrUpdate(request: DialogRequest, typedName: string, encode: Bitmap -> string): (c: FaceCommand)
    ensures c.info.faceName == typedName
    ensures c.info.faceImage == EncodeImage(request.image, encode)
    ensures c.UpdateFace? <==> request.editMode
    ensures c.UpdateFace? ==> c.info.id == request.faceId
    ensures c.InsertFace? ==> c.info.id.None?
    ensures !c.DeleteFace?
  {
    var sEncodedImage := EncodeImage(request.image, encode);
    if request.editMode then UpdateFace(FaceInfo(request.faceId, typedName, sEncodedImage))
    else InsertFace(FaceInfo(None, typedName, sEncodedImage))
  }

  /**
   * Editing a record and pressing OK updates that same record, under the typed name,
   * with the re-encoded decoded image; it never inserts a second record.
   */
  lemma EditThenSaveUpdatesRecord(info: FaceInfo, decode: string -> Option<Bitmap>,
                                  typedName: string, encode: Bitmap -> string)
    ensures SaveOrUpdate(EditRequest(info, decode), typedName, encode)
            == UpdateFace(FaceInfo(info.id, typedName, EncodeImage(decode(info.faceImage), encode)))
  {
  }

  /** The delete dialog's OK button. */
  function ConfirmDelete(info: FaceInfo): (c: FaceCommand)
    ensures c.DeleteFace? && c.info == info
  {
    DeleteFace(info)
  }

  /**
   * A face enrolled from a successful crop whose encoding is non-empty joins the
   * recognition gallery under the typed name, after the faces already there (the table
   * is read back in insertion order); a record saved without an image never does.
   */
  lemma EnrolledFaceJoinsGallery(records: seq<FaceInfo>, request: DialogRequest, typedName: string,
                                 encode: Bitmap -> string, embedEncoded: string -> Embedding)
    requires !request.editMode
    ensures var info := SaveOrUpdate(request, typedName, encode).info;
      RecognizedFaces(records + [info], embedEncoded)
      == RecognizedFaces(records, embedEncoded)
         + (if request.image.Some? && encode(request.image.value) != ""
            then [Person(Some(typedName), Some(embedEncoded(encode(request.image.value))))]
            else [])
  {
    var info := SaveOrUpdate(request, typedName, encode).info;
    RecognizedFacesAppend(records, [info], embedEncoded);
    assert [info][..0] == [];
  }

  /** The enrolled-faces fragment: its grid and the empty-list placeholder. */
  class FaceSettingsScreen {
    var shownFaces: seq<FaceInfo>
    var errorImageVisible: bool
    var errorTextVisible: bool
    var gridVisible: bool
    var gridColumns: Option<int>

    constructor (errorShown: bool, gridShown: bool)
      ensures shownFaces == [] && gridColumns.None?
      ensures errorImageVisible == errorShown && errorTextVisible == errorShown
      ensures gridVisible == gridShown
    {
      shownFaces := [];
      errorImageVisible := errorShown;
      errorTextVisible := errorShown;
      gridVisible := gridShown;
      gridColumns := None;
    }

    /** The error image and text are visible exactly when no face is enrolled. */
    predicate ErrorShownIffEmpty()
      reads this
    {
      errorImageVisible == errorTextVisible == (|shownFaces| == 0)
    }

    /**
     * `setupUi(faceList)`, run by the observer on every change of the table: the adapter
     * gets the list; an empty list shows the error views and leaves the grid as it was;
     * otherwise the grid is shown in two columns and the error views are gone.
     */
    method SetupUi(faceList: seq<FaceInfo>)
      modifies this
      ensures shownFaces == faceList
      ensures ErrorShownIffEmpty()
      ensures |faceList| == 0 ==> gridVisible == old(gridVisible) && gridColumns == old(gridColumns)
      ensures |faceList| > 0 ==> gridVisible && gridColumns == Some(2)
    {
      shownFaces := faceList;
      if |faceList| == 0 {
        errorImageVisible := true;
        errorTextVisible := true;
      } else {
        gridColumns := Some(2);
        gridVisible := true;
        errorImageVisible := false;
        errorTextVisible := false;
      }
    }
  }
}
