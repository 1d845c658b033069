/**
 * The settings screen: what it shows for the stored preferences, what each control
 * writes back, the restore-defaults action, and saving a familiar-face photo.
 */
module Settings {
  import opened Wrappers
  import opened Graphics
  import opened Entities
  import opened Crop
  import opened Preferences
  import opened ObjectDetection

  /** The minimum-confidence choices of the spinner, in percent. */
  const MinConfidenceThresholds: seq<string> := ["50", "60", "70", "80", "90"]

  /** Spinner position of the default threshold. */
  const DefaultConfidencePosition: int := 2

  /** What the familiar-face image view shows. */
  datatype FaceImageView =
    | Placeholder                        // the layout's face-recognition drawable
    | ShowsBitmap(bitmap: Option<Bitmap>) // `setImageBitmap`, cleared by null
    | ShowsStored(encoded: string)        // the decoded Base64 JPEG of the store

  /** The radio buttons of the object-detection-mode group. */
  datatype RadioId = DetectObjectsRadio | TrackObjectsRadio | OtherRadio(id: int)

  /**
   * The controls of the screen. The spinner selection that `setupUi` leaves untouched
   * (because there is no preference store) is `None`; the two text fields are always
   * set, and `setText(null)` clears a field to the empty text.
   */
  datatype SettingsView = SettingsView(
    announcementChecked: bool,
    camServerUrlText: string,
    detectChecked: bool,
    trackChecked: bool,
    confidencePosition: Option<int>,
    faceNameText: string,
    faceImage: FaceImageView)

  /**
   * `setupUi` over the store (`None` when the activity gave none) and the layout's
   * current face image; `defaultUrl` is the `image_url` string resource.
   */
  function SetupView(store: Option<Prefs>, defaultUrl: string, shown: FaceImageView): (v: SettingsView)
    ensures v.detectChecked || v.trackChecked <==> store.Some?
    ensures !(v.detectChecked && v.trackChecked)
    ensures store.None? ==> && !v.announcementChecked && v.camServerUrlText == "" && v.faceNameText == ""
                            && v.confidencePosition.None? && v.faceImage == shown
    ensures store.Some? ==> v.confidencePosition.Some?
  {
    match store
    case None => SettingsView(false, "", false, false, None, "", shown)
    case Some(p) =>
      var mode := GetBoolean(p, ObjectDetectionModeKey, true);
      var encoded := GetString(p, FaceImageKey, "");
      SettingsView(
        GetBoolean(p, AnnouncementStatusKey, false),
        GetString(p, CamServerUrlKey, defaultUrl),
        mode,
        !mode,
        Some(GetInt(p, MinConfidenceThresholdKey, DefaultConfidencePosition)),
        GetString(p, FaceNameKey, ""),
        if encoded != "" then ShowsStored(encoded) else shown)
  }

  /**
   * The announcement is on only when stored as on; the layout's face image is replaced
   * only by a stored, non-empty face image.
   */
  lemma SetupViewProperties(store: Option<Prefs>, defaultUrl: string, shown: FaceImageView)
    ensures var v := SetupView(store, defaultUrl, shown);
      && (v.announcementChecked <==> store.Some? && AnnouncementStatusKey in store.value
                                     && store.value[AnnouncementStatusKey] == BoolValue(true))
      && (v.faceImage != shown ==> store.Some? && v.faceImage == ShowsStored(GetString(store.value, FaceImageKey, "")))
  {
  }

  /** On a fresh install the spinner selects 70 percent and the detect-objects radio is checked. */
  lemma FreshInstallView(defaultUrl: string)
    ensures var v := SetupView(Some(map[]), defaultUrl, Placeholder);
      && v.confidencePosition == Some(DefaultConfidencePosition)
      && MinConfidenceThresholds[DefaultConfidencePosition] == "70"
      && v.camServerUrlText == defaultUrl && v.faceNameText == ""
      && v.detectChecked && !v.trackChecked
      && v.faceImage == Placeholder
  {
  }

  /** `prefEditor?.put…`: a write that does nothing without a store. */
  function Put(store: Option<Prefs>, key: string, value: PrefValue): (r: Option<Prefs>)
    ensures r.Some? <==> store.Some?
    ensures r.Some? ==> key in r.value && r.value[key] == value
    ensures r.Some? ==> forall k :: k != key ==> (k in r.value <==> k in store.value)
    ensures r.Some? ==> forall k :: k != key && k in store.value ==> r.value[k] == store.value[k]
  {
    if store.Some? then Some(store.value[key := value]) else None
  }

  /** The six writes of the restore-defaults button. */
  function RestoredPreferences(p: Prefs, defaultUrl: string): (r: Prefs)
    ensures forall d :: !GetBoolean(r, AnnouncementStatusKey, d)
    ensures forall d :: GetString(r, CamServerUrlKey, d) == defaultUrl
    ensures forall d :: GetBoolean(r, ObjectDetectionModeKey, d)
    ensures forall d :: GetInt(r, MinConfidenceThresholdKey, d) == DefaultConfidencePosition
    ensures forall d :: GetString(r, FaceImageKey, d) == ""
    ensures forall d :: GetString(r, FaceNameKey, d) == ""
  {
    p[AnnouncementStatusKey := BoolValue(false)]
     [CamServerUrlKey := StringValue(defaultUrl)]
     [ObjectDetectionModeKey := BoolValue(true)]
     [MinConfidenceThresholdKey := IntValue(DefaultConfidencePosition)]
     [FaceImageKey := StringValue("")]
     [FaceNameKey := StringValue("")]
  }

  const RestoredKeys: set<string> :=
    {AnnouncementStatusKey, CamServerUrlKey, ObjectDetectionModeKey,
     MinConfidenceThresholdKey, FaceImageKey, FaceNameKey}

  /** Restoring writes its six keys and leaves every other entry of the store as it was. */
  lemma RestoreTouchesOnlyItsKeys(p: Prefs, defaultUrl: string)
    ensures RestoredKeys <= RestoredPreferences(p, defaultUrl).Keys
    ensures forall k :: k !in RestoredKeys ==>
              (k in RestoredPreferences(p, defaultUrl) <==> k in p)
              && (k in p ==> RestoredPreferences(p, defaultUrl)[k] == p[k])
  {
  }

  /** Restoring twice is restoring once. */
  lemma RestoreIdempotent(p: Prefs, defaultUrl: string)
    ensures RestoredPreferences(RestoredPreferences(p, defaultUrl), defaultUrl) == RestoredPreferences(p, defaultUrl)
  {
    var q := RestoredPreferences(p, defaultUrl);
    var r := RestoredPreferences(q, defaultUrl);
    assert r.Keys == q.Keys;
    forall k | k in q
      ensures r[k] == q[k]
    {
    }
  }

  /** After restoring, the screen is set up exactly as on a fresh install. */
  lemma RestoreLooksLikeFreshInstall(p: Prefs, defaultUrl: string, shown: FaceImageView)
    ensures SetupView(Some(RestoredPreferences(p, defaultUrl)), defaultUrl, shown)
         == SetupView(Some(map[]), defaultUrl, shown)
  {
  }

  /** The controls right after the restore-defaults button. */
  function RestoredView(defaultUrl: string): (v: SettingsView)
    ensures !v.announcementChecked && v.camServerUrlText == defaultUrl && v.faceNameText == ""
    ensures v.detectChecked && !v.trackChecked
    ensures v.confidencePosition == Some(DefaultConfidencePosition) && v.faceImage == Placeholder
  {
    SettingsView(false, defaultUrl, true, false, Some(DefaultConfidencePosition), "", Placeholder)
  }

  /** The restored controls are those a fresh install shows. */
  lemma RestoredViewIsFreshSetup(defaultUrl: string)
    ensures RestoredView(defaultUrl) == SetupView(Some(map[]), defaultUrl, Placeholder)
  {
  }

  /** The radio group's listener: detect writes true, track writes false, any other id nothing. */
  function ModeRadioUpdate(p: Prefs, checkedId: RadioId): (r: Prefs)
    ensures checkedId.DetectObjectsRadio? ==> forall d :: GetBoolean(r, ObjectDetectionModeKey, d)
    ensures checkedId.TrackObjectsRadio? ==> forall d :: !GetBoolean(r, ObjectDetectionModeKey, d)
    ensures checkedId.OtherRadio? ==> r == p
    ensures forall k :: k != ObjectDetectionModeKey ==> (k in r <==> k in p) && (k in p ==> r[k] == p[k])
  {
    match checkedId
    case DetectObjectsRadio => p[ObjectDetectionModeKey := BoolValue(true)]
    case TrackObjectsRadio => p[ObjectDetectionModeKey := BoolValue(false)]
    case OtherRadio(_) => p
  }

  /**
   * The object-detection screen follows the radio: after checking detect it labels,
   * after checking track it tracks, and another id changes nothing; after restoring it
   * labels.
   */
  lemma RadioSelectsPipeline(p: Prefs, checkedId: RadioId, defaultUrl: string)
    ensures PipelineFor(ModeFromPreferences(Some(ModeRadioUpdate(p, checkedId))))
         == match checkedId
            case DetectObjectsRadio => Labelling
            case TrackObjectsRadio => Tracking
            case OtherRadio(_) => PipelineFor(ModeFromPreferences(Some(p)))
    ensures PipelineFor(ModeFromPreferences(Some(RestoredPreferences(p, defaultUrl)))) == Labelling
  {
  }

  /** A familiar-face photo saved with a non-empty encoding is what the next setup shows. */
  lemma SavedFaceIsShownAtSetup(p: Prefs, encoded: string, defaultUrl: string, shown: FaceImageView)
    requires encoded != ""
    ensures SetupView(Some(p[FaceImageKey := StringValue(encoded)]), defaultUrl, shown).faceImage
         == ShowsStored(encoded)
  {
  }

  /** The settings fragment: its preference store and its controls. */
  class SettingsScreen {
    var store: Option<Prefs>
    var view: SettingsView

    /** `onCreateView`: bind the store and run `setupUi`. */
    constructor (initialStore: Option<Prefs>, defaultUrl: string)
      ensures store == initialStore
      ensures view == SetupView(initialStore, defaultUrl, Placeholder)
    {
      store := initialStore;
      view := SetupView(initialStore, defaultUrl, Placeholder);
    }

    method OnAnnouncementChanged(isChecked: bool)
      modifies this
      ensures store == Put(old(store), AnnouncementStatusKey, BoolValue(isChecked))
      ensures view == old(view).(announcementChecked := isChecked)
    {
      store := Put(store, AnnouncementStatusKey, BoolValue(isChecked));
      view := view.(announcementChecked := isChecked);
    }

    method OnCamServerUrlChanged(text: string)
      modifies this
      ensures store == Put(old(store), CamServerUrlKey, StringValue(text))
      ensures view == old(view).(camServerUrlText := text)
    {
      store := Put(store, CamServerUrlKey, StringValue(text));
      view := view.(camServerUrlText := text);
    }

    method OnFaceNameChanged(text: string)
      modifies this
      ensures store == Put(old(store), FaceNameKey, StringValue(text))
      ensures view == old(view).(faceNameText := text)
    {
      store := Put(store, FaceNameKey, StringValue(text));
      view := view.(faceNameText := text);
    }

    /** The spinner's `onItemSelected(position)`. */
    method OnConfidenceSelected(position: int)
      modifies this
      ensures store == Put(old(store), MinConfidenceThresholdKey, IntValue(position))
      ensures view == old(view).(confidencePosition := Some(position))
    {
      store := Put(store, MinConfidenceThresholdKey, IntValue(position));
      view := view.(confidencePosition := Some(position));
    }

    /** The radio group's `onCheckedChanged(checkedId)`. */
    method OnModeRadioChecked(checkedId: RadioId)
      modifies this
      ensures store == if old(store).Some? then Some(ModeRadioUpdate(old(store).value, checkedId)) else None
      ensures view == match checkedId
                      case DetectObjectsRadio => old(view).(detectChecked := true, trackChecked := false)
                      case TrackObjectsRadio => old(view).(detectChecked := false, trackChecked := true)
                      case OtherRadio(_) => old(view)
    {
      if store.Some? {
        store := Some(ModeRadioUpdate(store.value, checkedId));
      }
      match checkedId
      case DetectObjectsRadio => view := view.(detectChecked := true, trackChecked := false);
      case TrackObjectsRadio => view := view.(detectChecked := false, trackChecked := true);
      case OtherRadio(_) =>
    }

    /** The restore-defaults button. */
    method RestoreDefaults(defaultUrl: string)
      modifies this
      ensures store == if old(store).Some? then Some(RestoredPreferences(old(store).value, defaultUrl)) else None
      ensures view == RestoredView(defaultUrl)
    {
      store := Put(store, AnnouncementStatusKey, BoolValue(false));
      store := Put(store, CamServerUrlKey, StringValue(defaultUrl));
      store := Put(store, ObjectDetectionModeKey, BoolValue(true));
      store := Put(store, MinConfidenceThresholdKey, IntValue(DefaultConfidencePosition));
      store := Put(store, FaceImageKey, StringValue(""));
      store := Put(store, FaceNameKey, StringValue(""));
      view := SettingsView(false, defaultUrl, true, false, Some(DefaultConfidencePosition), "", Placeholder);
    }

    /**
     * `getInfoFromFaceDetected`: the crop of the last face is shown (nothing when it
     * failed) and, when there is one, saved as the familiar face; `encode` stands for
     * JPEG compression at quality 100 followed by Base64.
     */
    method GetInfoFromFaceDetected(image: Bitmap, faces: seq<Rect>, encode: Bitmap -> string)
      modifies this
      ensures var cropped := if |faces| == 0 then None else CropToBBox(image, faces[|faces| - 1]);
        && view == old(view).(faceImage := ShowsBitmap(cropped))
        && store == if cropped.Some? then Put(old(store), FaceImageKey, StringValue(encode(cropped.value)))
                    else old(store)
    {
      var croppedFaceBitmap := CropLastFace(image, faces);
      view := view.(faceImage := ShowsBitmap(croppedFaceBitmap));
      if croppedFaceBitmap.Some? {
        store := Put(store, FaceImageKey, StringValue(encode(croppedFaceBitmap.value)));
      }
    }

    /**
     * `detectFacesOnImage` for the camera photo: without a photo nothing happens; on a
     * detector failure or with no face the photo itself is shown; otherwise the last
     * face is cropped and saved.
     */
    method DetectFacesOnImage(imageBitmap: Option<Bitmap>, detection: DetectionOutcome, encode: Bitmap -> string)
      modifies this
      ensures imageBitmap.None? ==> store == old(store) && view == old(view)
      ensures imageBitmap.Some? && (detection.DetectionFailed? || |detection.faces| == 0) ==>
                store == old(store) && view == old(view).(faceImage := ShowsBitmap(imageBitmap))
      ensures imageBitmap.Some? && detection.FacesDetected? && |detection.faces| > 0 ==>
                var faces := detection.faces;
                var cropped := CropToBBox(imageBitmap.value, faces[|faces| - 1]);
                && view == old(view).(faceImage := ShowsBitmap(cropped))
                && store == if cropped.Some? then Put(old(store), FaceImageKey, StringValue(encode(cropped.value)))
                            else old(store)
    {
      if imageBitmap.None? {
        return;
      }
      var bitmap := imageBitmap.value;
      match detection
      case DetectionFailed =>
        view := view.(faceImage := ShowsBitmap(Some(bitmap)));
      case FacesDetected(faces) =>
        if |faces| == 0 {
          view := view.(faceImage := ShowsBitmap(Some(bitmap)));
        } else {
          GetInfoFromFaceDetected(bitmap, faces, encode);
        }
    }
  }
}
