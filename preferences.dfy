/**
 * The shared-preferences store `smart_vision_pref` as a map from key to typed value,
 * with the keys and the typed reads (`getBoolean`, `getString`, `getInt`) the screens use.
 */
module Preferences {

  datatype PrefValue = BoolValue(b: bool) | StringValue(s: string) | IntValue(i: int)

  type Prefs = map<string, PrefValue>

  const AnnouncementStatusKey: string := "announcement_status_key"
  const CamServerUrlKey: string := "cam_server_url_key"
  const ObjectDetectionModeKey: string := "object_detection_mode_key"
  const MinConfidenceThresholdKey: string := "min_confidence_threshold_key"
  const FaceImageKey: string := "face_image_key"
  const FaceNameKey: string := "face_name_key"

  /** `getBoolean(key, default)`: the stored boolean, or `default` when the key is absent. */
  function GetBoolean(p: Prefs, key: string, default: bool): (r: bool)
    ensures key in p && p[key].BoolValue? ==> r == p[key].b
    ensures key !in p ==> r == default
  {
    if key in p && p[key].BoolValue? then p[key].b else default
  }

  /** `getString(key, default)`: the stored string, or `default` when the key is absent. */
  function GetString(p: Prefs, key: string, default: string): (r: string)
    ensures key in p && p[key].StringValue? ==> r == p[key].s
    ensures key !in p ==> r == default
  {
    if key in p && p[key].StringValue? then p[key].s else default
  }

  /** `getInt(key, default)`: the stored integer, or `default` when the key is absent. */
  function GetInt(p: Prefs, key: string, default: int): (r: int)
    ensures key in p && p[key].IntValue? ==> r == p[key].i
    ensures key !in p ==> r == default
  {
    if key in p && p[key].IntValue? then p[key].i else default
  }

  /** A value written by `putBoolean` is read back by `getBoolean`, whatever the default. */
  lemma PutThenGetBoolean(p: Prefs, key: string, value: bool, default: bool)
    ensures GetBoolean(p[key := BoolValue(value)], key, default) == value
  {
  }

  /** A value written by `putString` is read back by `getString`, whatever the default. */
  lemma PutThenGetString(p: Prefs, key: string, value: string, default: string)
    ensures GetString(p[key := StringValue(value)], key, default) == value
  {
  }

  /** A value written by `putInt` is read back by `getInt`, whatever the default. */
  lemma PutThenGetInt(p: Prefs, key: string, value: int, default: int)
    ensures GetInt(p[key := IntValue(value)], key, default) == value
  {
  }

  /** A put leaves the reads of every other key as they were. */
  lemma PutKeepsOtherReads(p: Prefs, key: string, value: PrefValue, other: string)
    requires other != key
    ensures forall d :: GetBoolean(p[key := value], other, d) == GetBoolean(p, other, d)
    ensures forall d :: GetString(p[key := value], other, d) == GetString(p, other, d)
    ensures forall d :: GetInt(p[key := value], other, d) == GetInt(p, other, d)
  {
  }
}
