/**
 * Face recognition of the face-detection screen: the L2 nearest-neighbour search over
 * the gallery of known faces, the acceptance threshold, and the gallery build from the
 * enrolled records.
 *
 * Distances are kept SQUARED. The source takes `sqrt` of the sum before comparing; as
 * the square root is strictly increasing on non-negative numbers, every comparison
 * (`<` between two distances, `< 1.0` against the threshold) has the same outcome on
 * the squares (lemmas SqrtPreservesLess and SqrtPreservesThreshold).
 */
module FaceMatching {
  import opened Wrappers
  import opened Entities

  /** Length of the face-embedding model's output, `FloatArray(192)`. */
  const EmbeddingSize: nat := 192

  type Embedding = v: seq<real> | |v| == EmbeddingSize witness seq(EmbeddingSize, _ => 0.0)

  /**
   * A gallery entry (`Person?`): a name and a face vector, either of which may be null.
   * A null entry behaves in the search exactly like `Person(None, None)`.
   */
  datatype Person = Person(name: Option<string>, faceVector: Option<seq<real>>)

  /**
   * The nearest entry found: its name and its SQUARED distance. The source returns the
   * square root of this value.
   */
  datatype Match = Match(name: Option<string>, distance: real)

  // ---------------------------------------------------------------- distance

  /** Sum of squared differences over the first `n` components. */
  function SqDistUpTo(u: seq<real>, v: seq<real>, n: nat): (d: real)
    requires n <= |u| && n <= |v|
    ensures d >= 0.0
  {
    if n == 0 then 0.0
    else
      var diff := u[n - 1] - v[n - 1];
      SqDistUpTo(u, v, n - 1) + diff * diff
  }

  /** The squared L2 distance, summed over the PROBE's indices (`vector.indices`). */
  function SqDist(probe: seq<real>, known: seq<real>): (d: real)
    requires |probe| <= |known|
    ensures d >= 0.0
    ensures probe == known ==> d == 0.0
  {
    if probe == known then
      SqDistUpToSelf(probe, |probe|); SqDistUpTo(probe, known, |probe|)
    else
      SqDistUpTo(probe, known, |probe|)
  }

  lemma {:induction false} SqDistUpToSelf(v: seq<real>, n: nat)
    requires n <= |v|
    ensures SqDistUpTo(v, v, n) == 0.0
  {
    if n > 0 { SqDistUpToSelf(v, n - 1); }
  }

  /** A vector is at distance 0 from itself. */
  lemma SqDistSelf(v: seq<real>)
    ensures SqDist(v, v) == 0.0
  {
    SqDistUpToSelf(v, |v|);
  }

  lemma {:induction false} SqDistUpToSymmetric(u: seq<real>, v: seq<real>, n: nat)
    requires n <= |u| && n <= |v|
    ensures SqDistUpTo(u, v, n) == SqDistUpTo(v, u, n)
  {
    if n > 0 {
      SqDistUpToSymmetric(u, v, n - 1);
      assert (u[n - 1] - v[n - 1]) * (u[n - 1] - v[n - 1])
          == (v[n - 1] - u[n - 1]) * (v[n - 1] - u[n - 1]);
    }
  }

  /** For vectors of equal length the distance is symmetric. */
  lemma SqDistSymmetric(u: seq<real>, v: seq<real>)
    requires |u| == |v|
    ensures SqDist(u, v) == SqDist(v, u)
  {
    SqDistUpToSymmetric(u, v, |u|);
  }

  lemma {:induction false} SqDistUpToPrefix(u: seq<real>, v: seq<real>, n: nat, m: nat)
    requires n <= m <= |v| && n <= |u|
    ensures SqDistUpTo(u, v, n) == SqDistUpTo(u, v[..m], n)
  {
    if n > 0 { SqDistUpToPrefix(u, v, n - 1, m); }
  }

  /** Components of a known vector beyond the probe's length are never read. */
  lemma SqDistIgnoresTail(probe: seq<real>, known: seq<real>)
    requires |probe| <= |known|
    ensures SqDist(probe, known) == SqDist(probe, known[..|probe|])
  {
    SqDistUpToPrefix(probe, known, |probe|, |probe|);
  }

  /** Comparing square roots is comparing squares. */
  lemma SqrtPreservesLess(s1: real, s2: real)
    requires 0.0 <= s1 && 0.0 <= s2
    ensures s1 < s2 <==> s1 * s1 < s2 * s2
  {
    var d := s2 - s1;
    assert s2 * s2 == s1 * s1 + d * (s1 + s1 + d);
    if s1 < s2 {
      assert d * (s1 + s1 + d) > 0.0;
    } else {
      assert d * (s1 + s1 + d) <= 0.0 by {
        assert d <= 0.0 && s1 + s1 + d >= 0.0;
      }
    }
  }

  /** `sqrt(d) < 1.0` holds exactly when `d < 1.0`. */
  lemma SqrtPreservesThreshold(s: real)
    requires 0.0 <= s
    ensures s < 1.0 <==> s * s < 1.0
  {
    SqrtPreservesLess(s, 1.0);
  }

  // ---------------------------------------------------------------- search

  /** The search reads `knownVector[i]` for every index `i` of the probe. */
  predicate ProbeFits(probe: seq<real>, gallery: seq<Person>) {
    forall j :: 0 <= j < |gallery| && gallery[j].faceVector.Some?
      ==> |probe| <= |gallery[j].faceVector.value|
  }

  /** The distance the search assigns to an entry: 0 when its vector is null. */
  function EntryDistance(probe: seq<real>, p: Person): (d: real)
    requires p.faceVector.Some? ==> |probe| <= |p.faceVector.value|
    ensures d >= 0.0
    ensures p.faceVector.None? ==> d == 0.0
  {
    match p.faceVector
    case None => 0.0
    case Some(known) => SqDist(probe, known)
  }

  /** The search state after the first `n` entries: a new entry replaces only a strictly larger distance. */
  function NearestUpTo(probe: seq<real>, gallery: seq<Person>, n: nat): (r: Option<Match>)
    requires n <= |gallery| && ProbeFits(probe, gallery)
    ensures r.None? <==> n == 0
    ensures r.Some? ==> r.value.distance >= 0.0
  {
    if n == 0 then None
    else
      var best := NearestUpTo(probe, gallery, n - 1);
      var d := EntryDistance(probe, gallery[n - 1]);
      if best.None? || d < best.value.distance then Some(Match(gallery[n - 1].name, d))
      else best
  }

  /** `findNearestFace`: the pair <name, distance> of the nearest entry, null for an empty gallery. */
  function NearestFace(probe: seq<real>, gallery: seq<Person>): (r: Option<Match>)
    requires ProbeFits(probe, gallery)
    ensures r.None? <==> |gallery| == 0
    ensures r.Some? ==> r.value.distance >= 0.0
  {
    NearestUpTo(probe, gallery, |gallery|)
  }

  /** Entry `k` is the first of the entries at minimal distance. */
  predicate IsFirstNearest(probe: seq<real>, gallery: seq<Person>, k: int)
    requires ProbeFits(probe, gallery)
  {
    0 <= k < |gallery|
    && (forall j :: 0 <= j < |gallery| ==>
          EntryDistance(probe, gallery[k]) <= EntryDistance(probe, gallery[j]))
    && (forall j :: 0 <= j < k ==>
          EntryDistance(probe, gallery[k]) < EntryDistance(probe, gallery[j]))
  }

  lemma {:induction false} NearestUpToWitness(probe: seq<real>, gallery: seq<Person>, n: nat)
    returns (k: nat)
    requires 0 < n <= |gallery| && ProbeFits(probe, gallery)
    ensures k < n
    ensures NearestUpTo(probe, gallery, n)
         == Some(Match(gallery[k].name, EntryDistance(probe, gallery[k])))
    ensures forall j :: 0 <= j < n ==>
              EntryDistance(probe, gallery[k]) <= EntryDistance(probe, gallery[j])
    ensures forall j :: 0 <= j < k ==>
              EntryDistance(probe, gallery[k]) < EntryDistance(probe, gallery[j])
  {
    if n == 1 {
      k := 0;
    } else {
      var k' := NearestUpToWitness(probe, gallery, n - 1);
      if EntryDistance(probe, gallery[n - 1]) < EntryDistance(probe, gallery[k']) {
        k := n - 1;
      } else {
        k := k';
      }
    }
  }

  /**
   * For a non-empty gallery the search returns the first entry at minimal distance:
   * its distance is at most every entry's, and every earlier entry is strictly farther.
   */
  lemma NearestIsFirstMinimum(probe: seq<real>, gallery: seq<Person>) returns (k: nat)
    requires ProbeFits(probe, gallery) && |gallery| > 0
    ensures IsFirstNearest(probe, gallery, k)
    ensures NearestFace(probe, gallery)
         == Some(Match(gallery[k].name, EntryDistance(probe, gallery[k])))
  {
    k := NearestUpToWitness(probe, gallery, |gallery|);
  }

  /** There is only one first nearest entry, so the characterisation determines the result. */
  lemma FirstNearestUnique(probe: seq<real>, gallery: seq<Person>, k1: int, k2: int)
    requires ProbeFits(probe, gallery)
    requires IsFirstNearest(probe, gallery, k1) && IsFirstNearest(probe, gallery, k2)
    ensures k1 == k2
  {
    var d1, d2 := EntryDistance(probe, gallery[k1]), EntryDistance(probe, gallery[k2]);
    assert d1 <= d2 && d2 <= d1;
    assert k1 < k2 ==> d2 < d1;
    assert k2 < k1 ==> d1 < d2;
  }

  /** An entry with a null vector (or a null entry) is at distance 0, hence always a nearest one. */
  lemma NullVectorIsNearest(probe: seq<real>, gallery: seq<Person>, j: int)
    requires ProbeFits(probe, gallery) && 0 <= j < |gallery| && gallery[j].faceVector.None?
    ensures NearestFace(probe, gallery).Some?
    ensures NearestFace(probe, gallery).value.distance == 0.0
  {
    var k := NearestIsFirstMinimum(probe, gallery);
    assert EntryDistance(probe, gallery[k]) <= EntryDistance(probe, gallery[j]) == 0.0;
  }

  // ---------------------------------------------------------------- decision

  /** Kotlin's string template renders a null name as "null". */
  function NameText(name: Option<string>): (s: string)
    ensures name.Some? ==> s == name.value
    ensures name.None? ==> s == "null"
  {
    name.GetOr("null")
  }

  /**
   * The match decision of `analyzeCroppedFace` for the probe embedding: a match when the
   * gallery is non-empty and the nearest distance is strictly below 1.0. The distance
   * here is SQUARED, so `confidenceText(s)` stands for the source's formatting of the
   * true distance, `BigDecimal(sqrt(s) * 100).setScale(2, FLOOR)` followed by "%".
   */
  function Analyze(probe: seq<real>, gallery: seq<Person>, confidenceText: real -> string): (r: Recognition)
    requires ProbeFits(probe, gallery)
    ensures !r.recognized ==> r == NotRecognized
    ensures r.recognized ==> |gallery| > 0 && NearestFace(probe, gallery).value.distance < 1.0
  {
    if |gallery| > 0 then
      var result := NearestFace(probe, gallery);
      if result.Some? && result.value.distance < 1.0 then
        Recognition(true, "Person-" + NameText(result.value.name)
                          + " \n Confidence-" + confidenceText(result.value.distance))
      else NotRecognized
    else NotRecognized
  }

  /**
   * A face is recognised exactly when SOME gallery entry lies strictly within the
   * threshold; it is then reported under the name of the first nearest entry, and an
   * unrecognised face gets `(false, "")`.
   */
  lemma AnalyzeDecision(probe: seq<real>, gallery: seq<Person>, confidenceText: real -> string)
    requires ProbeFits(probe, gallery)
    ensures Analyze(probe, gallery, confidenceText).recognized
        <==> exists j :: 0 <= j < |gallery| && EntryDistance(probe, gallery[j]) < 1.0
    ensures Analyze(probe, gallery, confidenceText).recognized ==>
              exists k :: IsFirstNearest(probe, gallery, k)
                && EntryDistance(probe, gallery[k]) < 1.0
                && Analyze(probe, gallery, confidenceText).caption
                   == "Person-" + NameText(gallery[k].name) + " \n Confidence-"
                      + confidenceText(EntryDistance(probe, gallery[k]))
  {
    if |gallery| > 0 {
      var k := NearestIsFirstMinimum(probe, gallery);
      if exists j :: 0 <= j < |gallery| && EntryDistance(probe, gallery[j]) < 1.0 {
        var j :| 0 <= j < |gallery| && EntryDistance(probe, gallery[j]) < 1.0;
        assert EntryDistance(probe, gallery[k]) <= EntryDistance(probe, gallery[j]);
      }
    }
  }

  /** A best distance of exactly the threshold is not a match. */
  lemma ThresholdIsStrict(probe: seq<real>, gallery: seq<Person>, confidenceText: real -> string)
    requires ProbeFits(probe, gallery)
    requires NearestFace(probe, gallery).Some? && NearestFace(probe, gallery).value.distance == 1.0
    ensures Analyze(probe, gallery, confidenceText) == NotRecognized
  {
  }

  /** An empty gallery never matches. */
  lemma EmptyGalleryNeverMatches(probe: seq<real>, confidenceText: real -> string)
    ensures Analyze(probe, [], confidenceText) == NotRecognized
  {
  }

  /** A gallery holding Alice's own vector recognises Alice at distance 0. */
  lemma RecognizesIdenticalVector(v: seq<real>, confidenceText: real -> string)
    ensures ProbeFits(v, [Person(Some("Alice"), Some(v))])
    ensures NearestFace(v, [Person(Some("Alice"), Some(v))]) == Some(Match(Some("Alice"), 0.0))
    ensures Analyze(v, [Person(Some("Alice"), Some(v))], confidenceText)
         == Recognition(true, "Person-Alice \n Confidence-" + confidenceText(0.0))
  {
    var gallery := [Person(Some("Alice"), Some(v))];
    SqDistSelf(v);
    assert EntryDistance(v, gallery[0]) == 0.0;
    assert NearestUpTo(v, gallery, 0) == None;
  }

  // ---------------------------------------------------------------- gallery

  /**
   * `createRecognizedFaceList`: one entry per record whose encoded image is non-empty,
   * in record order, pairing the record's name with the embedding of its image.
   * `embedEncoded` stands for decoding the Base64 JPEG and running the embedding model.
   */
  function RecognizedFaces(records: seq<FaceInfo>, embedEncoded: string -> Embedding): (r: seq<Person>)
    ensures |r| <= |records|
    ensures forall j :: 0 <= j < |r| ==> r[j].faceVector.Some? && |r[j].faceVector.value| == EmbeddingSize
  {
    if |records| == 0 then []
    else
      var last := records[|records| - 1];
      RecognizedFaces(records[..|records| - 1], embedEncoded)
      + (if last.faceImage != "" then [Person(Some(last.faceName), Some(embedEncoded(last.faceImage)))]
         else [])
  }

  /** The number of records with a non-empty image. */
  function CountWithImage(records: seq<FaceInfo>): (c: nat)
    ensures c <= |records|
  {
    if |records| == 0 then 0
    else CountWithImage(records[1..]) + (if records[0].faceImage != "" then 1 else 0)
  }

  /** The gallery of a concatenation is the concatenation of the galleries (order is kept). */
  lemma {:induction false} RecognizedFacesAppend(a: seq<FaceInfo>, b: seq<FaceInfo>, embedEncoded: string -> Embedding)
    ensures RecognizedFaces(a + b, embedEncoded)
         == RecognizedFaces(a, embedEncoded) + RecognizedFaces(b, embedEncoded)
    decreases |b|
  {
    if |b| == 0 {
      assert a + b == a;
    } else {
      var b' := b[..|b| - 1];
      assert (a + b)[..|a + b| - 1] == a + b';
      assert (a + b)[|a + b| - 1] == b[|b| - 1];
      RecognizedFacesAppend(a, b', embedEncoded);
    }
  }

  /** Exactly the records with a non-empty image make it into the gallery. */
  lemma {:induction false} RecognizedFacesLength(records: seq<FaceInfo>, embedEncoded: string -> Embedding)
    ensures |RecognizedFaces(records, embedEncoded)| == CountWithImage(records) <= |records|
    decreases |records|
  {
    if |records| > 0 {
      RecognizedFacesLength(records[1..], embedEncoded);
      RecognizedFacesAppend([records[0]], records[1..], embedEncoded);
      assert [records[0]] + records[1..] == records;
      assert [records[0]][..0] == [];
    }
  }

  /** Every gallery entry comes from a record with a non-empty image, and every such record gives one. */
  lemma {:induction false} RecognizedFacesMembers(records: seq<FaceInfo>, embedEncoded: string -> Embedding, p: Person)
    ensures p in RecognizedFaces(records, embedEncoded)
        <==> exists i :: 0 <= i < |records| && records[i].faceImage != ""
               && p == Person(Some(records[i].faceName), Some(embedEncoded(records[i].faceImage)))
    decreases |records|
  {
    if |records| > 0 {
      var init := records[..|records| - 1];
      RecognizedFacesMembers(init, embedEncoded, p);
      assert forall i :: 0 <= i < |init| ==> init[i] == records[i];
    }
  }

  /** Every vector of a built gallery is a full embedding, so any embedding probe fits it. */
  lemma {:induction false} RecognizedFacesFit(records: seq<FaceInfo>, embedEncoded: string -> Embedding, probe: Embedding)
    ensures ProbeFits(probe, RecognizedFaces(records, embedEncoded))
    ensures forall j :: 0 <= j < |RecognizedFaces(records, embedEncoded)| ==>
              RecognizedFaces(records, embedEncoded)[j].faceVector.Some?
    decreases |records|
  {
    if |records| > 0 {
      RecognizedFacesFit(records[..|records| - 1], embedEncoded, probe);
    }
  }

  /**
   * The gallery build loop: appends one entry per record with a non-empty image.
   */
  method CreateRecognizedFaceList(retrievedFaceList: seq<FaceInfo>, embedEncoded: string -> Embedding)
    returns (created: seq<Person>)
    ensures created == RecognizedFaces(retrievedFaceList, embedEncoded)
    ensures |created| <= |retrievedFaceList|
  {
    created := [];
    for i := 0 to |retrievedFaceList|
      invariant created == RecognizedFaces(retrievedFaceList[..i], embedEncoded)
    {
      var faceInfo := retrievedFaceList[i];
      assert retrievedFaceList[..i + 1][..i] == retrievedFaceList[..i];
      if faceInfo.faceImage != "" {
        created := created + [Person(Some(faceInfo.faceName), Some(embedEncoded(faceInfo.faceImage)))];
      }
    }
    assert retrievedFaceList[..|retrievedFaceList|] == retrievedFaceList;
    RecognizedFacesLength(retrievedFaceList, embedEncoded);
  }

  /**
   * The search loop of `findNearestFace` over a gallery, with the inner loop summing the
   * squared differences over the probe's indices.
   */
  method FindNearestFace(vector: seq<real>, recognisedFaceList: seq<Person>) returns (ret: Option<Match>)
    requires ProbeFits(vector, recognisedFaceList)
    ensures ret == NearestFace(vector, recognisedFaceList)
  {
    ret := None;
    for k := 0 to |recognisedFaceList|
      invariant ret == NearestUpTo(vector, recognisedFaceList, k)
    {
      var person := recognisedFaceList[k];
      var distance := 0.0;
      if person.faceVector.Some? {
        var knownVector := person.faceVector.value;
        for i := 0 to |vector|
          invariant distance == SqDistUpTo(vector, knownVector, i)
        {
          var diff := vector[i] - knownVector[i];
          distance := distance + diff * diff;
        }
      }
      if ret.None? || distance < ret.value.distance {
        ret := Some(Match(person.name, distance));
      }
    }
  }
}
