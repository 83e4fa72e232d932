/** One patient: the T2 volume, the multi-label lesion mask, the prostate mask,
    their affines and the voxel spacing; geometry verification and lesion
    extraction over them. */
module Patients {
  import opened Outcomes
  import opened Arrays
  import opened Lesions

  /** What verification and the centroid stage can raise: the ValueErrors with
      their messages, and the KeyError of an affine table without a "t2" entry. */
  datatype PatientError =
    | LesionShapeMismatch(patient: string)          // "[id] T2 / lesion shape mismatch"
    | ProstateShapeMismatch(patient: string)        // "[id] T2 / prostate shape mismatch"
    | MissingAffine(name: string)                   // KeyError(name)
    | AffineMismatch(patient: string, name: string) // "[id] Affine mismatch: name"
    | NonIntegerLabels(patient: string)             // "[id] Non-integer lesion labels"

  /** The affine every other affine is compared with, and the one centroids use. */
  const Reference: string := "t2"

  /** The name of the first entry of `t` whose matrix is not close to `reference`. */
  function FirstMismatch(reference: Matrix, t: AffineTable): (r: Option<string>)
    requires IsAffine(reference) && forall i | 0 <= i < |t| :: IsAffine(t[i].1)
    ensures r.None? <==> forall i | 0 <= i < |t| :: AllClose(reference, t[i].1)
  {
    if t == [] then None
    else if !AllClose(reference, t[0].1) then Some(t[0].0)
    else FirstMismatch(reference, t[1..])
  }

  /** The name reported belongs to an entry that is not close, and every entry
      before it is close: the search stops at the first failure. */
  lemma {:induction false} FirstMismatchIsFirst(reference: Matrix, t: AffineTable)
    requires IsAffine(reference) && forall i | 0 <= i < |t| :: IsAffine(t[i].1)
    ensures FirstMismatch(reference, t).Some? ==> exists k | 0 <= k < |t| ::
      && t[k].0 == FirstMismatch(reference, t).value
      && !AllClose(reference, t[k].1)
      && forall j | 0 <= j < k :: AllClose(reference, t[j].1)
  {
    if t != [] && AllClose(reference, t[0].1) {
      var rest := t[1..];
      FirstMismatchIsFirst(reference, rest);
      if FirstMismatch(reference, rest).Some? {
        var k :| 0 <= k < |rest| && rest[k].0 == FirstMismatch(reference, rest).value
                 && !AllClose(reference, rest[k].1)
                 && forall j | 0 <= j < k :: AllClose(reference, rest[j].1);
        assert t[k + 1] == rest[k];
        assert forall j | 1 <= j < k + 1 :: t[j] == rest[j - 1];
      }
    }
  }

  /** The reference matrix is close to itself, so the entry that holds it never fails. */
  lemma ReferenceEntryPasses(t: AffineTable, name: string, reference: Matrix)
    requires WellFormedTable(t) && Lookup(t, name) == Some(reference)
    ensures forall k | 0 <= k < |t| && t[k].0 == name :: IsAffine(reference) && AllClose(reference, t[k].1)
  {
  }

  /** `lesion_labels[lesion_labels != 0]`: the values of `s` other than 0, order kept. */
  function WithoutZero(s: seq<real>): (r: seq<real>)
    ensures forall v :: v in r <==> v in s && v != 0.0
    ensures StrictlyIncreasing(s) ==> StrictlyIncreasing(r)
  {
    if s == [] then []
    else
      var tail := WithoutZero(s[1..]);
      assert forall v :: v in s[1..] ==> v in s;
      if s[0] == 0.0 then tail
      else
        assert StrictlyIncreasing(s) ==> forall j | 0 <= j < |tail| :: s[0] < tail[j] by {
          if StrictlyIncreasing(s) {
            forall j | 0 <= j < |tail| ensures s[0] < tail[j] {
              assert tail[j] in tail;
            }
          }
        }
        [s[0]] + tail
  }

  /** The labels `extract_lesions` walks: the distinct non-zero values of the
      lesion mask, in ascending order. */
  function LesionLabels(cells: seq<real>): (labels: seq<real>)
    ensures StrictlyIncreasing(labels)
    ensures forall v :: v in labels <==> v in cells && v != 0.0
  {
    WithoutZero(Unique(cells))
  }

  /** `m` is the uint8 mask of the voxels of `g` equal to `v`: same shape, 1 there, 0 elsewhere. */
  ghost predicate IsLabelMask(m: Grid<int>, g: Grid<real>, v: real)
  {
    && m.shape == g.shape
    && |m.cells| == |g.cells|
    && forall k | 0 <= k < |g.cells| :: m.cells[k] == if g.cells[k] == v then 1 else 0
  }

  class Patient {
    var id: string
    var t2: Grid<real>
    /** 0 is background; every other value labels one lesion. */
    var lesionMask: Grid<real>
    var prostateMask: Grid<real>
    var affines: AffineTable
    var spacing: Spacing
    /** Empty until extraction runs; each extraction replaces it. */
    var lesions: seq<Lesion>

    /** What the loader guarantees of every patient it builds (arrays consistent with
        their shapes, 4x4 affines under distinct names), and that no lesion is listed twice. */
    ghost predicate Valid()
      reads this
    {
      && WellFormed(t2) && WellFormed(lesionMask) && WellFormed(prostateMask)
      && WellFormedTable(affines)
      && forall i, j | 0 <= i < j < |lesions| :: lesions[i] != lesions[j]
    }

    constructor (patientId: string, t2: Grid<real>, lesionMask: Grid<real>, prostateMask: Grid<real>,
                 affines: AffineTable, spacing: Spacing)
      requires WellFormed(t2) && WellFormed(lesionMask) && WellFormed(prostateMask)
      requires WellFormedTable(affines)
      ensures Valid()
      ensures id == patientId && this.t2 == t2 && this.lesionMask == lesionMask
      ensures this.prostateMask == prostateMask && this.affines == affines && this.spacing == spacing
      ensures lesions == []
    {
      id := patientId;
      this.t2 := t2;
      this.lesionMask := lesionMask;
      this.prostateMask := prostateMask;
      this.affines := affines;
      this.spacing := spacing;
      lesions := [];
    }

    // ---------------------------------------------------------------
    // Geometry verification
    // ---------------------------------------------------------------

    /** All three volumes lie on the same voxel grid. */
    ghost predicate ShapesAgree()
      reads this
    {
      t2.shape == lesionMask.shape && t2.shape == prostateMask.shape
    }

    /** There is a reference affine and every affine, in the sense of `np.allclose`, is close to it. */
    ghost predicate AffinesAgree()
      reads this
      requires Valid()
    {
      var reference := Lookup(affines, Reference);
      && reference.Some?
      && IsAffine(reference.value)
      && forall i | 0 <= i < |affines| :: AllClose(reference.value, affines[i].1)
    }

    /** Every lesion-mask value is integral and every prostate-mask value is 0 or 1. */
    ghost predicate MasksValid()
      reads this
    {
      && (forall k | 0 <= k < |lesionMask.cells| :: IsIntegral(lesionMask.cells[k]))
      && (forall k | 0 <= k < |prostateMask.cells| :: prostateMask.cells[k] == 0.0 || prostateMask.cells[k] == 1.0)
    }

    /** `_check_shapes`: the T2/lesion comparison comes first, so its error wins
        even when the prostate shape differs too. */
    function CheckShapes(): (r: Outcome<PatientError>)
      reads this
      ensures r.Pass? <==> ShapesAgree()
      ensures t2.shape != lesionMask.shape ==> r == Fail(LesionShapeMismatch(id))
      ensures t2.shape == lesionMask.shape && t2.shape != prostateMask.shape ==> r == Fail(ProstateShapeMismatch(id))
    {
      if t2.shape != lesionMask.shape then Fail(LesionShapeMismatch(id))
      else if t2.shape != prostateMask.shape then Fail(ProstateShapeMismatch(id))
      else Pass
    }

    /** `_check_affines`: compares every entry, in table order, with the "t2" entry
        and reports the first that is not close; "t2" itself is never reported. */
    function CheckAffines(): (r: Outcome<PatientError>)
      reads this
      requires Valid()
      ensures r.Pass? <==> AffinesAgree()
      ensures Lookup(affines, Reference).None? ==> r == Fail(MissingAffine(Reference))
      ensures r.Fail? && Lookup(affines, Reference).Some? ==>
        && r.error.AffineMismatch?
        && r.error.patient == id
        && r.error.name != Reference
        && IsAffine(Lookup(affines, Reference).value)
        && exists k | 0 <= k < |affines| ::
             && affines[k].0 == r.error.name
             && !AllClose(Lookup(affines, Reference).value, affines[k].1)
             && forall j | 0 <= j < k :: AllClose(Lookup(affines, Reference).value, affines[j].1)
    {
      match Lookup(affines, Reference)
      case None => Fail(MissingAffine(Reference))
      case Some(reference) =>
        ReferenceEntryPasses(affines, Reference, reference);
        FirstMismatchIsFirst(reference, affines);
        match FirstMismatch(reference, affines)
        case None => Pass
        case Some(name) => Fail(AffineMismatch(id, name))
    }

    /** `_check_masks`: tests the distinct values of each mask. Both failures raise
        the same "Non-integer lesion labels" error. */
    function CheckMasks(): (r: Outcome<PatientError>)
      reads this
      ensures r.Pass? <==> MasksValid()
      ensures r.Fail? ==> r == Fail(NonIntegerLabels(id))
    {
      var lesionValues := Unique(lesionMask.cells);
      AllTruncExactIffIntegral(lesionValues);
      assert forall k | 0 <= k < |lesionMask.cells| :: lesionMask.cells[k] in lesionValues;
      if !(forall v | v in lesionValues :: v == Trunc(v) as real) then
        Fail(NonIntegerLabels(id))
      else
        var prostateValues := Unique(prostateMask.cells);
        assert forall k | 0 <= k < |prostateMask.cells| :: prostateMask.cells[k] in prostateValues;
        if !(forall v | v in prostateValues :: v == 0.0 || v == 1.0) then
          Fail(NonIntegerLabels(id))
        else
          Pass
    }

    /** `verify_geometry`: shapes, then affines, then mask values; the first failing
        check decides the error and the later ones are not consulted. */
    function VerifyGeometry(): (r: Outcome<PatientError>)
      reads this
      requires Valid()
      ensures r.Pass? <==> ShapesAgree() && AffinesAgree() && MasksValid()
      ensures !ShapesAgree() ==> r == CheckShapes()
      ensures ShapesAgree() && !AffinesAgree() ==> r == CheckAffines()
      ensures ShapesAgree() && AffinesAgree() && !MasksValid() ==> r == Fail(NonIntegerLabels(id))
    {
      match CheckShapes()
      case Fail(e) => Fail(e)
      case Pass =>
        match CheckAffines()
        case Fail(e) => Fail(e)
        case Pass => CheckMasks()
    }

    // ---------------------------------------------------------------
    // Lesion extraction
    // ---------------------------------------------------------------

    /** `lesions` is the extraction of the current lesion mask: one lesion per
        distinct non-zero label, in ascending label order, each with id `int(label)`,
        the mask of that label's voxels and this patient's id. */
    ghost predicate Extracted()
      reads this
    {
      var labels := LesionLabels(lesionMask.cells);
      && |lesions| == |labels|
      && forall i | 0 <= i < |labels| ::
           && lesions[i].id == Trunc(labels[i])
           && IsLabelMask(lesions[i].mask, lesionMask, labels[i])
           && lesions[i].patientId == id
    }

    /** `extract_lesions`: builds fresh, unmeasured lesions and replaces (does not
        extend) `lesions` with them. Only `lesions` changes. */
    method ExtractLesions() returns (result: seq<Lesion>)
      requires Valid()
      modifies `lesions
      ensures Valid() && Extracted()
      ensures result == lesions
      ensures forall i | 0 <= i < |lesions| :: fresh(lesions[i]) && lesions[i].Unmeasured()
      // Idempotent: a re-run over an earlier extraction rebuilds the same lesions.
      ensures old(Extracted()) ==>
        && |lesions| == |old(lesions)|
        && forall i | 0 <= i < |lesions| ::
             && lesions[i].id == old(lesions)[i].id
             && lesions[i].mask == old(lesions)[i].mask
             && lesions[i].patientId == old(lesions)[i].patientId
    {
      var labels := LesionLabels(lesionMask.cells);
      var extracted: seq<Lesion> := [];
      for i := 0 to |labels|
        invariant |extracted| == i
        invariant forall j | 0 <= j < i :: fresh(extracted[j]) && extracted[j].Unmeasured()
        invariant forall j | 0 <= j < i ::
          && extracted[j].id == Trunc(labels[j])
          && IsLabelMask(extracted[j].mask, lesionMask, labels[j])
          && extracted[j].patientId == id
        invariant forall j, j' | 0 <= j < j' < i :: extracted[j] != extracted[j']
      {
        var binaryMask := ElementwiseEq(lesionMask, labels[i]);
        var lesion := new Lesion(Trunc(labels[i]), binaryMask, id);
        extracted := extracted + [lesion];
      }
      lesions := extracted;
      result := extracted;
    }

    // ---------------------------------------------------------------
    // Per-lesion measurement loops
    // ---------------------------------------------------------------

    /** `compute_lesion_volumes`: hands this patient's spacing to the per-lesion volume
        operation of every lesion; the list itself and the other slots stay as they were. */
    method ComputeLesionVolumes(computeVolume: (Grid<int>, Spacing) -> real)
      requires Valid()
      modifies lesions
      ensures forall i | 0 <= i < |lesions| ::
        && lesions[i].volume == Some(computeVolume(lesions[i].mask, spacing))
        && lesions[i].centroid == old(lesions[i].centroid)
        && lesions[i].simulationResults == old(lesions[i].simulationResults)
    {
      for i := 0 to |lesions|
        invariant forall j | 0 <= j < i :: lesions[j].volume == Some(computeVolume(lesions[j].mask, spacing))
        invariant forall j | i <= j < |lesions| :: lesions[j].volume == old(lesions[j].volume)
        invariant forall j | 0 <= j < |lesions| ::
          lesions[j].centroid == old(lesions[j].centroid) && lesions[j].simulationResults == old(lesions[j].simulationResults)
      {
        lesions[i].volume := Some(computeVolume(lesions[i].mask, spacing));
      }
    }

    /** `compute_lesion_centroids`: looks up the "t2" affine once (a missing entry raises
        before any lesion is touched) and hands it to the per-lesion centroid operation
        of every lesion. */
    method ComputeLesionCentroids(computeCentroid: (Grid<int>, Matrix) -> Point) returns (r: Outcome<PatientError>)
      requires Valid()
      modifies lesions
      ensures Lookup(affines, Reference).None? ==>
        && r == Fail(MissingAffine(Reference))
        && forall i | 0 <= i < |lesions| :: lesions[i].centroid == old(lesions[i].centroid)
      ensures Lookup(affines, Reference).Some? ==>
        && r == Pass
        && forall i | 0 <= i < |lesions| :: lesions[i].centroid == Some(computeCentroid(lesions[i].mask, Lookup(affines, Reference).value))
      ensures forall i | 0 <= i < |lesions| ::
        lesions[i].volume == old(lesions[i].volume) && lesions[i].simulationResults == old(lesions[i].simulationResults)
    {
      var found := Lookup(affines, Reference);
      if found.None? {
        return Fail(MissingAffine(Reference));
      }
      var affine := found.value;
      for i := 0 to |lesions|
        invariant forall j | 0 <= j < i :: lesions[j].centroid == Some(computeCentroid(lesions[j].mask, affine))
        invariant forall j | i <= j < |lesions| :: lesions[j].centroid == old(lesions[j].centroid)
        invariant forall j | 0 <= j < |lesions| ::
          lesions[j].volume == old(lesions[j].volume) && lesions[j].simulationResults == old(lesions[j].simulationResults)
      {
        lesions[i].centroid := Some(computeCentroid(lesions[i].mask, affine));
      }
      r := Pass;
    }
  }
}
