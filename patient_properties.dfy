/** What lesion extraction guarantees: ascending non-zero ids, masks that
    partition the non-zero voxels, and no voxel gained or lost. */
module PatientProperties {
  import opened Arrays
  import opened Lesions
  import opened Patients

  /** Number of voxels holding `v`. */
  function LabelVoxels(cells: seq<real>, v: real): (count: nat)
  {
    if cells == [] then 0 else (if cells[0] == v then 1 else 0) + LabelVoxels(cells[1..], v)
  }

  /** Number of non-background voxels. */
  function NonZeroVoxels(cells: seq<real>): (count: nat)
  {
    if cells == [] then 0 else (if cells[0] != 0.0 then 1 else 0) + NonZeroVoxels(cells[1..])
  }

  /** Number of voxels holding one of `labels`. */
  function VoxelsIn(cells: seq<real>, labels: seq<real>): (count: nat)
  {
    if cells == [] then 0 else (if cells[0] in labels then 1 else 0) + VoxelsIn(cells[1..], labels)
  }

  /** Sum over `labels` of the voxels holding each label. */
  function LabelTotal(cells: seq<real>, labels: seq<real>): (count: nat)
  {
    if labels == [] then 0 else LabelVoxels(cells, labels[0]) + LabelTotal(cells, labels[1..])
  }

  /** Number of 1 voxels in a uint8 mask. */
  function Ones(m: seq<int>): (count: nat)
  {
    if m == [] then 0 else (if m[0] == 1 then 1 else 0) + Ones(m[1..])
  }

  /** Sum of the lesion voxel counts of `ls`. */
  function LesionVoxelTotal(ls: seq<Lesion>): (count: nat)
  {
    if ls == [] then 0 else Ones(ls[0].mask.cells) + LesionVoxelTotal(ls[1..])
  }

  /** A label mask has as many 1 voxels as the volume has voxels with that label. */
  lemma {:induction false} OnesOfLabelMask(m: seq<int>, cells: seq<real>, v: real)
    requires |m| == |cells|
    requires forall k | 0 <= k < |cells| :: m[k] == if cells[k] == v then 1 else 0
    ensures Ones(m) == LabelVoxels(cells, v)
  {
    if cells != [] {
      OnesOfLabelMask(m[1..], cells[1..], v);
    }
  }

  lemma {:induction false} LabelTotalOfEmpty(labels: seq<real>)
    ensures LabelTotal([], labels) == 0
  {
    if labels != [] {
      LabelTotalOfEmpty(labels[1..]);
    }
  }

  /** Over distinct labels, the first voxel is counted once if its value is a label, else not at all. */
  lemma {:induction false} LabelTotalSplit(cells: seq<real>, labels: seq<real>)
    requires cells != [] && StrictlyIncreasing(labels)
    ensures LabelTotal(cells, labels) == (if cells[0] in labels then 1 else 0) + LabelTotal(cells[1..], labels)
  {
    if labels != [] {
      LabelTotalSplit(cells, labels[1..]);
      assert cells[0] in labels <==> cells[0] == labels[0] || cells[0] in labels[1..];
      assert cells[0] == labels[0] ==> cells[0] !in labels[1..];
    }
  }

  /** Summing per-label counts over distinct labels counts each labelled voxel exactly once. */
  lemma {:induction false} LabelTotalCountsVoxels(cells: seq<real>, labels: seq<real>)
    requires StrictlyIncreasing(labels)
    ensures LabelTotal(cells, labels) == VoxelsIn(cells, labels)
  {
    if cells == [] {
      LabelTotalOfEmpty(labels);
    } else {
      LabelTotalSplit(cells, labels);
      LabelTotalCountsVoxels(cells[1..], labels);
    }
  }

  lemma {:induction false} VoxelsInNonZero(cells: seq<real>, labels: seq<real>)
    requires forall k | 0 <= k < |cells| :: cells[k] in labels <==> cells[k] != 0.0
    ensures VoxelsIn(cells, labels) == NonZeroVoxels(cells)
  {
    if cells != [] {
      assert forall k | 0 <= k < |cells[1..]| :: cells[1..][k] == cells[k + 1];
      VoxelsInNonZero(cells[1..], labels);
    }
  }

  /** The label masks together hold exactly the non-zero voxels of the volume. */
  lemma LabelTotalIsNonZero(cells: seq<real>)
    ensures LabelTotal(cells, LesionLabels(cells)) == NonZeroVoxels(cells)
  {
    var labels := LesionLabels(cells);
    LabelTotalCountsVoxels(cells, labels);
    VoxelsInNonZero(cells, labels);
  }

  lemma {:induction false} LesionTotalIsLabelTotal(ls: seq<Lesion>, g: Grid<real>, labels: seq<real>)
    requires |ls| == |labels|
    requires forall i | 0 <= i < |ls| :: IsLabelMask(ls[i].mask, g, labels[i])
    ensures LesionVoxelTotal(ls) == LabelTotal(g.cells, labels)
  {
    if ls != [] {
      OnesOfLabelMask(ls[0].mask.cells, g.cells, labels[0]);
      LesionTotalIsLabelTotal(ls[1..], g, labels[1..]);
    }
  }

  /** After extraction, the lesions' voxel counts add up to the number of non-zero
      voxels of the lesion mask. */
  lemma ExtractedVoxelTotal(p: Patient)
    requires p.Extracted()
    ensures LesionVoxelTotal(p.lesions) == NonZeroVoxels(p.lesionMask.cells)
  {
    LesionTotalIsLabelTotal(p.lesions, p.lesionMask, LesionLabels(p.lesionMask.cells));
    LabelTotalIsNonZero(p.lesionMask.cells);
  }

  /** After extraction every non-zero voxel lies in exactly one lesion mask and
      every background voxel in none. */
  lemma ExtractedMasksPartition(p: Patient, k: nat)
    requires p.Extracted() && k < |p.lesionMask.cells|
    ensures p.lesionMask.cells[k] != 0.0 <==>
              exists i | 0 <= i < |p.lesions| :: p.lesions[i].mask.cells[k] == 1
    ensures forall i, j | 0 <= i < j < |p.lesions| ::
              !(p.lesions[i].mask.cells[k] == 1 && p.lesions[j].mask.cells[k] == 1)
  {
    var labels := LesionLabels(p.lesionMask.cells);
    var v := p.lesionMask.cells[k];
    if v != 0.0 {
      assert v in labels;
      var i :| 0 <= i < |labels| && labels[i] == v;
      assert p.lesions[i].mask.cells[k] == 1;
    } else {
      forall i | 0 <= i < |p.lesions|
        ensures p.lesions[i].mask.cells[k] != 1
      {
        assert labels[i] in labels;
      }
    }
  }

  /** When every label is integral (what `_check_masks` enforces), the ids are the
      labels themselves: strictly ascending, never 0, and each mask is 1 exactly
      where the lesion mask holds that id. */
  lemma ExtractedIdsAscending(p: Patient)
    requires p.Extracted()
    requires forall k | 0 <= k < |p.lesionMask.cells| :: IsIntegral(p.lesionMask.cells[k])
    ensures forall i, j | 0 <= i < j < |p.lesions| :: p.lesions[i].id < p.lesions[j].id
    ensures forall i | 0 <= i < |p.lesions| ::
              p.lesions[i].id != 0 && IsLabelMask(p.lesions[i].mask, p.lesionMask, p.lesions[i].id as real)
  {
    var labels := LesionLabels(p.lesionMask.cells);
    forall i | 0 <= i < |labels|
      ensures p.lesions[i].id as real == labels[i] && labels[i] != 0.0
    {
      assert labels[i] in labels;
      TruncExactIffIntegral(labels[i]);
    }
  }

  /** Extraction depends only on the patient's id and lesion mask: two patients
      with the same id whose lesion lists are both extractions of the same mask
      hold lesions with the same ids, masks and patient id, in the same order. */
  lemma ExtractionDetermined(p: Patient, q: Patient)
    requires p.Extracted() && q.Extracted()
    requires p.lesionMask == q.lesionMask && p.id == q.id
    ensures |p.lesions| == |q.lesions|
    ensures forall i | 0 <= i < |p.lesions| ::
      && p.lesions[i].id == q.lesions[i].id
      && p.lesions[i].mask == q.lesions[i].mask
      && p.lesions[i].patientId == q.lesions[i].patientId
  {
  }

  /** The mask {0, 2, 2, 5} (no label 1) yields the labels 2 and 5, in that order,
      covering its three non-zero voxels. */
  lemma ExtractionExample()
    ensures LesionLabels([0.0, 2.0, 2.0, 5.0]) == [2.0, 5.0]
    ensures LabelTotal([0.0, 2.0, 2.0, 5.0], [2.0, 5.0]) == 3
  {
    var cells := [0.0, 2.0, 2.0, 5.0];
    AscendingDeterminedByElements(LesionLabels(cells), [2.0, 5.0]);
  }
}
