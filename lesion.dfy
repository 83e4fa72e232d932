/** One lesion of one patient: a binary voxel mask, its label, the owning
    patient's identifier, and measurement slots filled by later stages. */
module Lesions {
  import opened Outcomes
  import opened Arrays

  class Lesion {
    /** The label value this lesion was extracted from. */
    const id: int
    /** A uint8 copy of the mask it was built from: 1 inside the lesion, 0 outside. */
    const mask: Grid<int>
    /** The owning patient's identifier; a key, not a reference to the patient. */
    const patientId: string

    /** Volume in mm^3, unset until a volume stage writes it. */
    var volume: Option<real>
    /** World-space centroid in mm, unset until a centroid stage writes it. */
    var centroid: Option<Point>
    /** Results of later simulation steps, keyed by name. */
    var simulationResults: map<string, real>

    /** No later stage has written any measurement yet. */
    predicate Unmeasured()
      reads this
    {
      volume == None && centroid == None && simulationResults == map[]
    }

    /** The stored mask has the input's shape and is 1 exactly where the input is true.
        Being a value, it shares nothing with the array it was built from. */
    constructor (lesionId: int, binaryMask: Grid<bool>, patientId: string)
      ensures id == lesionId && this.patientId == patientId
      ensures mask.shape == binaryMask.shape && |mask.cells| == |binaryMask.cells|
      ensures forall k | 0 <= k < |mask.cells| ::
        (binaryMask.cells[k] ==> mask.cells[k] == 1) && (!binaryMask.cells[k] ==> mask.cells[k] == 0)
      ensures Unmeasured()
    {
      id := lesionId;
      mask := AsUint8(binaryMask);
      this.patientId := patientId;
      volume := None;
      centroid := None;
      simulationResults := map[];
    }
  }
}
