/** The patient cohort: an ordered list of patients and the operations that
    fan out over it. */
module Datasets {
  import opened Outcomes
  import opened Patients

  class Dataset {
    /** The patients, in the order the loader handed them over. */
    var patients: seq<Patient>

    ghost predicate Valid()
      reads this, patients
    {
      forall i | 0 <= i < |patients| :: patients[i].Valid()
    }

    /** The dataset holds the given patients, in the given order. */
    constructor (patients: seq<Patient>)
      requires forall i | 0 <= i < |patients| :: patients[i].Valid()
      ensures Valid()
      ensures this.patients == patients
      ensures Length() == |patients|
      ensures |Iterate()| == |patients| && forall i | 0 <= i < |patients| :: Iterate()[i] == patients[i]
    {
      this.patients := patients;
    }

    /** `len(dataset)`. */
    function Length(): (n: nat)
      reads this
      ensures n == |Iterate()|
    {
      |patients|
    }

    /** `iter(dataset)`: the patients in list order. */
    function Iterate(): (r: seq<Patient>)
      reads this
      ensures |r| == |patients| && forall i | 0 <= i < |r| :: r[i] == patients[i]
    {
      patients
    }

    /** `verify_all_geometry`: verifies the patients in list order and stops at the
        first failure, whose error it raises; nothing is modified. */
    method VerifyAllGeometry() returns (r: Outcome<PatientError>)
      requires Valid()
      ensures r.Pass? <==> forall i | 0 <= i < |patients| :: patients[i].VerifyGeometry().Pass?
      ensures r.Fail? ==> exists k | 0 <= k < |patients| ::
        && r == patients[k].VerifyGeometry()
        && forall j | 0 <= j < k :: patients[j].VerifyGeometry().Pass?
    {
      for i := 0 to |patients|
        invariant forall j | 0 <= j < i :: patients[j].VerifyGeometry().Pass?
      {
        var outcome := patients[i].VerifyGeometry();
        if outcome.Fail? {
          return outcome;
        }
      }
      return Pass;
    }

    /** `extract_all_lesions`: afterwards every patient's lesions are that patient's
        own extraction. Only the `lesions` fields of the patients change. */
    method ExtractAllLesions()
      requires Valid()
      modifies (set p | p in patients)`lesions
      ensures Valid()
      ensures forall i | 0 <= i < |patients| :: patients[i].Extracted()
      ensures forall i, j | 0 <= i < |patients| && 0 <= j < |patients[i].lesions| ::
        fresh(patients[i].lesions[j]) && patients[i].lesions[j].Unmeasured()
    {
      for i := 0 to |patients|
        invariant Valid()
        invariant forall h | 0 <= h < i :: patients[h].Extracted()
        invariant forall h, j | 0 <= h < i && 0 <= j < |patients[h].lesions| ::
          fresh(patients[h].lesions[j]) && patients[h].lesions[j].Unmeasured()
      {
        var _ := patients[i].ExtractLesions();
      }
    }
  }
}
