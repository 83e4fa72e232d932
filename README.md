# Cohort geometry model

A Dafny model of the cohort/patient/lesion core of a prostate-MRI lesion
pipeline. A `Dataset` holds an ordered list of `Patient`s. Each patient owns
a T2 volume, a multi-label lesion mask, a binary prostate mask, a table of
named 4x4 affines and a voxel spacing.

- **Geometry verification** checks, in this order and stopping at the first
  failure: that the three volumes have the same shape; that every affine is
  `np.allclose` to the `"t2"` affine; and that lesion-mask values are integral
  and prostate-mask values are 0 or 1.
- **Lesion extraction** splits the lesion mask into one `Lesion` per distinct
  non-zero label, in ascending label order. The new list replaces the old one.
- **Per-lesion measurement loops** hand the spacing, or the `"t2"` affine, to
  a per-lesion volume or centroid operation.

The cohort runs verification fail-fast in list order, and runs extraction on
every patient.

Files:
- `outcomes.dfy`: `Option` (Python's `None`) and `Outcome` (returns normally or raises).
- `arrays.dfy`: numpy arrays as values. A 3D volume is a shape triple plus its
  voxels, flattened. Also modelled here: `np.unique`, `==` against a scalar,
  `astype(np.uint8)`, `int(...)`, `np.allclose` and dict lookup.
- `lesion.dfy`: the `Lesion` class (`models/lesion.py`).
- `patients.dfy`: the `Patient` class with its checks, extraction and loops (`models/patients.py`).
- `patient_properties.dfy`: lemmas about extraction.
- `dataset.dfy`: the `Dataset` class (`models/dataset.py`).

Voxel values are `real`; integrality is `v == v.Floor as real`. Affine tables
are ordered lists of `(name, matrix)` pairs, as a Python dict keeps them. The
loader inserts `t2`, `lesion` and `prostate`, in that order.

## Behaviour of the code worth knowing

- The reference affine is the one named `"t2"`.
- The tolerance is that of `np.allclose(ref, affine, atol=1e-5)`, which also
  applies numpy's default `rtol = 1e-5` to the second argument:
  `|ref - a| <= 1e-5 + 1e-5 * |a|`. The tolerance therefore grows with the
  size of the entry.
  `Arrays.RelativeToleranceExample` shows an entry near 1000 mm that differs by
  0.005 and still passes.
- A prostate value outside {0, 1} raises the same "Non-integer lesion labels"
  error as a fractional lesion label.
- If the table has no `"t2"` entry, `affines["t2"]` raises `KeyError`. This is
  modelled as `MissingAffine("t2")`.
- `Lesion.compute_volume` and `Lesion.compute_centroid` are called but never
  defined. The two measurement loops therefore take the per-lesion operation as
  a function parameter.
- A lesion id is `int(label)`, which truncates toward zero. When every label is
  integral the ids are strictly ascending and never 0. A non-integral label can
  break this: 0.5 gives id 0, and 1.2 and 1.5 both give id 1.
  `_check_masks` enforces integrality, and the pipeline verifies before it extracts.
  `PatientProperties.ExtractedIdsAscending` states these properties under that
  hypothesis. Negative integral labels pass `_check_masks` and yield negative ids.

## Model

| member | source | states |
|---|---|---|
| `Arrays.Lookup` | models/patients.py:52 | `affines[name]`: None (KeyError) exactly when no entry carries the name; otherwise the matrix of an entry with that name |
| `Arrays.LookupFindsEntry` | step1_load_data.py:48-52 | with distinct names (dict keys), looking up an entry's name yields that entry's matrix |
| `Arrays.Trunc` | models/patients.py:102 | `int(v)` truncates toward zero: the result lies between 0 and v, less than 1 away from v |
| `Arrays.TruncExactIffIntegral` | models/patients.py:60 | `v == int(v)` holds exactly when v is integral |
| `Arrays.AllTruncExactIffIntegral` | models/patients.py:59-61 | comparing a set of values with their `astype(int)` succeeds exactly when all of them are integral |
| `Arrays.Unique` | models/patients.py:89 | `np.unique`: strictly ascending, and holds exactly the values that occur in the input |
| `Arrays.AscendingDeterminedByElements` | models/patients.py:59 | two strictly ascending sequences with the same values are equal, so the order `np.unique` returns is fully determined |
| `Arrays.ElementwiseEq` | models/patients.py:99 | `lesion_mask == label` has the mask's shape and is true exactly at the voxels holding the label |
| `Arrays.AsUint8` | models/lesion.py:30 | `astype(np.uint8)` of a boolean array keeps the shape and gives 1 where true, 0 where false |
| `Arrays.RelativeToleranceExample` | models/patients.py:54 | `np.allclose` with atol 1e-5 accepts a difference larger than 1e-5 when the entries are large |
| `Patients.FirstMismatch` | models/patients.py:53-55 | returns no name exactly when every entry is close to the reference |
| `Patients.FirstMismatchIsFirst` | models/patients.py:53-55 | a reported name belongs to an entry that is not close, and every entry before it in table order is close |
| `Patients.ReferenceEntryPasses` | models/patients.py:52-54 | the `"t2"` entry is always close to itself, so it never fails its own comparison |
| `Patients.WithoutZero` | models/patients.py:92 | dropping 0 keeps exactly the non-zero values and keeps them ascending |
| `Patients.LesionLabels` | models/patients.py:89-92 | the labels walked are strictly ascending and are exactly the distinct non-zero values of the lesion mask |
| `Patients.Patient.constructor` | models/patients.py:20-31 | stores the id, three volumes, affines and spacing unchanged, and starts with no lesions |
| `Patients.Patient.CheckShapes` | models/patients.py:43-49 | passes exactly when all shapes agree; a T2/lesion mismatch is reported even if the prostate shape also differs; the T2/prostate error only when T2 and lesion agree |
| `Patients.Patient.CheckAffines` | models/patients.py:51-55 | passes exactly when a `"t2"` entry exists and every entry is `np.allclose` to it; a missing `"t2"` raises KeyError; otherwise reports the first failing entry, never `"t2"` itself |
| `Patients.Patient.CheckMasks` | models/patients.py:57-66 | passes exactly when every lesion-mask value is integral and every prostate-mask value is 0 or 1; both failures give the same "Non-integer lesion labels" error |
| `Patients.Patient.VerifyGeometry` | models/patients.py:38-41 | passes exactly when the shape, affine and mask conditions all hold; a shape failure hides the other two, and an affine failure hides a mask failure |
| `Patients.Patient.ExtractLesions` | models/patients.py:72-111 | replaces `lesions` with fresh, unmeasured lesions, one per distinct non-zero label in ascending order, each with id `int(label)`, the mask of that label and this patient's id; returns the new list; changes no other field; a re-run over an earlier extraction of the same mask rebuilds lesions with the same ids, masks and patient ids in the same order (idempotent) |
| `Patients.Patient.ComputeLesionVolumes` | models/patients.py:114-119 | every lesion in the list gets the volume the per-lesion operation computes from its mask and this patient's spacing; the list, the centroids and the simulation results are unchanged |
| `Patients.Patient.ComputeLesionCentroids` | models/patients.py:122-129 | without a `"t2"` affine it raises KeyError and touches no lesion; otherwise every lesion gets the centroid the per-lesion operation computes from its mask and the `"t2"` affine; volumes are unchanged |
| `Lesions.Lesion.constructor` | models/lesion.py:16-36 | stores id and patient id unchanged; the mask has the input's shape and is 1 where the input is true and 0 elsewhere; volume and centroid start unset and simulation results empty |
| `PatientProperties.OnesOfLabelMask` | models/patients.py:99 | the mask of one label has as many 1 voxels as the volume has voxels with that label |
| `PatientProperties.LabelTotalSplit` | models/patients.py:97-99 | over distinct labels, a voxel is counted by at most one label's mask |
| `PatientProperties.LabelTotalCountsVoxels` | models/patients.py:97-99 | summed over distinct labels, the label-mask sizes count each labelled voxel exactly once |
| `PatientProperties.VoxelsInNonZero` | models/patients.py:92 | when the labelled voxels are exactly the non-zero ones, they number as many as the non-zero voxels |
| `PatientProperties.LabelTotalIsNonZero` | models/patients.py:89-99 | the masks of all extracted labels together hold exactly as many voxels as the lesion mask has non-zero voxels |
| `PatientProperties.LesionTotalIsLabelTotal` | models/patients.py:99-105 | the lesions' mask sizes sum to the per-label voxel counts |
| `PatientProperties.ExtractedVoxelTotal` | models/patients.py:89-111 | after extraction, the lesion masks together have as many voxels as the lesion mask has non-zero voxels |
| `PatientProperties.ExtractedMasksPartition` | models/patients.py:97-105 | after extraction, a voxel lies in some lesion mask exactly when it is non-zero, and in at most one |
| `PatientProperties.ExtractedIdsAscending` | models/patients.py:97-105 | with integral labels, the lesion ids are strictly ascending and never 0, and each mask is 1 exactly where the lesion mask equals the lesion's id |
| `PatientProperties.ExtractionDetermined` | models/patients.py:89-111 | extraction depends only on the patient's id and lesion mask: two patients with the same id and lesion mask, both extracted, hold lesions with the same ids, masks and patient ids in the same order |
| `PatientProperties.ExtractionExample` | models/patients.py:89-92 | the mask {0, 2, 2, 5} yields labels [2, 5], covering its 3 non-zero voxels |
| `Datasets.Dataset.constructor` | models/dataset.py:15-22 | holds exactly the given patients in the given order, each of them a valid patient. `len` is their number and iteration yields them in construction order |
| `Datasets.Dataset.Length` | models/dataset.py:36-38 | `len(dataset)` is the number of patients that iteration yields |
| `Datasets.Dataset.Iterate` | models/dataset.py:40-42 | iteration yields every stored patient once, in list order, and nothing else |
| `Datasets.Dataset.VerifyAllGeometry` | models/dataset.py:24-34 | passes exactly when every patient's verification passes; otherwise raises the error of the first failing patient in list order, all earlier patients having passed; modifies nothing |
| `Datasets.Dataset.ExtractAllLesions` | models/dataset.py:44-49 | afterwards every patient's lesions are that patient's own extraction: fresh and unmeasured. Only the patients' `lesions` fields change |

## Left out

- Loading NIfTI files, listing directories, the path constants, the command-line
  steps, printing, percentiles and plotting are out of scope: they are file I/O,
  a foreign library or display. A patient arrives fully built.
- The volume and centroid formulas are not modelled. `Lesion.compute_volume` and
  `Lesion.compute_centroid` are not defined in the repository, so the loops take
  them as parameters. Any error they might raise is not modelled either.
- `Dataset.compute_all_lesion_volumes` and `Dataset.compute_all_lesion_centroids`
  are called by the scripts but not defined in `models/dataset.py`, so they are
  not modelled.
- Floating point is not modelled: values are exact reals. This leaves out
  `float32` rounding, IEEE behaviour inside `np.allclose`, NaN and infinities in
  `np.unique` and in the comparisons, and integer overflow in `astype(int)`.
- `Patients.Patient.Valid` requires 4x4 affines under distinct names and arrays
  whose size matches their shape, as the loader always provides. `np.allclose`
  on matrices of other shapes (broadcasting, or a broadcast error) is not modelled.
- Arrays and lists are values, so aliasing is not modelled. One case is
  `Dataset.__init__` keeping the caller's list object. Another is numpy arrays
  being changed in place after a patient is built; reassigning a patient's
  fields is modelled. Because of value semantics, a lesion's mask shares nothing
  with the patient's arrays, which `astype`'s copy also guarantees.
- Lesions.Lesion.constructor: only boolean masks are modelled, which is what the
  one caller passes. On an integer array, `astype(np.uint8)` wraps values modulo
  256 rather than mapping non-zero values to 1. A lesion's id, mask and patient
  id are constants, because nothing in the core reassigns them.
- `simulation_results` is modelled as a map from names to reals. The source
  never fills it, so the type of its values is unknown.
- Datasets.Dataset.VerifyAllGeometry: that patients after the first failure are
  never checked has no observable effect in the model, because verification has
  no side effects. The contract states the observable part: the reported error
  is the first failing patient's.
- Patients.Patient.ComputeLesionVolumes and Patients.Patient.ComputeLesionCentroids
  walk the list in order. The per-lesion operations are pure functions of the
  mask, so the contracts state the final state and not the visiting order.
- Patients.Patient.CheckAffines: `_check_affines` takes an optional `tol`
  argument; the model fixes it at its default 1e-5 (`Arrays.AffineAtol`), the
  only value `verify_geometry` ever passes.
