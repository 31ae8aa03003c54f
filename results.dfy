/** Optional values, results, and every error an evaluation run can end with. */
module Results {

  datatype Option<+T> = None | Some(value: T)

  /** The outcome of a step that may abort the run. */
  datatype Result<+T> = Ok(value: T) | Err(error: Error)

  /** The fatal conditions of a run; none of them is recovered from. */
  datatype Error =
    | MissingManifest(path: string)              // the test-split manifest file does not exist
    | ZeroStride                                 // a slice step of zero (Python's ValueError)
    | UnsupportedDatasetType(name: string)       // only the "blender" layout is implemented
    | CountMismatch(rendered: nat, frames: nat)  // rendered images versus manifest frames
    | MaskCountMismatch(masks: nat, frames: nat) // mask identifiers versus manifest frames
    | ShapeMismatch                              // rasters numpy cannot index or compare together
    | EmptyReduction                             // min or max of an empty array
}
