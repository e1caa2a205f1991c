/** The errors the extractor raises; none of them is caught, each one ends the run. */
module Errors {

  datatype Error =
      /** The requested (catalogue, cosmo) pair is not in the scenario table (a ValueError). */
    | InvalidScenario(catalogue: string, cosmo: bool)
      /** The file name has too few '-'-separated fields for its naming convention (an IndexError). */
    | MalformedFileName(fileName: string)
      /** The output already holds the group `event/key` (h5py refuses to create it again). */
    | DuplicateGroup(event: string, key: string)
}
