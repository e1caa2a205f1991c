/** Which groups of a release file are extracted, and which of their columns. */
module Selection {
  import opened Text

  /** Python's `'C01' in key or 'C00' in key`. */
  function IsAnalysisKey(key: string): bool
  {
    Contains(key, "C01") || Contains(key, "C00")
  }

  /** A group is a calibrated posterior analysis exactly when "C01" or "C00" occurs somewhere in its name. */
  lemma AnalysisKeyMeaning(key: string)
    ensures IsAnalysisKey(key) <==> exists i :: OccursAt(key, "C01", i) || OccursAt(key, "C00", i)
  {
    ContainsMeaning(key, "C01");
    ContainsMeaning(key, "C00");
  }

  /** The sky-location, distance and SNR columns worth keeping. */
  const DesiredColumns: set<string> :=
    {"ra", "dec", "redshift", "luminosity_distance", "comoving_distance", "network_optimal_snr"}

  /** The desired columns among a dataset's column names. */
  function SelectColumns(names: seq<string>): (selected: set<string>)
    ensures selected <= DesiredColumns
    ensures forall n :: n in selected ==> n in names
    ensures forall n :: n in names && n in DesiredColumns ==> n in selected
  {
    set n | n in DesiredColumns && n in names
  }

  /** Sample columns {ra, dec, mass1, mass2} are reduced to {ra, dec}. */
  lemma SelectDropsUnwanted()
    ensures SelectColumns(["ra", "dec", "mass1", "mass2"]) == {"ra", "dec"}
  {
  }
}
