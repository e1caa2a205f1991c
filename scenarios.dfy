/**
 * The scenario table and the command-line dispatch: which posterior files
 * feed which output file, and which scenarios one invocation runs.
 */
module Scenarios {
  import opened Wrappers
  import opened Errors
  import opened Extraction

  /** A glob: the files of `directory` whose names match `pattern`. */
  datatype Glob = Glob(directory: string, pattern: string)

  /**
   * One registered scenario: a catalogue release, whether its samples were
   * reweighted by the cosmological prior, where its posterior files are and
   * which output file collects their sky locations.
   */
  datatype Scenario = Scenario(catalogue: string, cosmo: bool, sources: Glob, output: string)

  /** Posterior directories, relative to the release root. */
  const Gwtc2p1Dir := "gwtc2p1/6513631_4/parameter_estimation"
  const Gwtc3p0Dir := "gwtc3/8177023_4/parameter_estimation"
  const Gwtc4p0Dir := "gwtc4/GWTC4-Stable_Release-7/parameter_estimation"

  /** The catalogue argument that selects every scenario (also the default). */
  const AllCatalogues := "All"

  /** The registered scenarios, in registration order. */
  const Table: seq<Scenario> := [
    Scenario("GWTC2.1", true, Glob(Gwtc2p1Dir, "*_cosmo.h5"), "GWTC2p1_cosmo_skyloc_samples.h5"),
    Scenario("GWTC2.1", false, Glob(Gwtc2p1Dir, "*_nocosmo.h5"), "GWTC2p1_nocosmo_skyloc_samples.h5"),
    Scenario("GWTC3.0", true, Glob(Gwtc3p0Dir, "*_cosmo.h5"), "GWTC3p0_cosmo_skyloc_samples.h5"),
    Scenario("GWTC3.0", false, Glob(Gwtc3p0Dir, "*_nocosmo.h5"), "GWTC3p0_nocosmo_skyloc_samples.h5"),
    Scenario("GWTC4.0", false, Glob(Gwtc4p0Dir, "*.hdf5"), "GWTC4p0_skyloc_samples.h5")
  ]

  /** Whether `s` is registered under the key (`catalogue`, `cosmo`). */
  predicate Keyed(s: Scenario, catalogue: string, cosmo: bool)
  {
    s.catalogue == catalogue && s.cosmo == cosmo
  }

  /** No two entries of `table` share a key. */
  predicate KeysDistinct(table: seq<Scenario>)
  {
    forall a, b :: 0 <= a < b < |table| ==> !Keyed(table[b], table[a].catalogue, table[a].cosmo)
  }

  /** Looks a key up in `table`; a key nobody registered is an invalid combination. */
  function LookupIn(table: seq<Scenario>, catalogue: string, cosmo: bool): (r: Result<Scenario, Error>)
    ensures r.Success? ==> r.value in table && Keyed(r.value, catalogue, cosmo)
    ensures r.Failure? ==> r.error == InvalidScenario(catalogue, cosmo)
    ensures r.Failure? <==> forall s :: s in table ==> !Keyed(s, catalogue, cosmo)
    decreases |table|
  {
    if table == [] then Failure(InvalidScenario(catalogue, cosmo))
    else if Keyed(table[0], catalogue, cosmo) then Success(table[0])
    else
      var r := LookupIn(table[1..], catalogue, cosmo);
      assert forall s :: s in table ==> s == table[0] || s in table[1..];
      r
  }

  function Lookup(catalogue: string, cosmo: bool): Result<Scenario, Error>
  {
    LookupIn(Table, catalogue, cosmo)
  }

  /**
   * With distinct keys, looking up the key of an entry finds that very entry.
   */
  lemma {:induction false} LookupInFindsEntry(table: seq<Scenario>, k: nat)
    requires KeysDistinct(table) && k < |table|
    ensures LookupIn(table, table[k].catalogue, table[k].cosmo) == Success(table[k])
    decreases k
  {
    if k > 0 {
      assert !Keyed(table[0], table[k].catalogue, table[k].cosmo);
      assert KeysDistinct(table[1..]) by {
        forall a, b | 0 <= a < b < |table| - 1
          ensures !Keyed(table[1..][b], table[1..][a].catalogue, table[1..][a].cosmo)
        {
          assert table[1..][a] == table[a + 1] && table[1..][b] == table[b + 1];
        }
      }
      LookupInFindsEntry(table[1..], k - 1);
      assert table[1..][k - 1] == table[k];
    }
  }

  /** The table registers five distinct keys and five distinct output files. */
  lemma TableWellFormed()
    ensures |Table| == 5
    ensures KeysDistinct(Table)
    ensures forall a, b :: 0 <= a < b < |Table| ==> Table[a].output != Table[b].output
  {
  }

  /** Every registered scenario can be selected by its own key. */
  lemma LookupFindsEveryEntry(k: nat)
    requires k < |Table|
    ensures Lookup(Table[k].catalogue, Table[k].cosmo) == Success(Table[k])
  {
    TableWellFormed();
    LookupInFindsEntry(Table, k);
  }

  /**
   * The scenarios one invocation runs: every registered one, in table order,
   * when the catalogue is "All" (whatever the reweighting flag says);
   * otherwise the one registered under (catalogue, cosmo), or an
   * invalid-combination error when there is none.
   */
  function Dispatch(catalogue: string, cosmo: bool): (r: Result<seq<Scenario>, Error>)
    ensures catalogue == AllCatalogues ==> r == Success(Table)
    ensures catalogue != AllCatalogues ==>
      && (r.Success? <==> exists s :: s in Table && Keyed(s, catalogue, cosmo))
      && (r.Success? ==> |r.value| == 1 && r.value[0] in Table && Keyed(r.value[0], catalogue, cosmo))
      && (r.Failure? ==> r.error == InvalidScenario(catalogue, cosmo))
  {
    if catalogue == AllCatalogues then Success(Table)
    else
      match Lookup(catalogue, cosmo)
      case Failure(e) => Failure(e)
      case Success(s) => Success([s])
  }

  /** "All" ignores the reweighting flag. */
  lemma AllIgnoresCosmo(cosmo: bool)
    ensures Dispatch(AllCatalogues, cosmo) == Dispatch(AllCatalogues, !cosmo)
  {
  }

  /** GWTC-4.0 has no cosmologically reweighted release, so asking for one is an error. */
  lemma Gwtc4CosmoInvalid()
    ensures Dispatch("GWTC4.0", true) == Failure(InvalidScenario("GWTC4.0", true))
  {
    assert forall s :: s in Table ==> !Keyed(s, "GWTC4.0", true);
  }

  /** GWTC-2.1 with reweighting reads the `*_cosmo.h5` files and writes the cosmo output. */
  lemma Gwtc2p1CosmoExample()
    ensures Dispatch("GWTC2.1", true).Success?
    ensures var scs := Dispatch("GWTC2.1", true).value;
      && |scs| == 1
      && scs[0].sources == Glob(Gwtc2p1Dir, "*_cosmo.h5")
      && scs[0].output == "GWTC2p1_cosmo_skyloc_samples.h5"
  {
    LookupFindsEveryEntry(0);
  }

  /** Each selected scenario, not only "All", is a registered one with a distinct output. */
  lemma DispatchSelectsRegistered(catalogue: string, cosmo: bool)
    requires Dispatch(catalogue, cosmo).Success?
    ensures var scs := Dispatch(catalogue, cosmo).value;
      && (forall k :: 0 <= k < |scs| ==> scs[k] in Table)
      && (forall a, b :: 0 <= a < b < |scs| ==> scs[a].output != scs[b].output)
  {
    TableWellFormed();
  }

  /** Whether output file `f` is written by none of the first `n` scenarios of `scs`. */
  predicate Untouched(files: map<string, OutputFile>, scs: seq<Scenario>, n: nat, f: OutputFile)
  {
    forall j :: 0 <= j < n && j < |scs| && scs[j].output in files ==> files[scs[j].output] != f
  }

  /**
   * Runs the scenarios `scs` in order, each into its own output file, and
   * stops at the first that fails. A run that passes leaves each output
   * holding exactly what extraction of its sources produces; a run that
   * fails reports the first failing scenario's error after completing every
   * scenario before it. An output file no scenario run so far writes to is
   * left as it was.
   */
  method RunScenarios(scs: seq<Scenario>, listing: Glob -> seq<SourceFile>,
                      files: map<string, OutputFile>) returns (res: Outcome<Error>)
    requires forall k :: 0 <= k < |scs| ==> scs[k].output in files
    requires forall a, b :: 0 <= a < b < |scs| ==> scs[a].output != scs[b].output
    requires forall a, b :: a in files && b in files && a != b ==> files[a] != files[b]
    modifies files.Values
    ensures res.Pass? ==>
      && (forall k :: 0 <= k < |scs| ==> Extract(listing(scs[k].sources)) == Success(files[scs[k].output].contents))
      && (forall f :: f in files.Values && Untouched(files, scs, |scs|, f) ==> unchanged(f))
    ensures res.Fail? ==>
      exists k :: 0 <= k < |scs|
        && Extract(listing(scs[k].sources)) == Failure(res.error)
        && (forall j :: 0 <= j < k ==> Extract(listing(scs[j].sources)) == Success(files[scs[j].output].contents))
        && (forall f :: f in files.Values && Untouched(files, scs, k + 1, f) ==> unchanged(f))
  {
    for i := 0 to |scs|
      invariant forall j :: 0 <= j < i ==> Extract(listing(scs[j].sources)) == Success(files[scs[j].output].contents)
      invariant forall f :: f in files.Values && Untouched(files, scs, i, f) ==> unchanged(f)
    {
      var output := files[scs[i].output];
      res := LoopAndExtract(listing(scs[i].sources), output);
      if res.Fail? {
        return;
      }
    }
    res := Pass;
  }

  /**
   * One invocation. `listing` stands for the file-system glob, `files` for
   * the output files by name. A rejected combination changes nothing;
   * otherwise the selected scenarios run in order, as `RunScenarios` states.
   */
  method Run(catalogue: string, cosmo: bool, listing: Glob -> seq<SourceFile>,
             files: map<string, OutputFile>) returns (res: Outcome<Error>)
    requires forall s :: s in Table ==> s.output in files
    requires forall a, b :: a in files && b in files && a != b ==> files[a] != files[b]
    modifies files.Values
    ensures Dispatch(catalogue, cosmo).Failure? ==>
      res == Fail(Dispatch(catalogue, cosmo).error) && forall f :: f in files.Values ==> unchanged(f)
    ensures res.Pass? ==>
      && Dispatch(catalogue, cosmo).Success?
      && var scs := Dispatch(catalogue, cosmo).value;
         && (forall k :: 0 <= k < |scs| ==> Extract(listing(scs[k].sources)) == Success(files[scs[k].output].contents))
         && (forall f :: f in files.Values && Untouched(files, scs, |scs|, f) ==> unchanged(f))
    ensures res.Fail? && Dispatch(catalogue, cosmo).Success? ==>
      var scs := Dispatch(catalogue, cosmo).value;
      exists k :: 0 <= k < |scs|
        && Extract(listing(scs[k].sources)) == Failure(res.error)
        && (forall j :: 0 <= j < k ==> Extract(listing(scs[j].sources)) == Success(files[scs[j].output].contents))
        && (forall f :: f in files.Values && Untouched(files, scs, k + 1, f) ==> unchanged(f))
  {
    var selected := Dispatch(catalogue, cosmo);
    if selected.Failure? {
      return Fail(selected.error);
    }
    DispatchSelectsRegistered(catalogue, cosmo);
    res := RunScenarios(selected.value, listing, files);
  }
}
