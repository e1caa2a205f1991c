/**
 * The extraction run: every analysis group of every release file becomes one
 * group `event/key` of the output file, holding the selected columns of the
 * group's posterior samples over all of its rows.
 */
module Extraction {
  import opened Wrappers
  import opened Errors
  import opened EventNames
  import opened Selection

  /** A group of a release file: its name, its sample column names and its row count. */
  datatype Group = Group(name: string, columns: seq<string>, rows: nat)

  /** A release file: its base name and its top-level groups in enumeration order. */
  datatype SourceFile = SourceFile(name: string, groups: seq<Group>)

  /** The path `event/key` of an output group. */
  datatype Path = Path(event: string, key: string)

  /** What an output group's `skyloc_samples` dataset is made from: the column names selected for it and its row count. */
  datatype Entry = Entry(columns: set<string>, rows: nat)

  type Contents = map<Path, Entry>

  /**
   * An analysis group waiting to be copied, with the name of the file it
   * lives in and the outcome of deriving an event name from that name.
   */
  datatype Pending = Pending(fileName: string, event: Result<string, Error>, group: Group)

  /** What is written for a group: the desired columns it has, over all its rows. */
  function Extracted(g: Group): Entry
  {
    Entry(SelectColumns(g.columns), g.rows)
  }

  /** The analysis groups among `groups` of file `fileName`, in order. */
  function Qualifying(fileName: string, event: Result<string, Error>, groups: seq<Group>): seq<Pending>
  {
    if groups == [] then []
    else
      (if IsAnalysisKey(groups[0].name) then [Pending(fileName, event, groups[0])] else [])
      + Qualifying(fileName, event, groups[1..])
  }

  /** The analysis groups of all files, file by file. */
  function Pendings(files: seq<SourceFile>): seq<Pending>
  {
    if files == [] then []
    else Qualifying(files[0].name, EventName(files[0].name), files[0].groups) + Pendings(files[1..])
  }

  /** The pending groups of a file are exactly its analysis groups. */
  lemma {:induction false} QualifyingMembers(fileName: string, event: Result<string, Error>, groups: seq<Group>)
    ensures forall p :: p in Qualifying(fileName, event, groups) ==>
      p.fileName == fileName && p.event == event && p.group in groups && IsAnalysisKey(p.group.name)
    ensures forall g :: g in groups && IsAnalysisKey(g.name) ==>
      Pending(fileName, event, g) in Qualifying(fileName, event, groups)
    decreases |groups|
  {
    if groups != [] {
      QualifyingMembers(fileName, event, groups[1..]);
      forall g | g in groups && IsAnalysisKey(g.name)
        ensures Pending(fileName, event, g) in Qualifying(fileName, event, groups)
      {
        if g != groups[0] {
          assert g in groups[1..];
        }
      }
    }
  }

  /** The pending groups of a run are exactly the analysis groups of its files. */
  lemma {:induction false} PendingsMembers(files: seq<SourceFile>)
    ensures forall p :: p in Pendings(files) ==>
      && IsAnalysisKey(p.group.name)
      && exists i :: 0 <= i < |files| && files[i].name == p.fileName && p.group in files[i].groups
                     && p.event == EventName(files[i].name)
    ensures forall i, g :: 0 <= i < |files| && g in files[i].groups && IsAnalysisKey(g.name) ==>
      Pending(files[i].name, EventName(files[i].name), g) in Pendings(files)
    decreases |files|
  {
    if files != [] {
      var first := Qualifying(files[0].name, EventName(files[0].name), files[0].groups);
      QualifyingMembers(files[0].name, EventName(files[0].name), files[0].groups);
      PendingsMembers(files[1..]);
      assert Pendings(files) == first + Pendings(files[1..]);
      forall p | p in Pendings(files)
        ensures exists i :: 0 <= i < |files| && files[i].name == p.fileName && p.group in files[i].groups
                            && p.event == EventName(files[i].name)
      {
        if p !in first {
          var i :| 0 <= i < |files[1..]| && files[1..][i].name == p.fileName
                   && p.group in files[1..][i].groups && p.event == EventName(files[1..][i].name);
          assert files[i + 1] == files[1..][i];
        }
      }
      forall i, g | 0 <= i < |files| && g in files[i].groups && IsAnalysisKey(g.name)
        ensures Pending(files[i].name, EventName(files[i].name), g) in Pendings(files)
      {
        if i > 0 {
          assert files[i] == files[1..][i - 1];
        }
      }
    }
  }

  lemma QualifyingSkip(fileName: string, event: Result<string, Error>, groups: seq<Group>, j: nat,
                       later: seq<Pending>)
    requires j < |groups| && !IsAnalysisKey(groups[j].name)
    ensures Qualifying(fileName, event, groups[j..]) + later
         == Qualifying(fileName, event, groups[j + 1..]) + later
  {
    assert groups[j..][1..] == groups[j + 1..];
  }

  lemma QualifyingTake(fileName: string, event: Result<string, Error>, groups: seq<Group>, j: nat,
                       later: seq<Pending>)
    requires j < |groups| && IsAnalysisKey(groups[j].name)
    ensures Qualifying(fileName, event, groups[j..]) + later ==
      [Pending(fileName, event, groups[j])] + (Qualifying(fileName, event, groups[j + 1..]) + later)
  {
    assert groups[j..][1..] == groups[j + 1..];
  }

  lemma PendingsUnfold(files: seq<SourceFile>, i: nat)
    requires i < |files|
    ensures Pendings(files[i..]) ==
      Qualifying(files[i].name, EventName(files[i].name), files[i].groups) + Pendings(files[i + 1..])
  {
    assert files[i..][1..] == files[i + 1..];
  }

  /** Copies one analysis group into `out`; the path must not exist yet. */
  function Insert(out: Contents, p: Pending): Result<Contents, Error>
  {
    match p.event
    case Failure(e) => Failure(e)
    case Success(event) =>
      var path := Path(event, p.group.name);
      if path in out then Failure(DuplicateGroup(event, p.group.name))
      else Success(out[path := Extracted(p.group)])
  }

  /** Copies the groups in order, stopping at the first error. */
  function InsertAll(out: Contents, ps: seq<Pending>): Result<Contents, Error>
    decreases |ps|
  {
    if ps == [] then Success(out)
    else
      match Insert(out, ps[0])
      case Failure(e) => Failure(e)
      case Success(next) => InsertAll(next, ps[1..])
  }

  /** The outcome of one run over `files`, starting from an empty output. */
  function Extract(files: seq<SourceFile>): Result<Contents, Error>
  {
    InsertAll(map[], Pendings(files))
  }

  /** Every pending group's file name yields an event name. */
  predicate Named(ps: seq<Pending>)
  {
    forall k :: 0 <= k < |ps| ==> ps[k].event.Success?
  }

  function PathOf(p: Pending): Path
    requires p.event.Success?
  {
    Path(p.event.value, p.group.name)
  }

  /** The pending groups can all be written into `out`: named, new and pairwise apart. */
  predicate Fits(out: Contents, ps: seq<Pending>)
  {
    && Named(ps)
    && (forall k :: 0 <= k < |ps| ==> PathOf(ps[k]) !in out)
    && (forall a, b :: 0 <= a < b < |ps| ==> PathOf(ps[a]) != PathOf(ps[b]))
  }

  lemma InsertAllCons(out: Contents, p: Pending, rest: seq<Pending>)
    ensures Insert(out, p).Failure? ==> InsertAll(out, [p] + rest) == Failure(Insert(out, p).error)
    ensures Insert(out, p).Success? ==> InsertAll(out, [p] + rest) == InsertAll(Insert(out, p).value, rest)
  {
    assert ([p] + rest)[0] == p;
    assert ([p] + rest)[1..] == rest;
  }

  /** Copying succeeds exactly when every group is named and lands on a fresh, distinct path. */
  lemma {:induction false} InsertAllSucceeds(out: Contents, ps: seq<Pending>)
    ensures InsertAll(out, ps).Success? <==> Fits(out, ps)
    decreases |ps|
  {
    if ps != [] {
      var p, rest := ps[0], ps[1..];
      assert forall k :: 0 < k < |ps| ==> ps[k] == rest[k - 1];
      match p.event
      case Failure(e) =>
        assert !Named(ps);
      case Success(event) =>
        var path := Path(event, p.group.name);
        if path in out {
          assert PathOf(ps[0]) in out;
        } else {
          var next := out[path := Extracted(p.group)];
          InsertAllSucceeds(next, rest);
          if Fits(out, ps) {
            assert Named(rest);
            forall k | 0 <= k < |rest| ensures PathOf(rest[k]) !in next {
              assert rest[k] == ps[k + 1];
              assert PathOf(ps[0]) != PathOf(ps[k + 1]);
            }
            forall a, b | 0 <= a < b < |rest| ensures PathOf(rest[a]) != PathOf(rest[b]) {
              assert rest[a] == ps[a + 1] && rest[b] == ps[b + 1];
            }
          }
          if Fits(next, rest) {
            forall k | 0 <= k < |ps| ensures ps[k].event.Success? {
              if k > 0 { assert ps[k] == rest[k - 1]; }
            }
            assert Named(ps);
            forall k | 0 <= k < |ps| ensures PathOf(ps[k]) !in out {
              if k > 0 { assert ps[k] == rest[k - 1]; }
            }
            forall a, b | 0 <= a < b < |ps| ensures PathOf(ps[a]) != PathOf(ps[b]) {
              assert ps[b] == rest[b - 1];
              if a > 0 { assert ps[a] == rest[a - 1]; }
            }
          }
        }
    }
  }

  /** One step of a fitting copy: the first group lands and the rest still fits. */
  lemma InsertAllStep(out: Contents, ps: seq<Pending>)
    requires Fits(out, ps) && ps != []
    ensures Fits(out[PathOf(ps[0]) := Extracted(ps[0].group)], ps[1..])
    ensures InsertAll(out, ps) == InsertAll(out[PathOf(ps[0]) := Extracted(ps[0].group)], ps[1..])
  {
    var next := out[PathOf(ps[0]) := Extracted(ps[0].group)];
    assert Insert(out, ps[0]) == Success(next);
    InsertAllSucceeds(out, ps);
    InsertAllSucceeds(next, ps[1..]);
  }

  /** A fitting copy adds exactly one output group per analysis group. */
  lemma {:induction false} InsertAllKeys(out: Contents, ps: seq<Pending>)
    requires Fits(out, ps)
    ensures InsertAll(out, ps).Success?
    ensures var r := InsertAll(out, ps).value;
      && (forall path :: path in r <==>
            path in out || exists k :: 0 <= k < |ps| && PathOf(ps[k]) == path)
      && |r| == |out| + |ps|
    decreases |ps|
  {
    if ps != [] {
      var p, rest := ps[0], ps[1..];
      var next := out[PathOf(p) := Extracted(p.group)];
      InsertAllStep(out, ps);
      InsertAllKeys(next, rest);
      var r := InsertAll(out, ps).value;
      forall path
        ensures path in r <==> path in out || exists k :: 0 <= k < |ps| && PathOf(ps[k]) == path
      {
        if path in r && path !in out && path != PathOf(p) {
          var k :| 0 <= k < |rest| && PathOf(rest[k]) == path;
          assert ps[k + 1] == rest[k];
        }
        if exists k :: 0 <= k < |ps| && PathOf(ps[k]) == path {
          var k :| 0 <= k < |ps| && PathOf(ps[k]) == path;
          if k > 0 {
            assert ps[k] == rest[k - 1];
          }
        }
      }
    } else {
      InsertAllSucceeds(out, ps);
    }
  }

  /**
   * A fitting copy keeps every group already in the output and gives each
   * analysis group its desired columns and all of its rows.
   */
  lemma {:induction false} InsertAllValues(out: Contents, ps: seq<Pending>)
    requires Fits(out, ps)
    ensures InsertAll(out, ps).Success?
    ensures var r := InsertAll(out, ps).value;
      && (forall path :: path in out ==> path in r && r[path] == out[path])
      && (forall k :: 0 <= k < |ps| ==> PathOf(ps[k]) in r && r[PathOf(ps[k])] == Extracted(ps[k].group))
    decreases |ps|
  {
    if ps != [] {
      var p, rest := ps[0], ps[1..];
      var next := out[PathOf(p) := Extracted(p.group)];
      InsertAllStep(out, ps);
      InsertAllValues(next, rest);
      var r := InsertAll(out, ps).value;
      forall k | 0 <= k < |ps| ensures PathOf(ps[k]) in r && r[PathOf(ps[k])] == Extracted(ps[k].group) {
        if k > 0 {
          assert ps[k] == rest[k - 1];
        }
      }
    } else {
      InsertAllSucceeds(out, ps);
    }
  }

  /**
   * A run succeeds exactly when every analysis group's file name yields an
   * event name and no two analysis groups share a path.
   */
  lemma ExtractSucceeds(files: seq<SourceFile>)
    ensures Extract(files).Success? <==> Fits(map[], Pendings(files))
  {
    InsertAllSucceeds(map[], Pendings(files));
    PendingsMembers(files);
  }

  /**
   * After a successful run every output group comes from an analysis group:
   * it sits at `event/key` of an analysis group of some file and holds that
   * group's desired columns and all of its rows. A group whose name mentions
   * neither "C01" nor "C00" therefore leaves no trace.
   */
  lemma ExtractOnlyAnalysisGroups(files: seq<SourceFile>)
    requires Extract(files).Success?
    ensures var out := Extract(files).value;
      forall path :: path in out ==> exists i, g ::
        && 0 <= i < |files| && g in files[i].groups && IsAnalysisKey(g.name)
        && EventName(files[i].name) == Success(path.event) && g.name == path.key
        && out[path] == Extracted(g)
  {
    var ps := Pendings(files);
    InsertAllSucceeds(map[], ps);
    InsertAllKeys(map[], ps);
    InsertAllValues(map[], ps);
    PendingsMembers(files);
    var out := Extract(files).value;
    forall path | path in out ensures exists i, g ::
        && 0 <= i < |files| && g in files[i].groups && IsAnalysisKey(g.name)
        && EventName(files[i].name) == Success(path.event) && g.name == path.key
        && out[path] == Extracted(g)
    {
      var k :| 0 <= k < |ps| && PathOf(ps[k]) == path;
      var p := ps[k];
      assert p in ps;
      var i :| 0 <= i < |files| && files[i].name == p.fileName && p.group in files[i].groups
               && p.event == EventName(files[i].name);
      assert out[path] == Extracted(p.group);
    }
  }

  /**
   * After a successful run every analysis group of every file is in the
   * output at `event/key`, holding its desired columns and all of its rows,
   * and the output has exactly one group per analysis group.
   */
  lemma ExtractCoversAnalysisGroups(files: seq<SourceFile>)
    requires Extract(files).Success?
    ensures var out := Extract(files).value;
      && (forall i, g :: 0 <= i < |files| && g in files[i].groups && IsAnalysisKey(g.name) ==>
            && EventName(files[i].name).Success?
            && Path(EventName(files[i].name).value, g.name) in out
            && out[Path(EventName(files[i].name).value, g.name)] == Extracted(g))
      && |out| == |Pendings(files)|
  {
    var ps := Pendings(files);
    InsertAllSucceeds(map[], ps);
    InsertAllKeys(map[], ps);
    InsertAllValues(map[], ps);
    PendingsMembers(files);
    var out := Extract(files).value;
    forall i, g | 0 <= i < |files| && g in files[i].groups && IsAnalysisKey(g.name)
      ensures && EventName(files[i].name).Success?
              && Path(EventName(files[i].name).value, g.name) in out
              && out[Path(EventName(files[i].name).value, g.name)] == Extracted(g)
    {
      var p := Pending(files[i].name, EventName(files[i].name), g);
      assert p in ps;
      var k :| 0 <= k < |ps| && ps[k] == p;
      assert PathOf(ps[k]) == Path(EventName(files[i].name).value, g.name);
    }
  }

  /**
   * Two differently named files whose names yield the same event and that
   * both hold an analysis group with the same name make the run fail.
   */
  lemma DuplicateAborts(files: seq<SourceFile>, i: nat, j: nat, g: Group, h: Group)
    requires i < |files| && j < |files| && files[i].name != files[j].name
    requires g in files[i].groups && h in files[j].groups
    requires g.name == h.name && IsAnalysisKey(g.name)
    requires EventName(files[i].name) == EventName(files[j].name)
    ensures Extract(files).Failure?
  {
    InsertAllSucceeds(map[], Pendings(files));
    PendingsMembers(files);
  }

  /**
   * Why copying `ps` into `out` stops, if it does: group `k` is to blame for
   * error `e` when its file name yields no event name and `e` is that
   * derivation's error, or when its path is already taken, by `out` or by an
   * earlier group, and `e` is the duplicate-group error for that path.
   */
  predicate Blames(out: Contents, ps: seq<Pending>, k: nat, e: Error)
    requires k < |ps|
  {
    match ps[k].event
    case Failure(derivation) => e == derivation
    case Success(event) =>
      && e == DuplicateGroup(event, ps[k].group.name)
      && (|| Path(event, ps[k].group.name) in out
          || exists j :: 0 <= j < k && ps[j].event == Success(event) && ps[j].group.name == ps[k].group.name)
  }

  /** A copy that fails reports an error some group is to blame for. */
  lemma {:induction false} InsertAllFailure(out: Contents, ps: seq<Pending>)
    requires InsertAll(out, ps).Failure?
    ensures exists k :: 0 <= k < |ps| && Blames(out, ps, k, InsertAll(out, ps).error)
    decreases |ps|
  {
    var e := InsertAll(out, ps).error;
    var p, rest := ps[0], ps[1..];
    if Insert(out, p).Failure? {
      assert Blames(out, ps, 0, e);
    } else {
      var next := Insert(out, p).value;
      InsertAllFailure(next, rest);
      var k :| 0 <= k < |rest| && Blames(next, rest, k, e);
      assert rest[k] == ps[k + 1];
      var q := rest[k];
      if q.event.Success? && Path(q.event.value, q.group.name) !in out {
        if Path(q.event.value, q.group.name) in next {
          assert p.event == Success(q.event.value) && p.group.name == q.group.name;
        } else {
          var j :| 0 <= j < k && rest[j].event == q.event && rest[j].group.name == q.group.name;
          assert rest[j] == ps[j + 1];
        }
      }
      assert Blames(out, ps, k + 1, e);
    }
  }

  /** Two pending groups that are both named and land on the same path. */
  predicate SharePath(p: Pending, q: Pending)
  {
    p.event.Success? && p.event == q.event && p.group.name == q.group.name
  }

  /**
   * A run that fails reports either the malformed name of a file that has an
   * analysis group, or the path `event/key` that two analysis groups share.
   */
  lemma ExtractFailureReason(files: seq<SourceFile>)
    requires Extract(files).Failure?
    ensures var e := Extract(files).error;
      || (exists i, g :: 0 <= i < |files| && g in files[i].groups && IsAnalysisKey(g.name)
            && EventName(files[i].name).Failure? && e == MalformedFileName(files[i].name))
      || (exists a, b :: 0 <= a < b < |Pendings(files)| && SharePath(Pendings(files)[a], Pendings(files)[b])
            && e == DuplicateGroup(Pendings(files)[b].event.value, Pendings(files)[b].group.name))
  {
    var ps := Pendings(files);
    var e := Extract(files).error;
    InsertAllFailure(map[], ps);
    var k :| 0 <= k < |ps| && Blames(map[], ps, k, e);
    var p := ps[k];
    if p.event.Failure? {
      assert p in ps;
      PendingsMembers(files);
      var i :| 0 <= i < |files| && files[i].name == p.fileName && p.group in files[i].groups
               && p.event == EventName(files[i].name);
      EventNameOutcome(files[i].name);
      assert e == MalformedFileName(files[i].name);
      assert IsAnalysisKey(p.group.name);
    } else {
      var j :| 0 <= j < k && ps[j].event == p.event && ps[j].group.name == p.group.name;
      assert SharePath(ps[j], ps[k]);
      assert e == DuplicateGroup(ps[k].event.value, ps[k].group.name);
      assert 0 <= j < k < |Pendings(files)| && SharePath(Pendings(files)[j], Pendings(files)[k])
            && e == DuplicateGroup(Pendings(files)[k].event.value, Pendings(files)[k].group.name);
    }
  }

  lemma {:induction false} QualifyingAppend(fileName: string, event: Result<string, Error>,
                                            xs: seq<Group>, ys: seq<Group>)
    ensures Qualifying(fileName, event, xs + ys)
         == Qualifying(fileName, event, xs) + Qualifying(fileName, event, ys)
    decreases |xs|
  {
    if xs == [] {
      assert xs + ys == ys;
    } else {
      var head := if IsAnalysisKey(xs[0].name) then [Pending(fileName, event, xs[0])] else [];
      assert (xs + ys)[0] == xs[0];
      assert (xs + ys)[1..] == xs[1..] + ys;
      QualifyingAppend(fileName, event, xs[1..], ys);
      assert Qualifying(fileName, event, xs + ys) == head + Qualifying(fileName, event, xs[1..] + ys);
      assert head + (Qualifying(fileName, event, xs[1..]) + Qualifying(fileName, event, ys))
          == (head + Qualifying(fileName, event, xs[1..])) + Qualifying(fileName, event, ys);
    }
  }

  lemma {:induction false} PendingsAppend(xs: seq<SourceFile>, ys: seq<SourceFile>)
    ensures Pendings(xs + ys) == Pendings(xs) + Pendings(ys)
    decreases |xs|
  {
    if xs == [] {
      assert xs + ys == ys;
    } else {
      var head := Qualifying(xs[0].name, EventName(xs[0].name), xs[0].groups);
      assert (xs + ys)[0] == xs[0];
      assert (xs + ys)[1..] == xs[1..] + ys;
      PendingsAppend(xs[1..], ys);
      assert Pendings(xs + ys) == head + Pendings(xs[1..] + ys);
      assert head + (Pendings(xs[1..]) + Pendings(ys)) == (head + Pendings(xs[1..])) + Pendings(ys);
    }
  }

  lemma PendingsSingle(f: SourceFile)
    ensures Pendings([f]) == Qualifying(f.name, EventName(f.name), f.groups)
  {
    assert [f][1..] == [];
  }

  /** Adding a group whose name mentions neither "C01" nor "C00" to any file changes nothing. */
  lemma SkippedGroupChangesNothing(
    before: seq<SourceFile>, name: string, gs1: seq<Group>, g: Group, gs2: seq<Group>,
    after: seq<SourceFile>)
    requires !IsAnalysisKey(g.name)
    ensures Extract(before + [SourceFile(name, gs1 + [g] + gs2)] + after)
         == Extract(before + [SourceFile(name, gs1 + gs2)] + after)
  {
    var with, without := SourceFile(name, gs1 + [g] + gs2), SourceFile(name, gs1 + gs2);
    var event := EventName(name);
    assert Qualifying(name, event, [g]) == [] by {
      assert [g][1..] == [];
    }
    QualifyingAppend(name, event, gs1, [g]);
    QualifyingAppend(name, event, gs1 + [g], gs2);
    assert Qualifying(name, event, with.groups) == Qualifying(name, event, without.groups) by {
      QualifyingAppend(name, event, gs1, gs2);
    }
    PendingsSingle(with);
    PendingsSingle(without);
    PendingsAppend(before, [with]);
    PendingsAppend(before + [with], after);
    PendingsAppend(before, [without]);
    PendingsAppend(before + [without], after);
  }

  /** One copy step of a run whose file name yields no event name ends the run with that error. */
  lemma StepMalformed(out: Contents, p: Pending, rest: seq<Pending>, e: Error)
    requires p.event == Failure(e)
    ensures InsertAll(out, [p] + rest) == Failure(e)
  {
    InsertAllCons(out, p, rest);
  }

  /** One copy step onto an existing path ends the run with a duplicate-group error. */
  lemma StepDuplicate(out: Contents, p: Pending, rest: seq<Pending>, event: string)
    requires p.event == Success(event)
    requires Path(event, p.group.name) in out
    ensures InsertAll(out, [p] + rest) == Failure(DuplicateGroup(event, p.group.name))
  {
    InsertAllCons(out, p, rest);
  }

  /** One copy step onto a new path adds the group's extract there and goes on. */
  lemma StepCreate(out: Contents, p: Pending, rest: seq<Pending>, event: string)
    requires p.event == Success(event)
    requires Path(event, p.group.name) !in out
    ensures InsertAll(out, [p] + rest) ==
      InsertAll(out[Path(event, p.group.name) := Extracted(p.group)], rest)
  {
    InsertAllCons(out, p, rest);
  }

  /** The output container: its groups `event/key`, each holding one `skyloc_samples` dataset. */
  class OutputFile {
    var contents: Contents

    /** Opening for writing (mode "w") discards whatever the file held. */
    method Truncate()
      modifies this
      ensures contents == map[]
    {
      contents := map[];
    }

    /**
     * Creates group `event/key` and its dataset; an existing group is never
     * overwritten: the call fails and the file is left as it was.
     */
    method CreateGroup(event: string, key: string, entry: Entry) returns (res: Outcome<Error>)
      modifies this
      ensures res.Pass? <==> Path(event, key) !in old(contents)
      ensures res.Pass? ==> contents == old(contents)[Path(event, key) := entry]
      ensures res.Fail? ==> res.error == DuplicateGroup(event, key) && contents == old(contents)
    {
      if Path(event, key) in contents {
        res := Fail(DuplicateGroup(event, key));
      } else {
        contents := contents[Path(event, key) := entry];
        res := Pass;
      }
    }
  }

  /**
   * Runs the extraction of `files` into `output`. Whatever `output` held
   * before, a run that passes leaves exactly `Extract(files)` in it, and a run
   * that fails reports the first error `Extract(files)` meets.
   */
  method LoopAndExtract(files: seq<SourceFile>, output: OutputFile) returns (res: Outcome<Error>)
    modifies output
    ensures res.Pass? ==> Extract(files) == Success(output.contents)
    ensures res.Fail? ==> Extract(files) == Failure(res.error)
  {
    output.Truncate();
    ghost var goal := Extract(files);
    assert files[0..] == files;
    for i := 0 to |files|
      invariant InsertAll(output.contents, Pendings(files[i..])) == goal
    {
      var file := files[i];
      ghost var named := EventName(file.name);
      ghost var later := Pendings(files[i + 1..]);
      assert Qualifying(file.name, named, file.groups[0..]) + later == Pendings(files[i..]) by {
        PendingsUnfold(files, i);
        assert file.groups[0..] == file.groups;
      }
      for j := 0 to |file.groups|
        invariant InsertAll(output.contents, Qualifying(file.name, named, file.groups[j..]) + later) == goal
      {
        var group := file.groups[j];
        ghost var rest := Qualifying(file.name, named, file.groups[j + 1..]) + later;
        if !IsAnalysisKey(group.name) {
          QualifyingSkip(file.name, named, file.groups, j, later);
          continue;
        }
        ghost var p := Pending(file.name, named, group);
        QualifyingTake(file.name, named, file.groups, j, later);
        match EventName(file.name)
        case Failure(e) =>
          StepMalformed(output.contents, p, rest, e);
          return Fail(e);
        case Success(event) =>
          if Path(event, group.name) in output.contents {
            StepDuplicate(output.contents, p, rest, event);
          } else {
            StepCreate(output.contents, p, rest, event);
          }
          res := output.CreateGroup(event, group.name, Extracted(group));
          if res.Fail? {
            return;
          }
      }
      assert Qualifying(file.name, named, file.groups[|file.groups|..]) + later == later by {
        assert file.groups[|file.groups|..] == [];
      }
    }
    assert files[|files|..] == [];
    res := Pass;
  }
}
