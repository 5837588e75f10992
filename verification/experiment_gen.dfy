/** The last step of setting up an experiment: working out how many processors each
    model section runs on, and partitioning the mesh graph for each count that has no
    partition file yet.

    The experiment directory is represented by the set of file names in it. Running the
    partitioner is an oracle that says whether it succeeded; when it succeeds it leaves
    the partition file `<mesh>.part.<n>` next to the staged mesh.
 */
module ExperimentGen {
  import opened Results
  import opened Text

  // ---------------------------------------------------------------------------
  // processor counts

  /** The `batchargs` of a section: `cores` when given and not null, else `nodes` and
      `tasks_per_node`, which must then be present. */
  datatype Batchargs = Batchargs(cores: Option<int>, nodes: Option<int>, tasksPerNode: Option<int>)

  /** The sections that run on many processors, each with the driver block that holds its
      resources, in the order they are visited. */
  const Sections: seq<(string, string)> :=
    [("create_ics", "mpas_init"), ("create_lbcs", "mpas_init"), ("forecast", "mpas")]

  /** The experiment configuration as far as it matters here: for each section present,
      the `batchargs` under `<driver>.execution`, or `None` when that path is missing. */
  type SectionConfig = map<string, Option<Batchargs>>

  /** The processor count of one section. */
  function Cores(b: Batchargs): Result<int>
  {
    match b.cores
    case Some(n) => Success(n)
    case None =>
      var nodes :- Lookup(b.nodes, "nodes");
      var tasks :- Lookup(b.tasksPerNode, "tasks_per_node");
      Success(nodes * tasks)
  }

  function Lookup(v: Option<int>, key: string): Result<int>
  {
    if v.Some? then Success(v.value) else Failure(KeyError(key))
  }

  /** `x` occurs in `sections` at an earlier position than `y`. */
  predicate Before<T(==)>(sections: seq<T>, x: T, y: T)
  {
    exists a, b :: 0 <= a < b < |sections| && x == sections[a] && y == sections[b]
  }

  /** The sections of `sections` that the configuration has, in order. */
  function Present(sections: seq<(string, string)>, config: SectionConfig): seq<(string, string)>
    decreases |sections|
  {
    if |sections| == 0 then []
    else
      var rest := Present(sections[1..], config);
      if sections[0].0 in config then [sections[0]] + rest else rest
  }

  /** `Present` keeps exactly the sections the configuration has, and keeps them in the
      order they are listed. */
  lemma {:induction false} PresentFilters(sections: seq<(string, string)>, config: SectionConfig)
    ensures var r := Present(sections, config);
            && (forall i :: 0 <= i < |r| ==> r[i] in sections && r[i].0 in config)
            && (forall s :: s in sections && s.0 in config ==> s in r)
            && (forall i, j :: 0 <= i < j < |r| ==> Before(sections, r[i], r[j]))
  {
    PresentMembers(sections, config);
    PresentOrder(sections, config);
  }

  lemma {:induction false} PresentMembers(sections: seq<(string, string)>, config: SectionConfig)
    ensures var r := Present(sections, config);
            && (forall i :: 0 <= i < |r| ==> r[i] in sections && r[i].0 in config)
            && (forall s :: s in sections && s.0 in config ==> s in r)
    decreases |sections|
  {
    if |sections| > 0 {
      var tail := sections[1..];
      PresentMembers(tail, config);
      var rest := Present(tail, config);
      assert forall s :: s in tail ==> s in sections;
      assert forall s :: s in sections ==> s == sections[0] || s in tail;
      if sections[0].0 in config {
        assert Present(sections, config) == [sections[0]] + rest;
      } else {
        assert Present(sections, config) == rest;
      }
    }
  }

  /** Where each kept section stands in the list, counted from 0. */
  function Positions(sections: seq<(string, string)>, config: SectionConfig): seq<nat>
    decreases |sections|
  {
    if |sections| == 0 then []
    else
      var p := Positions(sections[1..], config);
      var shifted := seq(|p|, i requires 0 <= i < |p| => p[i] + 1);
      if sections[0].0 in config then [0] + shifted else shifted
  }

  /** The positions pick out exactly the kept sections and strictly increase. */
  lemma {:induction false} PositionsWitness(sections: seq<(string, string)>, config: SectionConfig)
    ensures var pos, r := Positions(sections, config), Present(sections, config);
            && |pos| == |r|
            && (forall i :: 0 <= i < |pos| ==> pos[i] < |sections| && r[i] == sections[pos[i]])
            && (forall i, j :: 0 <= i < j < |pos| ==> pos[i] < pos[j])
    decreases |sections|
  {
    if |sections| > 0 {
      var tail := sections[1..];
      PositionsWitness(tail, config);
      var p, rest := Positions(tail, config), Present(tail, config);
      var shifted := seq(|p|, i requires 0 <= i < |p| => p[i] + 1);
      if sections[0].0 in config {
        assert Positions(sections, config) == [0] + shifted;
        assert Present(sections, config) == [sections[0]] + rest;
        KeptShift(sections, p, rest);
      } else {
        assert Positions(sections, config) == shifted;
        assert Present(sections, config) == rest;
        SkippedShift(sections, p, rest);
      }
    }
  }

  /** One step of PositionsWitness when the first section is skipped. */
  lemma SkippedShift(sections: seq<(string, string)>, p: seq<nat>, rest: seq<(string, string)>)
    requires |sections| > 0 && |p| == |rest|
    requires forall i :: 0 <= i < |p| ==> p[i] < |sections| - 1 && rest[i] == sections[1..][p[i]]
    requires forall i, j :: 0 <= i < j < |p| ==> p[i] < p[j]
    ensures var pos := seq(|p|, i requires 0 <= i < |p| => p[i] + 1);
            && (forall i :: 0 <= i < |pos| ==> pos[i] < |sections| && rest[i] == sections[pos[i]])
            && (forall i, j :: 0 <= i < j < |pos| ==> pos[i] < pos[j])
  {
  }

  /** One step of PositionsWitness when the first section is kept. */
  lemma KeptShift(sections: seq<(string, string)>, p: seq<nat>, rest: seq<(string, string)>)
    requires |sections| > 0 && |p| == |rest|
    requires forall i :: 0 <= i < |p| ==> p[i] < |sections| - 1 && rest[i] == sections[1..][p[i]]
    requires forall i, j :: 0 <= i < j < |p| ==> p[i] < p[j]
    ensures var pos := [0] + seq(|p|, i requires 0 <= i < |p| => p[i] + 1);
            var r := [sections[0]] + rest;
            && (forall i :: 0 <= i < |pos| ==> pos[i] < |sections| && r[i] == sections[pos[i]])
            && (forall i, j :: 0 <= i < j < |pos| ==> pos[i] < pos[j])
  {
    var shifted := seq(|p|, i requires 0 <= i < |p| => p[i] + 1);
    SkippedShift(sections, p, rest);
    var pos, r := [0] + shifted, [sections[0]] + rest;
    forall i | 0 < i < |pos| ensures pos[i] == shifted[i - 1] && r[i] == rest[i - 1] { }
  }

  lemma {:induction false} PresentOrder(sections: seq<(string, string)>, config: SectionConfig)
    ensures var r := Present(sections, config);
            forall i, j :: 0 <= i < j < |r| ==> Before(sections, r[i], r[j])
  {
    var r := Present(sections, config);
    var pos := Positions(sections, config);
    PositionsWitness(sections, config);
    forall i, j | 0 <= i < j < |r| ensures Before(sections, r[i], r[j]) {
      var a, b := pos[i], pos[j];
      assert 0 <= a < b < |sections| && r[i] == sections[a] && r[j] == sections[b];
    }
  }

  /** The processor counts of the sections present, in section order. */
  function NprocsOver(sections: seq<(string, string)>, config: SectionConfig): (r: Result<seq<int>>)
    decreases |sections|
  {
    if |sections| == 0 then Success([])
    else
      var rest := NprocsOver(sections[1..], config);
      var (sect, driver) := sections[0];
      if sect !in config then rest
      else if config[sect].None? then Failure(KeyError(driver))
      else
        var n :- Cores(config[sect].value);
        var ns :- rest;
        Success([n] + ns)
  }

  /** Each section present contributes one count, in the order of the sections: its
      `cores` when given, else `nodes * tasks_per_node`. Absent sections contribute
      nothing. */
  lemma {:induction false} NprocsPerSection(sections: seq<(string, string)>, config: SectionConfig)
    requires NprocsOver(sections, config).Success?
    ensures var ns := NprocsOver(sections, config).value;
            var present := Present(sections, config);
            |ns| == |present| && forall i :: 0 <= i < |ns| ==> CountOf(config, present[i].0, ns[i])
    decreases |sections|
  {
    if |sections| > 0 {
      NprocsPerSection(sections[1..], config);
      var sect := sections[0].0;
      if sect in config {
        var ns := NprocsOver(sections[1..], config).value;
        var present := Present(sections[1..], config);
        var b := config[sect].value;
        CoresValue(b);
        assert CountOf(config, sect, Cores(b).value);
        assert forall i :: 0 < i <= |ns| ==> ([Cores(b).value] + ns)[i] == ns[i - 1];
        assert forall i :: 0 < i <= |present| ==> ([sections[0]] + present)[i] == present[i - 1];
      }
    }
  }

  /** `n` is the processor count configured for section `sect`: its `cores` when given,
      else `nodes * tasks_per_node`. */
  predicate CountOf(config: SectionConfig, sect: string, n: int)
  {
    && sect in config && config[sect].Some?
    && var b := config[sect].value;
       && !Unresolved(b)
       && n == if b.cores.Some? then b.cores.value else b.nodes.value * b.tasksPerNode.value
  }

  /** One section's count is found exactly when the section is resolved, and it is the
      count `CountOf` names; otherwise it is a `KeyError`. */
  lemma {:induction false} CoresValue(b: Batchargs)
    ensures Cores(b).Success? <==> !Unresolved(b)
    ensures Cores(b).Success? ==>
              Cores(b).value == if b.cores.Some? then b.cores.value
                                else b.nodes.value * b.tasksPerNode.value
    ensures Cores(b).Failure? ==> Cores(b).error.KeyError?
  {
  }

  /** The counts fail exactly when some present section lacks its resources or gives
      neither `cores` nor both `nodes` and `tasks_per_node`. */
  lemma {:induction false} NprocsFailure(sections: seq<(string, string)>, config: SectionConfig)
    ensures NprocsOver(sections, config).Failure? <==>
              exists i :: 0 <= i < |sections| && sections[i].0 in config &&
                (config[sections[i].0].None? || Unresolved(config[sections[i].0].value))
    ensures NprocsOver(sections, config).Failure? ==> NprocsOver(sections, config).error.KeyError?
    decreases |sections|
  {
    if |sections| > 0 {
      NprocsFailure(sections[1..], config);
      assert forall i :: 0 < i < |sections| ==> sections[1..][i - 1] == sections[i];
    }
  }

  /** No `cores`, and `nodes` or `tasks_per_node` missing. */
  predicate Unresolved(b: Batchargs)
  {
    b.cores.None? && (b.nodes.None? || b.tasksPerNode.None?)
  }

  function AllNprocs(config: SectionConfig): Result<seq<int>>
  {
    NprocsOver(Sections, config)
  }

  // ---------------------------------------------------------------------------
  // partitions

  /** The staged mesh graph of a mesh label. */
  function MeshFileName(meshLabel: string): string
  {
    meshLabel + ".graph.info"
  }

  /** The partition file of the mesh for `n` processors. */
  function PartFileName(mesh: string, n: int): string
  {
    mesh + ".part." + IntText(n)
  }

  /** Different counts have different partition files. */
  lemma {:induction false} PartFileNameInjective(mesh: string, a: int, b: int)
    requires PartFileName(mesh, a) == PartFileName(mesh, b)
    ensures a == b
  {
    var p := mesh + ".part.";
    assert PartFileName(mesh, a)[|p|..] == IntText(a) + "";
    assert PartFileName(mesh, b)[|p|..] == IntText(b) + "";
    ScanIntText(a, "");
    ScanIntText(b, "");
  }

  /** The counts the partitioner is run for, in order, given the files already in the
      experiment directory: each count whose partition file is missing when its turn
      comes. A failed run ends the program with status 1. */
  function Partition(nprocs: seq<int>, existing: set<string>, mesh: string, runs: int -> bool): (r: Result<seq<int>>)
    ensures r.Failure? ==> r.error == Exit(1, "gpmetis failed")
    ensures r.Success? ==> forall i :: 0 <= i < |r.value| ==>
              r.value[i] in nprocs && PartFileName(mesh, r.value[i]) !in existing
    decreases |nprocs|
  {
    if |nprocs| == 0 then Success([])
    else
      var n := nprocs[0];
      var part := PartFileName(mesh, n);
      assert forall m :: m in nprocs[1..] ==> m in nprocs;
      if part in existing then Partition(nprocs[1..], existing, mesh, runs)
      else if !runs(n) then Failure(Exit(1, "gpmetis failed"))
      else
        var rest :- Partition(nprocs[1..], existing + {part}, mesh, runs);
        Success([n] + rest)
  }

  /** The pass ends with status 1 exactly when some count has no partition file and its
      run fails: the first such count is the one whose turn comes with its file still
      missing, since a run for the same count earlier would have failed as well. */
  lemma {:induction false} PartitionFails(nprocs: seq<int>, existing: set<string>, mesh: string, runs: int -> bool)
    ensures Partition(nprocs, existing, mesh, runs).Failure? <==>
              exists n :: n in nprocs && !runs(n) && PartFileName(mesh, n) !in existing
    decreases |nprocs|
  {
    if |nprocs| > 0 {
      var n := nprocs[0];
      var part := PartFileName(mesh, n);
      var tail := nprocs[1..];
      assert forall m :: m in nprocs <==> m == n || m in tail;
      if part in existing {
        PartitionFails(tail, existing, mesh, runs);
      } else if runs(n) {
        PartitionFails(tail, existing + {part}, mesh, runs);
        forall m | PartFileName(mesh, m) == part ensures m == n {
          PartFileNameInjective(mesh, m, n);
        }
      }
    }
  }

  predicate NoRepeats(s: seq<int>)
  {
    forall i, j :: 0 <= i < j < |s| ==> s[i] != s[j]
  }

  /** When every run succeeds, the partitioner runs once for each count whose file is
      missing, however many sections share it, and never for a count whose file
      exists. */
  lemma {:induction false} PartitionOnlyMissing(nprocs: seq<int>, existing: set<string>, mesh: string, runs: int -> bool)
    requires forall n :: n in nprocs ==> runs(n)
    ensures Partition(nprocs, existing, mesh, runs).Success?
    ensures var r := Partition(nprocs, existing, mesh, runs).value;
            && NoRepeats(r)
            && forall n :: n in r <==> n in nprocs && PartFileName(mesh, n) !in existing
    decreases |nprocs|
  {
    if |nprocs| > 0 {
      var n := nprocs[0];
      var part := PartFileName(mesh, n);
      assert forall m :: m in nprocs[1..] ==> m in nprocs;
      if part in existing {
        PartitionOnlyMissing(nprocs[1..], existing, mesh, runs);
        assert forall m :: m in nprocs ==> m == n || m in nprocs[1..];
      } else {
        PartitionOnlyMissing(nprocs[1..], existing + {part}, mesh, runs);
        var rest := Partition(nprocs[1..], existing + {part}, mesh, runs).value;
        assert Partition(nprocs, existing, mesh, runs).value == [n] + rest;
        assert n !in rest;
        OnlyMissingStep(nprocs, existing, mesh, rest);
      }
    }
  }

  lemma {:induction false} OnlyMissingStep(nprocs: seq<int>, existing: set<string>, mesh: string, rest: seq<int>)
    requires |nprocs| > 0 && PartFileName(mesh, nprocs[0]) !in existing
    requires forall m :: m in rest <==>
               m in nprocs[1..] && PartFileName(mesh, m) !in existing + {PartFileName(mesh, nprocs[0])}
    ensures forall m :: m in [nprocs[0]] + rest <==> m in nprocs && PartFileName(mesh, m) !in existing
  {
    var n := nprocs[0];
    forall m | PartFileName(mesh, m) == PartFileName(mesh, n) ensures m == n {
      PartFileNameInjective(mesh, m, n);
    }
    assert forall m :: m in nprocs ==> m == n || m in nprocs[1..];
  }

  /** After a successful pass every count has its partition file: it was there before,
      or a run of the pass made it. */
  lemma {:induction false} PartitionCompletes(nprocs: seq<int>, existing: set<string>, mesh: string, runs: int -> bool)
    requires Partition(nprocs, existing, mesh, runs).Success?
    ensures forall n :: n in nprocs ==>
              PartFileName(mesh, n) in existing || n in Partition(nprocs, existing, mesh, runs).value
    decreases |nprocs|
  {
    if |nprocs| > 0 {
      var n := nprocs[0];
      var part := PartFileName(mesh, n);
      assert forall m :: m in nprocs ==> m == n || m in nprocs[1..];
      if part in existing {
        PartitionCompletes(nprocs[1..], existing, mesh, runs);
      } else {
        PartitionCompletes(nprocs[1..], existing + {part}, mesh, runs);
        forall m | PartFileName(mesh, m) == part ensures m == n {
          PartFileNameInjective(mesh, m, n);
        }
      }
    }
  }
}
