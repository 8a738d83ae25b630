/**
Whole runs of startup: any number of starts with any arguments, cut off by crashes at any point.
*/
module RecoveryRuns {
  import opened Recovery

  predicate Legal(y: System, acts: seq<Action>, summary: Data -> int)
    decreases |acts|
  {
    acts != [] ==> Enabled(y, acts[0]) && Legal(Next(y, acts[0], summary), acts[1..], summary)
  }

  function After(y: System, acts: seq<Action>, summary: Data -> int): System
    requires Legal(y, acts, summary)
    decreases |acts|
  {
    if acts == [] then y else After(Next(y, acts[0], summary), acts[1..], summary)
  }

  /** A machine as it was before anything went wrong. */
  predicate Clean(y: System) {
    y.pc.Off? && !y.disk.reindexing && !Partial(y.disk.level) && !Partial(y.disk.rocks)
    && (y.disk.rocks.Dir? ==> !y.disk.rocks.truncated)
  }

  // ---------------------------------------------------------------- migration

  lemma {:induction false} MigrationRun(y: System, acts: seq<Action>, summary: Data -> int)
    requires MigrationOk(y) && Legal(y, acts, summary)
    ensures MigrationOk(After(y, acts, summary))
    decreases |acts|
  {
    if acts != [] {
      MigrationKeeps(y, acts[0], summary);
      MigrationRun(Next(y, acts[0], summary), acts[1..], summary);
    }
  }

  /** In any run, a step after which a RocksDB directory stands without the migration marker it had before
      leaves the source alone, and the directory equal to it if and only if the two version records agree; they
      do when the source is of the version asked for. */
  lemma UnmarkedIsComplete(y: System, acts: seq<Action>, a: Action, summary: Data -> int)
    requires Clean(y) && Legal(y, acts, summary) && Enabled(After(y, acts, summary), a)
    requires Crashed(After(y, acts, summary).disk)
    requires
      var rocks := Next(After(y, acts, summary), a, summary).disk.rocks;
      rocks.Dir? && !rocks.migrating
    ensures
      var z := After(y, acts, summary);
      var d := Next(z, a, summary).disk;
      && d.level.Dir? && d.level == z.disk.level && !d.rocks.truncated
      && (d.rocks.data == d.level.data <==> SameVersion(d.rocks.data, d.level.data))
      && (VERSION in d.level.data && d.level.data[VERSION] == DATABASE_VERSION ==> d.rocks.data == d.level.data)
  {
    MigrationRun(y, acts, summary);
    MarkerStep(After(y, acts, summary), a, summary);
  }

  lemma MarkerStep(z: System, a: Action, summary: Data -> int)
    requires MigrationOk(z) && Enabled(z, a) && Crashed(z.disk)
    requires Next(z, a, summary).disk.rocks.Dir? && !Next(z, a, summary).disk.rocks.migrating
    ensures z.pc.Unmark? && Next(z, a, summary).pc.Check?
    ensures
      var d := Next(z, a, summary).disk;
      && d.level.Dir? && d.level == z.disk.level && !d.rocks.truncated
      && (d.rocks.data == d.level.data <==> SameVersion(d.rocks.data, d.level.data))
      && (VERSION in d.level.data && d.level.data[VERSION] == DATABASE_VERSION ==> d.rocks.data == d.level.data)
  {
    if a.Go? && z.pc.Copy? {
      CopyStaysMarked(z, a.choice, summary);
    } else if a.Go? && z.pc.Unmark? {
      CopyIsWhole(z.disk.rocks.data, z.disk.level.data);
    }
  }

  lemma CopyStaysMarked(z: System, c: Choice, summary: Data -> int)
    requires z.pc.Copy? && Enabled(z, Go(c)) && Crashed(z.disk)
    ensures Crashed(Advance(z, c, summary).disk)
  {
  }

  /** A start with RocksDB leaves the LevelDB directory alone at every step, but for one: opening a source of
      an older version empties it. */
  lemma SourceStays(y: System, a: Action, summary: Data -> int)
    requires Enabled(y, a) && y.args.backend.Rocks?
    ensures Next(y, a, summary).disk.level == y.disk.level
       <==> !(a.Go? && y.pc.Create? && y.disk.level.Dir? && Outdated(y.disk.level.data))
  {
    if a.Go? && y.pc.Copy? {
      CopyKeepsSource(y, a.choice, summary);
    }
  }

  lemma CopyKeepsSource(y: System, c: Choice, summary: Data -> int)
    requires y.pc.Copy? && Enabled(y, Go(c))
    ensures Advance(y, c, summary).disk.level == y.disk.level
  {
  }

  // ---------------------------------------------------------------- one backend

  /** For runs that keep to one backend: only its own directory matters. */
  predicate FixedOk(y: System, b: Backend) {
    && (Partial(Chain(y.disk, b)) ==> y.disk.reindexing)
    && (b.Rocks? ==> !Partial(y.disk.level))
    && (!y.pc.Off? ==> y.args.backend == b)
    && (y.pc.Wipe? || y.pc.Import? || y.pc.Finish? ==> y.disk.reindexing)
    && (y.pc.Finish? ==> !Partial(Chain(y.disk, b)))
    && (y.pc.Load? ==> !y.disk.reindexing)
  }

  predicate KeepsTo(a: Action, b: Backend) { a.Power? ==> a.args.backend == b }

  lemma FixedKeeps(y: System, a: Action, b: Backend, summary: Data -> int)
    requires FixedOk(y, b) && Enabled(y, a) && KeepsTo(a, b)
    ensures FixedOk(Next(y, a, summary), b)
  {
    if a.Go? {
      if y.pc.Copy? {
        FixedKeepsCopy(y, a.choice, b, summary);
      } else if y.pc.Wipe? || y.pc.Import? || y.pc.Finish? {
        FixedKeepsReindex(y, a.choice, b, summary);
      }
    }
  }

  lemma FixedKeepsReindex(y: System, c: Choice, b: Backend, summary: Data -> int)
    requires FixedOk(y, b) && (y.pc.Wipe? || y.pc.Import? || y.pc.Finish?)
    ensures FixedOk(Advance(y, c, summary), b)
  {
  }

  lemma FixedKeepsCopy(y: System, c: Choice, b: Backend, summary: Data -> int)
    requires FixedOk(y, b) && y.pc.Copy? && Enabled(y, Go(c))
    ensures FixedOk(Advance(y, c, summary), b)
  {
  }

  lemma {:induction false} FixedRun(y: System, acts: seq<Action>, b: Backend, summary: Data -> int)
    requires FixedOk(y, b) && MigrationOk(y) && Legal(y, acts, summary)
    requires forall i :: 0 <= i < |acts| ==> KeepsTo(acts[i], b)
    ensures FixedOk(After(y, acts, summary), b) && MigrationOk(After(y, acts, summary))
    decreases |acts|
  {
    if acts != [] {
      FixedKeeps(y, acts[0], b, summary);
      MigrationKeeps(y, acts[0], summary);
      FixedRun(Next(y, acts[0], summary), acts[1..], b, summary);
    }
  }

  /** Over any number of startups and crashes with one backend, normal loading never meets a database that a
      reindex or a migration has left unfinished. */
  lemma OneBackendIsSafe(y: System, acts: seq<Action>, b: Backend, summary: Data -> int)
    requires Clean(y) && Legal(y, acts, summary) && forall i :: 0 <= i < |acts| ==> KeepsTo(acts[i], b)
    ensures
      var z := After(y, acts, summary);
      z.pc.Load? ==>
        && !z.disk.reindexing && !Partial(Chain(z.disk, b))
        && (b.Rocks? && z.disk.rocks.Dir? ==> !z.disk.rocks.truncated && !z.disk.rocks.migrating)
  {
    FixedRun(y, acts, b, summary);
  }

  // ---------------------------------------------------------------- both backends

  /** A start that meets the reindex marker keeps to the backend of the start before it, and does not ask to
      migrate the LevelDB directory it is about to rebuild. */
  predicate Careful(y: System, a: Action) {
    a.Power? && y.disk.reindexing ==>
      a.args.backend == y.args.backend && (a.args.backend.Level? ==> !a.args.migrate && !a.args.force)
  }

  predicate CarefulRun(y: System, acts: seq<Action>, summary: Data -> int)
    requires Legal(y, acts, summary)
    decreases |acts|
  {
    acts != [] ==> Careful(y, acts[0]) && CarefulRun(Next(y, acts[0], summary), acts[1..], summary)
  }

  /** A directory left over from a reindex that a start with its backend would open. */
  predicate Exposed(d: Disk, b: Backend) {
    Partial(Chain(d, b)) && (b.Rocks? ==> !d.rocks.migrating)
  }

  /** Where the marker stands and what each stage of startup may rely on, in every run. */
  predicate StagesOk(y: System) {
    && (y.pc.Wipe? || y.pc.Import? || y.pc.Finish? ==> y.disk.reindexing)
    && (y.pc.Finish? ==> !Partial(Chain(y.disk, y.args.backend)))
    && (y.pc.Load? ==> !y.disk.reindexing)
  }

  /** Only the backend whose reindex is marked may be left exposed, and it is never what a migration reads. */
  predicate CarefulOk(y: System) {
    && (Exposed(y.disk, Level) ==> y.disk.reindexing && y.args.backend.Level?)
    && (Exposed(y.disk, Rocks) ==> y.disk.reindexing && y.args.backend.Rocks?)
    && (y.pc.Boot? && y.disk.reindexing && y.args.backend.Level? ==> !y.args.migrate && !y.args.force)
    && (y.pc.Clear? || y.pc.Create? || y.pc.Copy? || y.pc.Verify? || y.pc.Unmark? ==> !Partial(y.disk.level))
    && (y.pc.Copy? || y.pc.Verify? || y.pc.Unmark? ==> !Partial(y.disk.rocks))
  }

  lemma StagesKeep(y: System, a: Action, summary: Data -> int)
    requires StagesOk(y) && Enabled(y, a)
    ensures StagesOk(Next(y, a, summary))
  {
  }

  lemma {:induction false} StagesRun(y: System, acts: seq<Action>, summary: Data -> int)
    requires StagesOk(y) && Legal(y, acts, summary)
    ensures StagesOk(After(y, acts, summary))
    decreases |acts|
  {
    if acts != [] {
      StagesKeep(y, acts[0], summary);
      StagesRun(Next(y, acts[0], summary), acts[1..], summary);
    }
  }

  lemma CarefulKeeps(y: System, a: Action, summary: Data -> int)
    requires CarefulOk(y) && StagesOk(y) && MigrationOk(y) && Enabled(y, a) && Careful(y, a)
    ensures CarefulOk(Next(y, a, summary))
  {
    if a.Go? && y.pc.Copy? {
      CarefulKeepsCopy(y, a.choice, summary);
    }
  }

  lemma CarefulKeepsCopy(y: System, c: Choice, summary: Data -> int)
    requires CarefulOk(y) && y.pc.Copy? && Enabled(y, Go(c))
    ensures CarefulOk(Advance(y, c, summary))
  {
  }

  lemma {:induction false} CarefulRunKeeps(y: System, acts: seq<Action>, summary: Data -> int)
    requires CarefulOk(y) && StagesOk(y) && MigrationOk(y) && Legal(y, acts, summary) && CarefulRun(y, acts, summary)
    ensures CarefulOk(After(y, acts, summary)) && StagesOk(After(y, acts, summary)) && MigrationOk(After(y, acts, summary))
    decreases |acts|
  {
    if acts != [] {
      CarefulKeeps(y, acts[0], summary);
      StagesKeep(y, acts[0], summary);
      MigrationKeeps(y, acts[0], summary);
      CarefulRunKeeps(Next(y, acts[0], summary), acts[1..], summary);
    }
  }

  /** Normal loading of a database that a reindex has left half rebuilt. */
  predicate LoadsPartial(y: System) { y.pc.Load? && Partial(Chain(y.disk, y.args.backend)) }

  /** Backends may be switched and databases migrated at will while there is no reindex marker: normal loading
      never meets a database that a reindex or a migration left unfinished. */
  lemma CarefulIsSafe(y: System, acts: seq<Action>, summary: Data -> int)
    requires Clean(y) && Legal(y, acts, summary) && CarefulRun(y, acts, summary)
    ensures !LoadsPartial(After(y, acts, summary))
    ensures
      var z := After(y, acts, summary);
      z.pc.Load? && z.args.backend.Rocks? && z.disk.rocks.Dir? ==> !z.disk.rocks.truncated && !z.disk.rocks.migrating
  {
    CarefulRunKeeps(y, acts, summary);
  }

  /** A run without a careless start that ends in loading a half-rebuilt database. */
  predicate Harms(y: System, acts: seq<Action>, summary: Data -> int) {
    Legal(y, acts, summary) && CarefulRun(y, acts, summary) && LoadsPartial(After(y, acts, summary))
  }

  /** After any run, careless or not: once a reindex has removed the marker, some run that is careful from
      then on loads a half-rebuilt database if and only if the other backend's directory is exposed. */
  lemma {:induction false} MarkerRemoval(y: System, acts: seq<Action>, a: Action, summary: Data -> int)
    requires Clean(y) && Legal(y, acts, summary)
    requires Enabled(After(y, acts, summary), a) && Ends(After(y, acts, summary), a)
    ensures
      var z := Next(After(y, acts, summary), a, summary);
      (exists more :: Harms(z, more, summary)) <==> Exposed(z.disk, Other(z.args.backend))
  {
    var f := After(y, acts, summary);
    MigrationRun(y, acts, summary);
    StagesRun(y, acts, summary);
    var z := Next(f, a, summary);
    MigrationKeeps(f, a, summary);
    if Exposed(z.disk, Other(z.args.backend)) {
      ExposedHarms(z, Other(z.args.backend), summary);
    } else {
      assert CarefulOk(z);
      forall more ensures !Harms(z, more, summary) {
        if Legal(z, more, summary) && CarefulRun(z, more, summary) {
          CarefulRunKeeps(z, more, summary);
        }
      }
    }
  }

  lemma {:induction false} ExposedHarms(z: System, b: Backend, summary: Data -> int)
    requires !z.disk.reindexing && Exposed(z.disk, b)
    ensures exists more :: Harms(z, more, summary)
  {
    var a := Args(b, false, false, false);
    var d := z.disk;
    HarmsNow(System(d, Load, a), summary);
    HarmsStep(System(d, Reindex, a), STEP, System(d, Load, a), [], summary);
    HarmsStep(System(d, Check, a), STEP, System(d, Reindex, a), [STEP] + [], summary);
    HarmsStep(System(d, Boot, a), STEP, System(d, Check, a), [STEP] + ([STEP] + []), summary);
    HarmsStep(z.(pc := Off), Power(a), System(d, Boot, a), [STEP] + ([STEP] + ([STEP] + [])), summary);
    HarmsStep(z, Crash, z.(pc := Off), [Power(a)] + ([STEP] + ([STEP] + ([STEP] + []))), summary);
  }

  lemma HarmsNow(y: System, summary: Data -> int)
    requires LoadsPartial(y)
    ensures Harms(y, [], summary)
  {
  }

  lemma HarmsStep(y: System, a: Action, x: System, rest: seq<Action>, summary: Data -> int)
    requires Enabled(y, a) && Careful(y, a) && Next(y, a, summary) == x && Harms(x, rest, summary)
    ensures Harms(y, [a] + rest, summary)
  {
    Prepend(y, a, rest, summary);
    assert ([a] + rest)[1..] == rest;
  }

  // ---------------------------------------------------------------- a run that switches backends

  lemma Prepend(y: System, a: Action, rest: seq<Action>, summary: Data -> int)
    requires Enabled(y, a) && Legal(Next(y, a, summary), rest, summary)
    ensures Legal(y, [a] + rest, summary) && After(y, [a] + rest, summary) == After(Next(y, a, summary), rest, summary)
  {
    assert ([a] + rest)[1..] == rest;
  }

  const STEP := Go(Choice(0, false, {}, true, true, map[]))
  const HALF := Go(Choice(0, false, {}, false, false, map[]))

  /** A reindex of LevelDB is cut off, one of RocksDB then completes and removes the only marker, and the next
      start with LevelDB loads what the first one left. */
  lemma {:induction false} SwitchingBackendsLoadsPartial(summary: Data -> int) returns (broken: System, done: System, z: System)
    ensures
      var dir := Dir(map[1 := 1], false, false, false);
      var y := System(Disk(dir, dir, false, true), Off, Args(Level, false, false, false));
      && Clean(y)
      && Reaches(y, [Power(Args(Level, true, false, false)), STEP, STEP, STEP, STEP, HALF, Crash], broken, summary)
      && Partial(broken.disk.level) && broken.disk.reindexing
      && Reaches(broken, [Power(Args(Rocks, true, false, false)), STEP, STEP, STEP, STEP, STEP, STEP, Crash], done, summary)
      && Reaches(done, [Power(Args(Level, false, false, false)), STEP, STEP, STEP], z, summary)
      && z.pc.Load? && Partial(Chain(z.disk, z.args.backend))
  {
    var dir := Dir(map[1 := 1], false, false, false);
    var y := System(Disk(dir, dir, false, true), Off, Args(Level, false, false, false));
    var part := Dir(map[], false, true, false);
    broken := System(Disk(part, dir, true, true), Off, Args(Level, true, false, false));
    CutOff(y, summary);
    done := System(Disk(part, Dir(map[], false, false, false), false, true), Off, Args(Rocks, true, false, false));
    Completes(broken, summary);
    z := System(done.disk, Load, Args(Level, false, false, false));
    Loads(done, summary);
  }

  predicate Reaches(y: System, acts: seq<Action>, z: System, summary: Data -> int) {
    Legal(y, acts, summary) && After(y, acts, summary) == z
  }

  lemma ReachesStep(y: System, a: Action, x: System, rest: seq<Action>, z: System, summary: Data -> int)
    requires Enabled(y, a) && Next(y, a, summary) == x && Reaches(x, rest, z, summary)
    ensures Reaches(y, [a] + rest, z, summary)
  {
    Prepend(y, a, rest, summary);
  }

  lemma CutOff(y: System, summary: Data -> int)
    requires y.pc.Off? && y.disk.level.Dir? && y.disk.rocks.Dir? && !y.disk.rocks.migrating && !y.disk.reindexing && y.disk.blocks
    ensures Reaches(y, [Power(Args(Level, true, false, false)), STEP, STEP, STEP, STEP, HALF, Crash],
                    System(Disk(Dir(map[], false, true, false), y.disk.rocks, true, true), Off, Args(Level, true, false, false)),
                    summary)
  {
    var a := Args(Level, true, false, false);
    var d := y.disk;
    var m := d.(reindexing := true);
    var w := m.(level := Missing);
    var p := m.(level := Dir(map[], false, true, false));
    var z := System(p, Off, a);
    assert Reaches(z, [], z, summary);
    ReachesStep(System(p, Import, a), Crash, z, [], z, summary);
    ReachesStep(System(w, Import, a), HALF, System(p, Import, a), [Crash] + [], z, summary);
    ReachesStep(System(m, Wipe, a), STEP, System(w, Import, a), [HALF] + ([Crash] + []), z, summary);
    ReachesStep(System(d, Reindex, a), STEP, System(m, Wipe, a), [STEP] + ([HALF] + ([Crash] + [])), z, summary);
    ReachesStep(System(d, Check, a), STEP, System(d, Reindex, a), [STEP] + ([STEP] + ([HALF] + ([Crash] + []))), z, summary);
    ReachesStep(System(d, Boot, a), STEP, System(d, Check, a), [STEP] + ([STEP] + ([STEP] + ([HALF] + ([Crash] + [])))), z, summary);
    ReachesStep(y, Power(a), System(d, Boot, a), [STEP] + ([STEP] + ([STEP] + ([STEP] + ([HALF] + ([Crash] + []))))), z, summary);
    assert [Power(a)] + ([STEP] + ([STEP] + ([STEP] + ([STEP] + ([HALF] + ([Crash] + []))))))
        == [Power(a), STEP, STEP, STEP, STEP, HALF, Crash];
  }

  lemma Completes(y: System, summary: Data -> int)
    requires y.pc.Off? && y.disk.level.Dir? && y.disk.rocks.Dir? && !y.disk.rocks.migrating && y.disk.reindexing && y.disk.blocks
    ensures Reaches(y, [Power(Args(Rocks, true, false, false)), STEP, STEP, STEP, STEP, STEP, STEP, Crash],
                    System(Disk(y.disk.level, Dir(map[], false, false, false), false, true), Off, Args(Rocks, true, false, false)),
                    summary)
  {
    var a := Args(Rocks, true, false, false);
    var d := y.disk;
    var w := d.(rocks := Missing);
    var f := d.(rocks := Dir(map[], false, false, false));
    var z := System(f.(reindexing := false), Off, a);
    assert Reaches(z, [], z, summary);
    ReachesStep(System(z.disk, Up, a), Crash, z, [], z, summary);
    ReachesStep(System(f, Finish, a), STEP, System(z.disk, Up, a), [Crash] + [], z, summary);
    ReachesStep(System(w, Import, a), STEP, System(f, Finish, a), [STEP] + ([Crash] + []), z, summary);
    ReachesStep(System(d, Wipe, a), STEP, System(w, Import, a), [STEP] + ([STEP] + ([Crash] + [])), z, summary);
    ReachesStep(System(d, Reindex, a), STEP, System(d, Wipe, a), [STEP] + ([STEP] + ([STEP] + ([Crash] + []))), z, summary);
    ReachesStep(System(d, Check, a), STEP, System(d, Reindex, a), [STEP] + ([STEP] + ([STEP] + ([STEP] + ([Crash] + [])))), z, summary);
    ReachesStep(System(d, Boot, a), STEP, System(d, Check, a), [STEP] + ([STEP] + ([STEP] + ([STEP] + ([STEP] + ([Crash] + []))))), z, summary);
    ReachesStep(y, Power(a), System(d, Boot, a), [STEP] + ([STEP] + ([STEP] + ([STEP] + ([STEP] + ([STEP] + ([Crash] + [])))))), z, summary);
    assert [Power(a)] + ([STEP] + ([STEP] + ([STEP] + ([STEP] + ([STEP] + ([STEP] + ([Crash] + [])))))))
        == [Power(a), STEP, STEP, STEP, STEP, STEP, STEP, Crash];
  }

  lemma Loads(y: System, summary: Data -> int)
    requires y.pc.Off? && y.disk.level.Dir? && y.disk.rocks.Dir? && !y.disk.rocks.migrating && !y.disk.reindexing
    ensures Reaches(y, [Power(Args(Level, false, false, false)), STEP, STEP, STEP],
                    System(y.disk, Load, Args(Level, false, false, false)), summary)
  {
    var a := Args(Level, false, false, false);
    var d := y.disk;
    var z := System(d, Load, a);
    assert Reaches(z, [], z, summary);
    ReachesStep(System(d, Reindex, a), STEP, z, [], z, summary);
    ReachesStep(System(d, Check, a), STEP, System(d, Reindex, a), [STEP] + [], z, summary);
    ReachesStep(System(d, Boot, a), STEP, System(d, Check, a), [STEP] + ([STEP] + []), z, summary);
    ReachesStep(y, Power(a), System(d, Boot, a), [STEP] + ([STEP] + ([STEP] + [])), z, summary);
    assert [Power(a)] + ([STEP] + ([STEP] + ([STEP] + []))) == [Power(a), STEP, STEP, STEP];
  }

  // ---------------------------------------------------------------- runs that migrate

  const ONE := Go(Choice(1, false, {}, true, true, map[]))

  /** A batch is committed, and the records of `lost` do not get there. */
  function Commit(lost: set<int>): Action { Go(Choice(0, true, lost, true, true, map[])) }

  const MIGRATE := Args(Rocks, false, false, false)

  predicate BeforeMigration(y: System, source: Data) {
    y == System(Disk(Dir(source, false, false, false), Missing, false, true), Off, MIGRATE)
  }

  /** A start with RocksDB and a LevelDB directory alone, up to the copy. */
  lemma {:induction false} MigrationStarts(y: System, source: Data, rest: seq<Action>, z: System, summary: Data -> int)
    requires BeforeMigration(y, source) && source != map[]
    requires
      var data := Kept(source);
      var d := Disk(Dir(data, false, false, false), Dir(FRESH, true, false, true), false, true);
      Reaches(System(d, Copy(data.Keys, map[]), MIGRATE), rest, z, summary)
    ensures Reaches(y, [Power(MIGRATE)] + ([STEP] + ([STEP] + ([STEP] + rest))), z, summary)
  {
    var data := Kept(source);
    var d := Disk(Dir(data, false, false, false), Dir(FRESH, true, false, true), false, true);
    assert VERSION in FRESH && data != map[];
    ReachesStep(System(y.disk, Create, MIGRATE), STEP, System(d, Copy(data.Keys, map[]), MIGRATE), rest, z, summary);
    ReachesStep(System(y.disk, Clear, MIGRATE), STEP, System(y.disk, Create, MIGRATE), [STEP] + rest, z, summary);
    ReachesStep(System(y.disk, Boot, MIGRATE), STEP, System(y.disk, Clear, MIGRATE), [STEP] + ([STEP] + rest), z, summary);
    ReachesStep(y, Power(MIGRATE), System(y.disk, Boot, MIGRATE), [STEP] + ([STEP] + ([STEP] + rest)), z, summary);
  }

  /** The copy `data` of the source has been committed: verified, unmarked and loaded. */
  lemma {:induction false} MigrationEnds(d: Disk, z: System, summary: Data -> int)
    requires d.level.Dir? && d.rocks.Dir? && d.rocks.migrating && !d.reindexing
    requires StatsMatch(d.level.data, d.rocks.data, summary)
    requires z == System(d.(rocks := d.rocks.(truncated := false, migrating := false)), Load, MIGRATE)
    ensures Reaches(System(d, Verify, MIGRATE), [STEP] + ([STEP] + ([STEP] + ([STEP] + []))), z, summary)
  {
    var u := d.(rocks := d.rocks.(truncated := false));
    assert Reaches(z, [], z, summary);
    ReachesStep(System(z.disk, Reindex, MIGRATE), STEP, z, [], z, summary);
    ReachesStep(System(z.disk, Check, MIGRATE), STEP, System(z.disk, Reindex, MIGRATE), [STEP] + [], z, summary);
    ReachesStep(System(u, Unmark, MIGRATE), STEP, System(z.disk, Check, MIGRATE), [STEP] + ([STEP] + []), z, summary);
    ReachesStep(System(d, Verify, MIGRATE), STEP, System(u, Unmark, MIGRATE), [STEP] + ([STEP] + ([STEP] + [])), z, summary);
  }

  /** Two records are read and committed, but for those that are lost. */
  lemma {:induction false} TwoCopied(d: Disk, data: Data, lost: set<int>, e: Disk, rest: seq<Action>, z: System,
                                     summary: Data -> int)
    requires d.level.Dir? && d.level.data == data && data.Keys == {VERSION, 1} && d.rocks.Dir? && d.rocks.data == FRESH
    requires e == d.(rocks := d.rocks.(data := FRESH + (data - lost)))
    requires Reaches(System(e, Verify, MIGRATE), rest, z, summary)
    ensures Reaches(System(d, Copy(data.Keys, map[]), MIGRATE), [STEP] + ([ONE] + ([Commit(lost)] + rest)), z, summary)
  {
    var read := map[VERSION := data[VERSION]];
    assert read[1 := data[1]] == data;
    assert {VERSION, 1} - {VERSION} == {1} && {1} - {1} == {};
    ReachesStep(System(d, Copy({}, data), MIGRATE), Commit(lost), System(e, Verify, MIGRATE), rest, z, summary);
    ReachesStep(System(d, Copy({1}, read), MIGRATE), ONE, System(d, Copy({}, data), MIGRATE), [Commit(lost)] + rest, z, summary);
    ReachesStep(System(d, Copy(data.Keys, map[]), MIGRATE), STEP, System(d, Copy({1}, read), MIGRATE),
                [ONE] + ([Commit(lost)] + rest), z, summary);
  }

  /** A source of a newer version: its version record is lost on the way, the counts agree all the same, and
      the copy is loaded as complete although it differs. */
  lemma {:induction false} NewerVersionDiffers(summary: Data -> int) returns (y: System, acts: seq<Action>, z: System)
    requires summary(map[VERSION := DATABASE_VERSION, 1 := 1]) == summary(map[VERSION := DATABASE_VERSION + 1, 1 := 1])
    ensures BeforeMigration(y, map[VERSION := DATABASE_VERSION + 1, 1 := 1]) && Clean(y) && Reaches(y, acts, z, summary)
    ensures z.pc.Load? && z.disk.level == y.disk.level && z.disk.rocks.Dir? && !z.disk.rocks.migrating
    ensures z.disk.rocks.data != z.disk.level.data
  {
    var source := map[VERSION := DATABASE_VERSION + 1, 1 := 1];
    var copy := map[VERSION := DATABASE_VERSION, 1 := 1];
    var level := Dir(source, false, false, false);
    y := System(Disk(level, Missing, false, true), Off, MIGRATE);
    var d := Disk(level, Dir(FRESH, true, false, true), false, true);
    var e := Disk(level, Dir(copy, true, false, true), false, true);
    z := System(e.(rocks := Dir(copy, false, false, false)), Load, MIGRATE);
    assert |source| == 2 && |copy| == 2;
    MigrationEnds(e, z, summary);
    var rest := [STEP] + ([STEP] + ([STEP] + ([STEP] + [])));
    assert source.Keys == {VERSION, 1};
    assert FRESH + (source - {VERSION}) == copy;
    TwoCopied(d, source, {VERSION}, e, rest, z, summary);
    MigrationStarts(y, source, [STEP] + ([ONE] + ([Commit({VERSION})] + rest)), z, summary);
    acts := [Power(MIGRATE)] + ([STEP] + ([STEP] + ([STEP] + ([STEP] + ([ONE] + ([Commit({VERSION})] + rest))))));
  }

  /** A source of an older version: opening it empties it, and the empty copy is loaded as complete. */
  lemma {:induction false} OlderSourceIsEmptied(summary: Data -> int) returns (y: System, acts: seq<Action>, z: System)
    ensures BeforeMigration(y, map[VERSION := DATABASE_VERSION - 1, 1 := 1]) && Clean(y) && Reaches(y, acts, z, summary)
    ensures z.pc.Load? && z.disk.level.Dir? && z.disk.level.data == FRESH
    ensures z.disk.rocks == Dir(FRESH, false, false, false)
  {
    var source := map[VERSION := DATABASE_VERSION - 1, 1 := 1];
    y := System(Disk(Dir(source, false, false, false), Missing, false, true), Off, MIGRATE);
    var d := Disk(Dir(FRESH, false, false, false), Dir(FRESH, true, false, true), false, true);
    z := System(d.(rocks := Dir(FRESH, false, false, false)), Load, MIGRATE);
    MigrationEnds(d, z, summary);
    var rest := [STEP] + ([STEP] + ([STEP] + ([STEP] + [])));
    assert FRESH + (FRESH - {}) == FRESH && FRESH.Keys == {VERSION};
    ReachesStep(System(d, Copy({}, FRESH), MIGRATE), Commit({}), System(d, Verify, MIGRATE), rest, z, summary);
    ReachesStep(System(d, Copy({VERSION}, map[]), MIGRATE), STEP, System(d, Copy({}, FRESH), MIGRATE),
                [Commit({})] + rest, z, summary);
    MigrationStarts(y, source, [STEP] + ([Commit({})] + rest), z, summary);
    acts := [Power(MIGRATE)] + ([STEP] + ([STEP] + ([STEP] + ([STEP] + ([Commit({})] + rest)))));
  }
}
