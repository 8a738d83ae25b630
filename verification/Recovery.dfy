/**
Crash recovery at startup: the migration of the chain database from LevelDB to RocksDB, and the reindex.
Each has a marker file that says "unfinished".  A system is what is on disk and where startup is; a run
is any sequence of steps, in which a crash, an error exit or a new start with other arguments may come
at any point.
*/
module Recovery {
  type Data = map<int, int>

  /** The record with the version of a database, and the version that this program asks for. */
  const VERSION: int := 0
  const DATABASE_VERSION: int := 70509

  datatype Backend = Level | Rocks

  /** A database directory.  `migrating` is the marker file inside it.  Two facts that no file records:
      `partial`, a reindex has begun to replace the contents and has not finished; `truncated`, a
      migration has begun to fill the directory and its contents were not yet found complete. */
  datatype Dir = Missing | Dir(data: Data, migrating: bool, partial: bool, truncated: bool)

  datatype Disk = Disk(level: Dir, rocks: Dir, reindexing: bool, blocks: bool)

  datatype Args = Args(backend: Backend, reindex: bool, migrate: bool, force: bool)

  /** Where startup is; `Copy` holds the keys still to be read and the batch not yet committed. */
  datatype Pc = Off | Boot | Clear | Create | Copy(left: set<int>, batch: Data) | Verify | Unmark
              | Check | Reindex | Wipe | Import | Finish | Load | Up

  datatype System = System(disk: Disk, pc: Pc, args: Args)

  function Chain(d: Disk, b: Backend): Dir { if b.Level? then d.level else d.rocks }

  function WithChain(d: Disk, b: Backend, dir: Dir): Disk {
    if b.Level? then d.(level := dir) else d.(rocks := dir)
  }

  predicate Crashed(d: Disk) { d.rocks.Dir? && d.rocks.migrating }

  /** Step 6d: migrate when asked to, or when RocksDB is chosen and only LevelDB is complete. */
  predicate WantsMigration(d: Disk, a: Args) {
    || a.migrate || a.force
    || (a.backend.Rocks? && d.level.Dir? && (d.rocks.Missing? || Crashed(d)))
  }

  /** Record counts, and whatever else the statistics compare. */
  predicate StatsMatch(a: Data, b: Data, summary: Data -> int) { |a| == |b| && summary(a) == summary(b) }

  /** What the environment decides: the key that comes next, whether a batch is committed now, which of its
      records reach the disk, how far a deletion or an import has got. */
  datatype Choice = Choice(key: int, commit: bool, lost: set<int>, removed: bool, done: bool, data: Data)

  datatype Action = Power(args: Args) | Crash | Go(choice: Choice)

  predicate Enabled(y: System, a: Action) {
    match a
    case Power(_) => y.pc.Off?
    case Crash => true
    case Go(c) => !y.pc.Off? && (y.pc.Copy? && !c.commit ==> c.key in y.pc.left)
  }

  function Next(y: System, a: Action, summary: Data -> int): System
    requires Enabled(y, a)
  {
    match a
    case Power(args) => System(y.disk, Boot, args)
    case Crash => y.(pc := Off)
    case Go(c) => Advance(y, c, summary)
  }

  function Advance(y: System, c: Choice, summary: Data -> int): System
    requires Enabled(y, Go(c))
  {
    var d := y.disk;
    match y.pc
    case Off => y
    case Boot =>
      if !WantsMigration(d, y.args) || d.level.Missing? then y.(pc := Check)
      else if d.rocks.Dir? && !d.rocks.migrating && !y.args.force then y.(pc := Check)
      else y.(pc := Clear)
    case Clear => y.(disk := d.(rocks := Missing), pc := Create)
    case Create =>
      var e := Created(d);
      if e.level.Missing? || e.level.data == map[] then y.(disk := e, pc := Off)
      else y.(disk := e, pc := Copy(e.level.data.Keys, map[]))
    case Copy(left, batch) => Copied(y, left, batch, c)
    case Verify =>
      if d.level.Dir? && d.rocks.Dir? && StatsMatch(d.level.data, d.rocks.data, summary)
      then y.(disk := d.(rocks := d.rocks.(truncated := false)), pc := Unmark)
      else y.(pc := Off)
    case Unmark =>
      if d.rocks.Dir? && c.removed then y.(disk := d.(rocks := d.rocks.(migrating := false)), pc := Check)
      else y.(pc := Off)
    case Check => if y.args.backend.Rocks? && Crashed(d) then y.(pc := Off) else y.(pc := Reindex)
    case Reindex =>
      if y.args.reindex then
        if !d.blocks then y.(pc := Off) else y.(disk := d.(reindexing := true), pc := Wipe)
      else if d.reindexing then y.(pc := Off)
      else y.(pc := Load)
    case Wipe =>
      if c.done then y.(disk := WithChain(d, y.args.backend, Missing), pc := Import)
      else y.(disk := WithChain(d, y.args.backend, Spoiled(Chain(d, y.args.backend), c.data)))
    case Import =>
      if !d.blocks then y.(pc := Off)
      else if c.done then y.(disk := WithChain(d, y.args.backend, Dir(c.data, false, false, false)), pc := Finish)
      else y.(disk := WithChain(d, y.args.backend, Dir(c.data, false, true, false)))
    case Finish => if c.removed then y.(disk := d.(reindexing := false), pc := Up) else y.(pc := Off)
    case Load => y.(disk := WithChain(d, y.args.backend, Opened(Chain(d, y.args.backend), c.data)), pc := Up)
    case Up => y.(disk := WithChain(d, y.args.backend, Opened(Chain(d, y.args.backend), c.data)))
  }

  /** The database of a version older than the one asked for, which opening throws away. */
  predicate Outdated(data: Data) { VERSION in data && data[VERSION] < DATABASE_VERSION }

  /** A database just made holds its version record. */
  const FRESH: Data := map[VERSION := DATABASE_VERSION]

  /** What opening an existing database leaves of it. */
  function Kept(data: Data): Data { if Outdated(data) then FRESH else data }

  /** The new directory and its marker appear together, the source is opened, and the new database gets its
      version record; it is a copy in the making, of a source that may itself be unfinished. */
  function Created(d: Disk): Disk {
    if d.level.Missing? then d.(rocks := Dir(map[], true, false, true))
    else Disk(d.level.(data := Kept(d.level.data)), Dir(FRESH, true, d.level.partial, true), d.reindexing, d.blocks)
  }

  /** One record into the batch, or the batch to disk; some of its records may not get there. */
  function Copied(y: System, left: set<int>, batch: Data, c: Choice): System
    requires y.pc == Copy(left, batch) && (!c.commit ==> c.key in left)
  {
    var d := y.disk;
    if d.level.Missing? || d.rocks.Missing? then y.(pc := Off)
    else if c.commit then
      var rocks := d.rocks.(data := d.rocks.data + (batch - c.lost));
      y.(disk := d.(rocks := rocks), pc := if left == {} then Verify else Copy(left, map[]))
    else if c.key !in d.level.data then y.(pc := Off)
    else y.(pc := Copy(left - {c.key}, batch[c.key := d.level.data[c.key]]))
  }

  /** A deletion in progress leaves anything. */
  function Spoiled(dir: Dir, data: Data): Dir {
    if dir.Missing? then dir else dir.(data := data, partial := true)
  }

  /** A node at work changes its database, or starts a new one. */
  function Opened(dir: Dir, data: Data): Dir {
    if dir.Missing? then Dir(data, false, false, false) else dir.(data := data)
  }

  /** A copy is started exactly when there is a source, no complete copy is in the way or it is forced, and it was
      asked for or RocksDB was chosen without a complete database. */
  lemma BootDecides(y: System, c: Choice, summary: Data -> int)
    requires y.pc.Boot?
    ensures
      var d, a, z := y.disk, y.args, Advance(y, c, summary);
      var complete := d.rocks.Dir? && !d.rocks.migrating;
      && z.disk == d && z.args == a && (z.pc.Clear? || z.pc.Check?)
      && (z.pc.Clear? <==> d.level.Dir? && (a.force || (!complete && (a.migrate || a.backend.Rocks?))))
  {
  }

  /** After that: an unfinished copy is not opened, an unfinished reindex only by another reindex, and a reindex needs
      the block files and leaves its marker first. */
  lemma LoadDecides(y: System, c: Choice, summary: Data -> int)
    requires y.pc.Check? || y.pc.Reindex?
    ensures
      var d, a, z := y.disk, y.args, Advance(y, c, summary);
      && z.args == a && z.disk == d.(reindexing := d.reindexing || z.pc.Wipe?)
      && (y.pc.Check? ==> z.pc == if a.backend.Rocks? && d.rocks.Dir? && d.rocks.migrating then Off else Reindex)
      && (y.pc.Reindex? ==> z.pc == if a.reindex then (if d.blocks then Wipe else Off)
                                    else if d.reindexing then Off else Load)
  {
  }

  // ---------------------------------------------------------------- migration

  predicate Contained(a: Data, b: Data) { forall k <- a :: k in b && a[k] == b[k] }

  /** Only source records have been copied, into a database that began with its own version record. */
  predicate CopiedFrom(a: Data, b: Data) {
    && VERSION in a && (a[VERSION] == DATABASE_VERSION || (VERSION in b && a[VERSION] == b[VERSION]))
    && (forall k <- a :: k != VERSION ==> k in b && a[k] == b[k])
  }

  predicate SameVersion(a: Data, b: Data) { VERSION in a && VERSION in b && a[VERSION] == b[VERSION] }

  /** During a migration the marker is there and only source records have been copied. */
  predicate MigrationOk(y: System) {
    && (y.disk.rocks.Dir? && y.disk.rocks.truncated ==> y.disk.rocks.migrating)
    && (y.pc.Copy? || y.pc.Verify? ==>
          y.disk.level.Dir? && y.disk.rocks.Dir? && y.disk.rocks.migrating && CopiedFrom(y.disk.rocks.data, y.disk.level.data))
    && (y.pc.Copy? ==> Contained(y.pc.batch, y.disk.level.data))
    && (y.pc.Unmark? ==>
          y.disk.level.Dir? && y.disk.rocks.Dir? && !y.disk.rocks.truncated
          && CopiedFrom(y.disk.rocks.data, y.disk.level.data) && |y.disk.rocks.data| == |y.disk.level.data|)
    && (y.args.backend.Rocks? && (y.pc.Load? || y.pc.Reindex? || y.pc.Wipe?) ==> !Crashed(y.disk))
    && (y.pc.Create? ==> y.disk.rocks.Missing? && y.disk.level.Dir?)
    && (y.pc.Clear? ==> y.disk.level.Dir?)
    && (y.args.backend.Rocks? && (y.pc.Import? || y.pc.Finish? || y.pc.Up?) ==> !Crashed(y.disk))
  }

  /** A contained map with as many records is the same map. */
  lemma ContainedSameSize(a: Data, b: Data)
    requires Contained(a, b) && |a| == |b|
    ensures a == b
  {
    assert forall k :: k in a.Keys ==> k in a && k in b.Keys;
    assert |a.Keys| == |a| && |b.Keys| == |b|;
    SubsetSameSize(a.Keys, b.Keys);
    assert a.Keys == b.Keys;
    forall k | k in b ensures k in a && a[k] == b[k] {
      assert k in b.Keys;
      assert k in a.Keys;
    }
  }

  lemma SubsetSameSize(a: set<int>, b: set<int>)
    requires a <= b && |a| == |b|
    ensures a == b
  {
    var rest := b - a;
    assert b == a + rest && a !! rest;
    assert |b| == |a| + |rest|;
    assert rest == {};
  }

  lemma CopyKeeps(y: System, c: Choice, summary: Data -> int)
    requires MigrationOk(y) && y.pc.Copy? && Enabled(y, Go(c))
    ensures MigrationOk(Advance(y, c, summary))
  {
  }

  lemma VerifyKeeps(y: System, c: Choice, summary: Data -> int)
    requires MigrationOk(y) && y.pc.Verify? && Enabled(y, Go(c))
    ensures MigrationOk(Advance(y, c, summary))
  {
  }

  lemma {:induction false} MigrationKeeps(y: System, a: Action, summary: Data -> int)
    requires MigrationOk(y) && Enabled(y, a)
    ensures MigrationOk(Next(y, a, summary))
  {
    if a.Go? {
      if y.pc.Copy? {
        CopyKeeps(y, a.choice, summary);
      } else if y.pc.Verify? {
        VerifyKeeps(y, a.choice, summary);
      } else {
        assert MigrationOk(Advance(y, a.choice, summary));
      }
    }
  }

  /** A copy with as many records as its source equals it if and only if their version records agree, which
      they do when the source is of the version asked for. */
  lemma CopyIsWhole(a: Data, b: Data)
    requires CopiedFrom(a, b) && |a| == |b|
    ensures a == b <==> SameVersion(a, b)
    ensures VERSION in b && b[VERSION] == 70509 ==> a == b
  {
    if SameVersion(a, b) {
      ContainedSameSize(a, b);
    }
  }

  // ---------------------------------------------------------------- reindex

  predicate Partial(dir: Dir) { dir.Dir? && dir.partial }

  function Other(b: Backend): Backend { if b.Level? then Rocks else Level }

  /** An unfinished reindex has its marker, and normal loading is reached only without one. */
  predicate ReindexOk(y: System) {
    && (Partial(y.disk.level) || Partial(y.disk.rocks) ==> y.disk.reindexing)
    && (y.pc.Wipe? || y.pc.Import? || y.pc.Finish? ==> y.disk.reindexing)
    && (y.pc.Finish? ==> !Partial(Chain(y.disk, y.args.backend)))
    && (y.pc.Load? ==> !y.disk.reindexing)
  }

  /** The step that ends a reindex by removing its marker. */
  predicate Ends(y: System, a: Action) { y.pc.Finish? && a.Go? && a.choice.removed }

  /** Every step, a crash at any point included, keeps this, but for the step that ends a reindex: that one
      does if and only if the other backend's directory is not itself left over from a reindex. */
  lemma ReindexKeeps(y: System, a: Action, summary: Data -> int)
    requires ReindexOk(y) && Enabled(y, a)
    ensures ReindexOk(Next(y, a, summary)) <==> (Ends(y, a) ==> !Partial(Chain(y.disk, Other(y.args.backend))))
  {
    if a.Go? && y.pc.Copy? {
      ReindexKeepsCopy(y, a.choice, summary);
    }
  }

  lemma ReindexKeepsCopy(y: System, c: Choice, summary: Data -> int)
    requires ReindexOk(y) && y.pc.Copy? && Enabled(y, Go(c))
    ensures ReindexOk(Advance(y, c, summary))
  {
  }
}
