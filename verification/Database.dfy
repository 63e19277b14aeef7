/** Starting on a database: the compatibility gate, the recovery backup, the migration ledger, and the
    markers, over connections that lose uncommitted work in a crash. */
module Database {
  import opened Options
  import Versions
  import VersionTexts

  datatype Column = Column(table: string, name: string)

  /** An additive migration.  Its ledger id is an ideal hash of the statement, so the statement itself. */
  datatype Migration = Migration(column: Column, definition: string)

  /** An ideal hash of the sorted ids. */
  datatype Fingerprint = Fingerprint(ids: multiset<Migration>)

  datatype Number = Missing | Number(n: int) | Garbage {
    function OrOne(): Option<int> { match this case Missing => Some(1) case Number(n) => Some(n) case Garbage => None }
  }

  datatype Markers = Markers(schemaRevision: Number, minimumReader: Number, lastWriter: string,
                             fingerprint: Option<Fingerprint>)

  datatype Tables = Tables(columns: map<string, set<string>>, ledger: set<Migration>, markers: Markers) {
    predicate Has(c: Column) { c.table in columns && c.name in columns[c.table] }

    function AddColumn(c: Column): Tables
      requires c.table in columns
    {
      this.(columns := columns[c.table := columns[c.table] + {c.name}])
    }
  }

  /** One release of the application. */
  datatype App = App(version: string, schema: seq<(string, set<string>)>, migrations: seq<Migration>,
                     schemaRevision: int, minimumReader: int)

  function FingerprintOf(app: App): Fingerprint { Fingerprint(multiset(app.migrations)) }

  // ---------------------------------------------------------------- gate and recovery point

  predicate Downgrade(app: App, lastWriter: string) {
    var current, writer := Versions.ParseGate(app.version), Versions.ParseGate(lastWriter);
    current.Some? && writer.Some? && Versions.Compare(current.value, writer.value) < 0
  }

  predicate GateRefuses(m: Markers, app: App) {
    var revision, reader := m.schemaRevision.OrOne(), m.minimumReader.OrOne();
    || revision.None? || reader.None?
    || revision.value > app.schemaRevision || reader.value > app.schemaRevision
    || Downgrade(app, m.lastWriter)
  }

  predicate IsExisting(t: Tables) { {"hosts", "services", "app_settings"} <= t.columns.Keys }

  predicate SkipsBackup(t: Tables, app: App) {
    || !IsExisting(t)
    || (Versions.Trim(t.markers.lastWriter) == app.version && t.markers.fingerprint == Some(FingerprintOf(app)))
  }

  // ---------------------------------------------------------------- what a migration pass means

  /** One pass over the list; None when a statement fails because its table does not exist. */
  function Migrated(t: Tables, ms: seq<Migration>): Option<Tables>
    decreases |ms|
  {
    if ms == [] then Some(t)
    else
      var m := ms[0];
      if m in t.ledger then Migrated(t, ms[1..])
      else if m.column.table !in t.columns then None
      else Migrated(t.AddColumn(m.column).(ledger := t.ledger + {m}), ms[1..])
  }

  /** Every id in the ledger stands for a column that is there. */
  ghost predicate LedgerSound(t: Tables) {
    forall m :: m in t.ledger ==> t.Has(m.column)
  }

  /** A stored fingerprint names only migrations the ledger already holds. */
  ghost predicate FingerprintSound(t: Tables) {
    t.markers.fingerprint.Some? ==> forall m :: m in t.markers.fingerprint.value.ids ==> m in t.ledger
  }

  ghost predicate Sound(t: Tables) { LedgerSound(t) && FingerprintSound(t) }

  /** A pass ends with every listed id and column, keeps all that was there, and adds nothing else: the
      result depends on the set of migrations, not on their order or on what was applied before. */
  lemma {:induction false} PassMeaning(t: Tables, ms: seq<Migration>)
    requires LedgerSound(t)
    requires forall m :: m in ms ==> m.column.table in t.columns
    ensures Migrated(t, ms).Some?
    ensures var after := Migrated(t, ms).value;
            && after.markers == t.markers && after.columns.Keys == t.columns.Keys && LedgerSound(after)
            && after.ledger == t.ledger + (set m | m in ms)
            && forall c :: after.Has(c) <==> t.Has(c) || exists m :: m in ms && m.column == c
    decreases |ms|
  {
    if ms != [] {
      var m := ms[0];
      var next := if m in t.ledger then t else t.AddColumn(m.column).(ledger := t.ledger + {m});
      assert forall x :: x in ms <==> x == m || x in ms[1..];
      assert forall c :: next.Has(c) <==> t.Has(c) || c == m.column;
      PassMeaning(next, ms[1..]);
    }
  }

  lemma SameColumnsSameTables(a: Tables, b: Tables)
    requires a.columns.Keys == b.columns.Keys && a.ledger == b.ledger && a.markers == b.markers
    requires forall c :: a.Has(c) <==> b.Has(c)
    ensures a == b
  {
    forall x | x in a.columns.Keys ensures a.columns[x] == b.columns[x] {
      forall n ensures n in a.columns[x] <==> n in b.columns[x] {
        assert a.Has(Column(x, n)) <==> n in a.columns[x];
        assert b.Has(Column(x, n)) <==> n in b.columns[x];
      }
    }
    assert a.columns == b.columns;
  }

  /** Reordering and repeating the list makes no difference. */
  lemma PassIgnoresOrder(t: Tables, ms: seq<Migration>, ns: seq<Migration>)
    requires LedgerSound(t)
    requires forall m :: m in ms <==> m in ns
    requires forall m :: m in ms ==> m.column.table in t.columns
    ensures Migrated(t, ms) == Migrated(t, ns)
  {
    PassMeaning(t, ms);
    PassMeaning(t, ns);
    assert (set m | m in ms) == set m | m in ns;
    SameColumnsSameTables(Migrated(t, ms).value, Migrated(t, ns).value);
  }

  /** A pass whose migrations are all in the ledger executes no statement. */
  lemma {:induction false} NothingPending(t: Tables, ms: seq<Migration>)
    requires forall m :: m in ms ==> m in t.ledger
    ensures Migrated(t, ms) == Some(t)
  {
    if ms != [] { NothingPending(t, ms[1..]); }
  }

  /** On an existing database the condition that skips the recovery backup leaves nothing to migrate. */
  lemma SkippedIsNonePending(t: Tables, app: App)
    requires Sound(t) && IsExisting(t) && SkipsBackup(t, app)
    ensures forall m :: m in app.migrations ==> m in t.ledger
  {
    forall m | m in app.migrations ensures m in t.ledger {
      assert m in multiset(app.migrations);
    }
  }

  // ---------------------------------------------------------------- a start

  datatype Outcome = Started | RefusedByGate | Failed

  /** A SQLite connection.  Statements that change the schema commit at once outside a transaction; a
      row change opens one; a crash goes back to what was committed.  "commits" lists every committed
      state, so every state a crash can leave.  With "mayFail"
      any statement may fail. */
  class Connection {
    var committed: Tables
    var working: Tables
    var inTransaction: bool
    ghost var commits: seq<Tables>

    ghost predicate Valid()
      reads this
    {
      && Sound(committed) && Sound(working)
      && (!inTransaction ==> working == committed)
      && commits != [] && commits[|commits| - 1] == committed
      && forall i :: 0 <= i < |commits| ==> Sound(commits[i])
    }

    constructor (t: Tables)
      requires Sound(t)
      ensures Valid() && committed == working == t && !inTransaction && commits == [t]
    {
      committed, working, inTransaction, commits := t, t, false, [t];
    }

    method Commit()
      requires Valid()
      modifies this
      ensures Valid() && committed == working == old(working) && !inTransaction
    {
      committed, inTransaction := working, false;
      commits := commits + [working];
    }

    method Rollback()
      requires Valid()
      modifies this
      ensures Valid() && committed == working == old(committed) && !inTransaction
    {
      working, inTransaction := committed, false;
    }

    method ChangeSchema(next: Tables)
      requires Valid() && Sound(next)
      modifies this
      ensures Valid() && working == next && inTransaction == old(inTransaction)
      ensures committed == if inTransaction then old(committed) else next
    {
      working := next;
      if !inTransaction {
        committed := next;
        commits := commits + [next];
      }
    }

    method ChangeRows(next: Tables)
      requires Valid() && Sound(next)
      modifies this
      ensures Valid() && working == next && inTransaction && committed == old(committed)
    {
      working, inTransaction := next, true;
    }

    /** CREATE TABLE IF NOT EXISTS for every table of the release. */
    method CreateTables(schema: seq<(string, set<string>)>, mayFail: bool) returns (ok: bool)
      requires Valid() && !inTransaction
      modifies this
      ensures Valid() && !inTransaction && KeepsMarkers(old(working), working) && KeepsTables(old(working), working)
      ensures ok ==> forall x :: x in schema ==> x.0 in working.columns
      ensures !mayFail ==> ok
    {
      ok := false;
      for i := 0 to |schema|
        invariant Valid() && !inTransaction && KeepsMarkers(old(working), working) && KeepsTables(old(working), working)
        invariant forall k :: 0 <= k < i ==> schema[k].0 in working.columns
      {
        if mayFail { if * { return; } }
        if schema[i].0 !in working.columns {
          var next := working.(columns := working.columns[schema[i].0 := schema[i].1]);
          assert forall c :: working.Has(c) ==> next.Has(c);
          ChangeSchema(next);
        }
      }
      ok := true;
    }

    /** _run_migrations: each missing id is applied, then entered in the ledger.  A crash may come
        between the two, and between any two migrations. */
    method RunMigrations(ms: seq<Migration>, mayFail: bool) returns (ok: bool)
      requires Valid() && !inTransaction
      modifies this
      ensures Valid() && KeepsMarkers(old(working), working) && KeepsMarkers(old(working), committed)
      ensures ok ==> Migrated(old(working), ms) == Some(working)
      ensures !mayFail && (forall m :: m in ms ==> m.column.table in old(working.columns)) ==> ok
      ensures NonePending(old(working), ms) ==> working == old(working) && committed == old(committed)
    {
      ok := false;
      assert ms[0..] == ms;
      for i := 0 to |ms|
        invariant Valid() && KeepsMarkers(old(working), working) && KeepsMarkers(old(working), committed)
        invariant Migrated(old(working), ms) == Migrated(working, ms[i..])
        invariant working.ledger == old(working.ledger) ==>
                    !inTransaction && working == old(working) && committed == old(committed)
        invariant old(working.ledger) <= working.ledger
        invariant NonePending(old(working), ms) ==> working.ledger == old(working.ledger)
      {
        var m := ms[i];
        assert ms[i..][0] == m && ms[i..][1..] == ms[i + 1..];
        if m !in working.ledger {
          if m.column.table !in working.columns { return; }
          if mayFail { if * { return; } }
          var altered := working.AddColumn(m.column);
          assert forall c :: altered.Has(c) <==> working.Has(c) || c == m.column;
          ChangeSchema(altered);
          if mayFail { if * { return; } }
          ChangeRows(working.(ledger := working.ledger + {m}));
        }
      }
      assert ms[|ms|..] == [];
      ok := true;
    }

    method WriteMarkers(app: App)
      requires Valid() && forall m :: m in app.migrations ==> m in working.ledger
      modifies this
      ensures Valid() && committed == old(committed) && inTransaction
      ensures working == old(working).(markers := MarkersOf(app))
    {
      assert forall m :: m in multiset(app.migrations) ==> m in app.migrations;
      ChangeRows(working.(markers := MarkersOf(app)));
    }

    /** init_db.  Every early exit leaves only what was committed. */
    method Start(app: App, mayFail: bool) returns (outcome: Outcome, backedUp: bool)
      requires Valid() && !inTransaction
      modifies this
      ensures Valid() && !inTransaction
      ensures StartResult(old(committed), app, outcome, backedUp, committed)
      ensures !mayFail && !GateRefuses(old(committed.markers), app) && HasTables(old(committed), app) ==>
                outcome == Started
    {
      outcome, backedUp := Failed, false;
      if IsExisting(working) && SkipsBackup(working, app) { SkippedIsNonePending(working, app); }
      if GateRefuses(working.markers, app) { return RefusedByGate, false; }
      if !SkipsBackup(working, app) {
        if mayFail { if * { return; } }
        backedUp := true;
      }
      var ok := CreateTables(app.schema, mayFail);
      if !ok { Rollback(); return; }
      label created:
      ok := RunMigrations(app.migrations, mayFail);
      if !ok { Rollback(); return; }
      MigratedHasAll(old@created(working), app.migrations);
      // The discovery schema script commits what is pending before it runs.
      Commit();
      if mayFail { if * { return; } }
      WriteMarkers(app);
      if mayFail { if * { Rollback(); return; } }
      Commit();
      if mayFail { if * { return; } }
      outcome := Started;
    }
  }

  /** Every table a migration alters exists or is in the release's schema. */
  ghost predicate HasTables(t: Tables, app: App) {
    forall m :: m in app.migrations ==>
      m.column.table in t.columns || exists x :: x in app.schema && x.0 == m.column.table
  }

  function MarkersOf(app: App): Markers {
    Markers(Number(app.schemaRevision), Number(app.minimumReader), app.version, Some(FingerprintOf(app)))
  }

  ghost predicate NonePending(t: Tables, ms: seq<Migration>) { forall m :: m in ms ==> m in t.ledger }

  /** No migration ran: the ledger and every table that was there are the same. */
  ghost predicate KeepsTables(a: Tables, b: Tables) {
    b.ledger == a.ledger && forall t :: t in a.columns ==> t in b.columns && b.columns[t] == a.columns[t]
  }

  ghost predicate KeepsMarkers(a: Tables, b: Tables) {
    && b.markers == a.markers && a.ledger <= b.ledger && a.columns.Keys <= b.columns.Keys
    && forall c :: a.Has(c) ==> b.Has(c)
  }

  lemma {:induction false} MigratedHasAll(t: Tables, ms: seq<Migration>)
    requires Migrated(t, ms).Some?
    ensures var after := Migrated(t, ms).value; t.ledger <= after.ledger && forall m :: m in ms ==> m in after.ledger
    decreases |ms|
  {
    if ms != [] {
      var m := ms[0];
      MigratedHasAll(if m in t.ledger then t else t.AddColumn(m.column).(ledger := t.ledger + {m}), ms[1..]);
      assert forall x :: x in ms ==> x == m || x in ms[1..];
    }
  }

  /** What a start does to the committed tables, as far as its outcome tells. */
  ghost predicate StartResult(before: Tables, app: App, outcome: Outcome, backedUp: bool, after: Tables) {
    && (backedUp ==> !SkipsBackup(before, app))
    && (after != before || outcome == Started ==> (backedUp <==> !SkipsBackup(before, app)))
    && before.columns.Keys <= after.columns.Keys
    && (outcome == RefusedByGate <==> GateRefuses(before.markers, app))
    && (outcome == RefusedByGate ==> after == before)
    && before.ledger <= after.ledger
    && (forall c :: before.Has(c) ==> after.Has(c))
    && (after.markers == before.markers || after.markers == MarkersOf(app))
    && (after.markers != before.markers || outcome == Started ==> Complete(after, app))
    && (outcome == Started ==> after.markers == MarkersOf(app))
    && Sound(after)
    && (IsExisting(before) && SkipsBackup(before, app) ==> KeepsTables(before, after))
  }

  /** Every table of the release is there, every migration in the ledger and its column in place. */
  ghost predicate Complete(t: Tables, app: App) {
    && Sound(t) && (forall x :: x in app.schema ==> x.0 in t.columns)
    && forall m :: m in app.migrations ==> m in t.ledger && t.Has(m.column)
  }

  // ---------------------------------------------------------------- every run of starts

  /** tables[i] is committed when the i-th start begins; any start may have crashed anywhere. */
  ghost predicate IsHistory(tables: seq<Tables>, apps: seq<App>, outcomes: seq<Outcome>, backups: seq<bool>) {
    && |tables| == |apps| + 1 && |outcomes| == |backups| == |apps|
    && Sound(tables[0])
    && forall i :: 0 <= i < |apps| ==> StartResult(tables[i], apps[i], outcomes[i], backups[i], tables[i + 1])
  }

  lemma HistorySound(tables: seq<Tables>, apps: seq<App>, outcomes: seq<Outcome>, backups: seq<bool>, i: nat)
    requires IsHistory(tables, apps, outcomes, backups) && i <= |apps|
    ensures Sound(tables[i])
  {
    if i > 0 { assert StartResult(tables[i - 1], apps[i - 1], outcomes[i - 1], backups[i - 1], tables[i]); }
  }

  /** Over every history of starts and crashes from a truthful database: a start
      on an existing database that skips the recovery backup migrates nothing, however it ends. */
  lemma SkippedBackupMeansNoMigration(tables: seq<Tables>, apps: seq<App>, outcomes: seq<Outcome>,
                                      backups: seq<bool>, i: nat)
    requires IsHistory(tables, apps, outcomes, backups) && i < |apps|
    requires IsExisting(tables[i]) && SkipsBackup(tables[i], apps[i])
    ensures Sound(tables[i]) && (forall m :: m in apps[i].migrations ==> m in tables[i].ledger)
    ensures KeepsTables(tables[i], tables[i + 1])
  {
    HistorySound(tables, apps, outcomes, backups, i);
    SkippedIsNonePending(tables[i], apps[i]);
    assert StartResult(tables[i], apps[i], outcomes[i], backups[i], tables[i + 1]);
  }

  /** No release with a ledger has touched this database: an empty one, or one older than the ledger. */
  predicate Untouched(t: Tables) { t.ledger == {} && t.markers.fingerprint == None }

  /** From any database no release with a ledger has touched, whatever starts and crashes follow: ledger and
      fingerprint are truthful, and every start that enters a migration into the ledger of an existing
      database is one that makes a recovery backup. */
  lemma MigrationsFollowBackup(tables: seq<Tables>, apps: seq<App>, outcomes: seq<Outcome>, backups: seq<bool>, i: nat)
    requires |tables| == |apps| + 1 && |outcomes| == |backups| == |apps| && i < |apps| && Untouched(tables[0])
    requires forall k :: 0 <= k < |apps| ==> StartResult(tables[k], apps[k], outcomes[k], backups[k], tables[k + 1])
    ensures IsHistory(tables, apps, outcomes, backups) && Sound(tables[i])
    ensures IsExisting(tables[i]) && tables[i + 1].ledger != tables[i].ledger ==> !SkipsBackup(tables[i], apps[i])
  {
    HistorySound(tables, apps, outcomes, backups, i);
    if IsExisting(tables[i]) && SkipsBackup(tables[i], apps[i]) {
      SkippedBackupMeansNoMigration(tables, apps, outcomes, backups, i);
    }
  }

  /** On the tables a completed start of "a" leaves, a completed start of "b" makes a recovery backup exactly
      if it is an existing database and the version text or the migrations differ; whitespace around the first
      text does not count. */
  lemma BackupDecides(before: Tables, a: App, first: bool, between: Tables, b: App, backedUp: bool, after: Tables)
    requires StartResult(before, a, Started, first, between) && StartResult(between, b, Started, backedUp, after)
    ensures backedUp <==>
              && "hosts" in between.columns && "services" in between.columns && "app_settings" in between.columns
              && (b.version != Versions.Trim(a.version) || multiset(b.migrations) != multiset(a.migrations))
  {
    hide Versions.Trim, Complete, KeepsTables, GateRefuses, Sound;
  }

  lemma TrimTwice(s: string)
    ensures Versions.Trim(Versions.Trim(s)) == Versions.Trim(s)
  {
    var a, b := VersionTexts.Trimmed(s);
    Versions.TrimIdentity(Versions.Trim(s));
  }

  /** The markers still name this version and these migrations. */
  ghost predicate Names(m: Markers, app: App) {
    && Versions.Trim(m.lastWriter) == Versions.Trim(app.version)
    && m.fingerprint == Some(Fingerprint(multiset(app.migrations)))
  }

  lemma UnsavedKeepsNames(before: Tables, app: App, outcome: Outcome, after: Tables, written: App)
    requires StartResult(before, app, outcome, false, after) && Names(before.markers, written)
    requires {"hosts", "services", "app_settings"} <= before.columns.Keys
    ensures Names(after.markers, written)
    ensures outcome == Started ==>
              app.version == Versions.Trim(written.version) && multiset(app.migrations) == multiset(written.migrations)
  {
    TrimTwice(before.markers.lastWriter);
    hide Versions.Trim, Complete, KeepsTables, GateRefuses, Sound;
  }

  lemma {:induction false} NamesUntilBackup(tables: seq<Tables>, apps: seq<App>, outcomes: seq<Outcome>,
                                            backups: seq<bool>, i: nat, j: nat)
    requires IsHistory(tables, apps, outcomes, backups) && i < j <= |apps| && outcomes[i] == Started
    requires {"hosts", "services", "app_settings"} <= tables[i + 1].columns.Keys
    requires forall k :: i < k < j ==> !backups[k]
    ensures Names(tables[j].markers, apps[i])
    ensures {"hosts", "services", "app_settings"} <= tables[j].columns.Keys
  {
    assert StartResult(tables[j - 1], apps[j - 1], outcomes[j - 1], backups[j - 1], tables[j]);
    if j > i + 1 {
      NamesUntilBackup(tables, apps, outcomes, backups, i, j - 1);
      UnsavedKeepsNames(tables[j - 1], apps[j - 1], outcomes[j - 1], tables[j], apps[i]);
    }
    hide IsHistory, Versions.Trim;
  }

  /** Over every history, refused, failed and crashed starts included: between the completed starts of two
      releases on an existing database lies a recovery backup, if their versions or migrations differ. */
  lemma UpgradesAreBackedUp(tables: seq<Tables>, apps: seq<App>, outcomes: seq<Outcome>, backups: seq<bool>,
                            i: nat, j: nat)
    requires IsHistory(tables, apps, outcomes, backups) && i < j < |apps|
    requires outcomes[i] == Started && outcomes[j] == Started
    requires {"hosts", "services", "app_settings"} <= tables[i + 1].columns.Keys
    ensures || apps[j].version != Versions.Trim(apps[i].version)
            || multiset(apps[j].migrations) != multiset(apps[i].migrations)
            ==> exists k :: i < k <= j && backups[k]
  {
    if forall k :: i < k <= j ==> !backups[k] {
      NamesUntilBackup(tables, apps, outcomes, backups, i, j);
      assert StartResult(tables[j], apps[j], outcomes[j], backups[j], tables[j + 1]);
      UnsavedKeepsNames(tables[j], apps[j], outcomes[j], tables[j + 1], apps[i]);
    }
    hide IsHistory, StartResult, Names;
  }

  /** Convergence: after one completed start, whatever crashes and other migration lists came before,
      every migration of the release is in place, and the next pass of that release changes nothing. */
  lemma OneStartCompletes(tables: seq<Tables>, apps: seq<App>, outcomes: seq<Outcome>, backups: seq<bool>, i: nat)
    requires IsHistory(tables, apps, outcomes, backups) && i < |apps| && outcomes[i] == Started
    ensures Complete(tables[i + 1], apps[i])
    ensures Migrated(tables[i + 1], apps[i].migrations) == Some(tables[i + 1])
  {
    assert StartResult(tables[i], apps[i], outcomes[i], backups[i], tables[i + 1]);
    NothingPending(tables[i + 1], apps[i].migrations);
  }

  /** A completed migration is never lost again, whatever later starts do. */
  lemma {:induction false} MigrationsPersist(tables: seq<Tables>, apps: seq<App>, outcomes: seq<Outcome>,
                                             backups: seq<bool>,
                                             i: nat, j: nat)
    requires IsHistory(tables, apps, outcomes, backups) && i <= j <= |apps|
    ensures tables[i].ledger <= tables[j].ledger && forall c :: tables[i].Has(c) ==> tables[j].Has(c)
  {
    if i < j {
      MigrationsPersist(tables, apps, outcomes, backups, i, j - 1);
      assert StartResult(tables[j - 1], apps[j - 1], outcomes[j - 1], backups[j - 1], tables[j]);
    }
  }

  lemma NotBeforeTransitive(a: Versions.Version, b: Versions.Version, c: Versions.Version)
    requires Versions.Compare(b, a) >= 0 && Versions.Compare(c, b) >= 0
    ensures Versions.Compare(c, a) >= 0
  {
    Versions.CompareIsPrecedence(b, a);
    Versions.CompareIsPrecedence(c, b);
    Versions.CompareIsPrecedence(c, a);
    if Versions.Precedes(c, a) {
      if b == c {
      } else {
        Versions.PrecedesTransitive(c, a, b);
      }
    }
  }

  /** Missing markers count as revision 1; garbage is refused. */
  lemma GateMeaning(m: Markers, app: App)
    ensures GateRefuses(m, app) <==>
              || m.schemaRevision == Garbage || m.minimumReader == Garbage
              || (m.schemaRevision.Number? && m.schemaRevision.n > app.schemaRevision)
              || (m.minimumReader.Number? && m.minimumReader.n > app.schemaRevision)
              || ((m.schemaRevision == Missing || m.minimumReader == Missing) && app.schemaRevision < 1)
              || Downgrade(app, m.lastWriter)
  {
    hide Downgrade;
  }

  /** A release after another one is refused as a downgrade exactly if its three numbers are smaller. */
  lemma OlderReleaseIsDowngrade(app: App, older_: Versions.Version, newer: Versions.Version)
    requires app.version == VersionTexts.Text(older_) && older_.pre == [] && newer.pre == []
    ensures Downgrade(app, VersionTexts.Text(newer)) <==>
              || older_.major < newer.major
              || (older_.major == newer.major && older_.minor < newer.minor)
              || (older_.major == newer.major && older_.minor == newer.minor && older_.patch < newer.patch)
  {
    VersionTexts.ReleaseOrder(older_, newer);
    VersionTexts.ReleaseOrder(newer, older_);
    DowngradeMeaning(app, VersionTexts.Text(newer));
    hide Downgrade, Versions.ParseGate, VersionTexts.Text, Versions.Precedes, Versions.Compare;
  }

  /** The version part of the gate is SemVer precedence between two readable versions. */
  lemma DowngradeMeaning(app: App, lastWriter: string)
    ensures Downgrade(app, lastWriter) <==>
              && Versions.ParseGate(app.version).Some? && Versions.ParseGate(lastWriter).Some?
              && Versions.Precedes(Versions.ParseGate(app.version).value, Versions.ParseGate(lastWriter).value)
  {
    if Versions.ParseGate(app.version).Some? && Versions.ParseGate(lastWriter).Some? {
      Versions.CompareIsPrecedence(Versions.ParseGate(app.version).value, Versions.ParseGate(lastWriter).value);
    }
  }

  ghost predicate AtLeast(text: string, floor: Versions.Version) {
    Versions.ParseGate(text).Some? && Versions.Compare(Versions.ParseGate(text).value, floor) >= 0
  }

  /** The start leaves markers that name a version the gate can read, or leaves the markers alone. */
  ghost predicate WritesReadable(tables: seq<Tables>, apps: seq<App>, k: nat)
    requires k < |apps| && |tables| == |apps| + 1
  {
    tables[k + 1].markers == tables[k].markers || Versions.ParseGate(apps[k].version).Some?
  }

  lemma {:induction false} WriterNeverGoesBack(tables: seq<Tables>, apps: seq<App>, outcomes: seq<Outcome>,
                                               backups: seq<bool>,
                                               i: nat, j: nat)
    requires IsHistory(tables, apps, outcomes, backups) && i < j <= |apps| && outcomes[i] == Started
    requires Versions.ParseGate(apps[i].version).Some?
    requires forall k: nat :: i < k < j ==> WritesReadable(tables, apps, k)
    ensures AtLeast(tables[j].markers.lastWriter, Versions.ParseGate(apps[i].version).value)
  {
    hide Versions.ParseGate, Versions.Compare, Complete, Sound, KeepsTables, IsExisting, SkipsBackup;
    var floor := Versions.ParseGate(apps[i].version).value;
    assert StartResult(tables[j - 1], apps[j - 1], outcomes[j - 1], backups[j - 1], tables[j]);
    if j == i + 1 {
      Versions.CompareIsPrecedence(floor, floor);
    } else {
      WriterNeverGoesBack(tables, apps, outcomes, backups, i, j - 1);
      assert WritesReadable(tables, apps, j - 1);
      var writer := Versions.ParseGate(tables[j - 1].markers.lastWriter).value;
      if tables[j].markers != tables[j - 1].markers {
        NotBeforeTransitive(floor, writer, Versions.ParseGate(apps[j - 1].version).value);
      }
    }
  }

  /** Successful starts never go back in precedence, as long as the starts between them that wrote markers
      had versions the gate can read. */
  lemma StartedVersionsNonDecreasing(tables: seq<Tables>, apps: seq<App>, outcomes: seq<Outcome>, backups: seq<bool>,
                                     i: nat, j: nat)
    requires IsHistory(tables, apps, outcomes, backups) && i < j < |apps|
    requires outcomes[i] == Started && outcomes[j] == Started
    requires Versions.ParseGate(apps[i].version).Some? && Versions.ParseGate(apps[j].version).Some?
    requires forall k: nat :: i < k < j ==> WritesReadable(tables, apps, k)
    ensures !Versions.Precedes(Versions.ParseGate(apps[j].version).value, Versions.ParseGate(apps[i].version).value)
  {
    WriterNeverGoesBack(tables, apps, outcomes, backups, i, j);
    assert StartResult(tables[j], apps[j], outcomes[j], backups[j], tables[j + 1]);
    hide Versions.ParseGate, Versions.Compare, Complete, Sound, KeepsTables, IsExisting, SkipsBackup;
    var floor, current := Versions.ParseGate(apps[i].version).value, Versions.ParseGate(apps[j].version).value;
    NotBeforeTransitive(floor, Versions.ParseGate(tables[j].markers.lastWriter).value, current);
    Versions.CompareIsPrecedence(current, floor);
  }

  /** After a completed start of "app" the gate refuses another release exactly for a schema it cannot read
      or for a downgrade from that very version: nothing older is remembered. */
  lemma GateAfterStart(before: Tables, app: App, backedUp: bool, after: Tables, next: App)
    requires StartResult(before, app, Started, backedUp, after)
    ensures GateRefuses(after.markers, next) <==>
              app.schemaRevision > next.schemaRevision || app.minimumReader > next.schemaRevision
              || Downgrade(next, app.version)
  {
    hide Downgrade, Complete, KeepsTables;
  }

  /** Why a start between two others must have a readable version: one under a version the gate cannot read
      succeeds over any writer, and then no version at all is a downgrade any more. */
  lemma UnreadableVersionForgets(before: Tables, app: App, backedUp: bool, after: Tables, next: App)
    requires StartResult(before, app, Started, backedUp, after) && Versions.ParseGate(app.version).None?
    ensures !Downgrade(app, before.markers.lastWriter)
    ensures GateRefuses(after.markers, next) <==>
              app.schemaRevision > next.schemaRevision || app.minimumReader > next.schemaRevision
  {
    GateAfterStart(before, app, backedUp, after, next);
    hide Versions.ParseGate, GateRefuses, Complete, KeepsTables;
  }

  /** Such a version: a development build's. */
  lemma DevelopmentIsUnreadable()
    ensures Versions.ParseGate("dev").None?
  {
    Versions.TrimIdentity("dev");
    Versions.SplitOne("dev", '.');
    assert Versions.Find("dev", '-') == 3 && "dev"[..3] == "dev";
  }
}
