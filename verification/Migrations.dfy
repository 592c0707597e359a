/** The migration runner: a ledger of applied files that survives any number of failed runs. */
module Migrations {
  import opened Types

  /** One statement that has run, and the file that it comes from. */
  datatype Ran = Ran(file: string, chunk: string)

  /** A database is what has run in it; the ledger says which files have. */
  datatype Db = Db(log: seq<Ran>, ledger: set<string>)

  /**
   * What stays fixed between runs: the migration files in sorted order, the executable chunks of
   * each, and the number of legacy entries if the legacy table exists.
   */
  datatype Setup = Setup(files: seq<string>, chunks: string -> seq<string>, legacy: Option<nat>)
  {
    predicate Valid() {
      forall i, j :: 0 <= i < j < |files| ==> files[i] != files[j]
    }
  }

  // ---------- what a run means ----------

  /** The legacy entries can be carried over, or there is nothing to carry over. */
  predicate Seedable(setup: Setup, db: Db) {
    db.ledger == {} && setup.legacy.Some? ==> setup.legacy.value <= |setup.files|
  }

  function Seed(setup: Setup, db: Db): Db
    requires Seedable(setup, db)
  {
    if db.ledger == {} && setup.legacy.Some? then db.(ledger := set f <- setup.files[..setup.legacy.value]) else db
  }

  /** All chunks of a file, one after the other. */
  function AllOf(f: string, chunks: seq<string>): seq<Ran> {
    seq(|chunks|, i requires 0 <= i < |chunks| => Ran(f, chunks[i]))
  }

  function ApplyFile(setup: Setup, db: Db, f: string): Db {
    if f in db.ledger || setup.chunks(f) == [] then db
    else Db(db.log + AllOf(f, setup.chunks(f)), db.ledger + {f})
  }

  /** The database after the first `n` files have been applied, those already in the ledger skipped. */
  function ApplyUpTo(setup: Setup, db: Db, n: nat): Db
    requires n <= |setup.files|
  {
    if n == 0 then db else ApplyFile(setup, ApplyUpTo(setup, db, n - 1), setup.files[n - 1])
  }

  /** A run in which no query fails. */
  function CleanRun(setup: Setup, db: Db): Db
    requires Seedable(setup, db)
  {
    ApplyUpTo(setup, Seed(setup, db), |setup.files|)
  }

  /**
   * How a run may leave the database: as it was, or seeded with some of the files applied, with
   * all of them if it succeeds. Without files it succeeds before it looks at the ledger.
   */
  ghost predicate MayEnd(setup: Setup, db: Db, db': Db, ok: bool) {
    if setup.files == [] then ok && db' == db
    else
      || (!ok && db' == db)
      || (Seedable(setup, db)
          && exists n: nat :: n <= |setup.files| && db' == ApplyUpTo(setup, Seed(setup, db), n)
              && (ok ==> n == |setup.files|))
  }

  /** The ledger holds the first `n` files of the list, and nothing else. */
  predicate HoldsFirst(setup: Setup, ledger: set<string>, n: nat) {
    && n <= |setup.files|
    && (forall i :: 0 <= i < n ==> setup.files[i] in ledger)
    && (forall f <- ledger :: exists i :: 0 <= i < n && setup.files[i] == f)
  }

  // ---------- the runner ----------

  class MigrationRunner {
    const setup: Setup
    const fails: nat -> bool
    /** Committed state, the state inside the open transaction, and the number of queries sent so far. */
    var durable: Db
    var working: Db
    var issued: nat

    constructor (setup: Setup, fails: nat -> bool, db: Db)
      ensures this.setup == setup && this.fails == fails && durable == db && working == db && issued == 0
    {
      this.setup, this.fails, this.durable, this.working, this.issued := setup, fails, db, db, 0;
    }

    /** Sends one query; any query may fail, as `fails` says. */
    method Query() returns (ok: bool)
      modifies this`issued
      ensures ok == !fails(old(issued))
    {
      ok := !fails(issued);
      issued := issued + 1;
    }

    method Rollback()
      modifies this`working
      ensures working == durable
    {
      working := durable;
    }

    /** Copies the legacy entries into an empty ledger, in one transaction. */
    method SeedLedgerFromLegacyIfNeeded() returns (ok: bool)
      requires working == durable
      modifies this`durable, this`working, this`issued
      ensures working == durable
      ensures if ok then Seedable(setup, old(durable)) && durable == Seed(setup, old(durable))
              else durable == old(durable)
      ensures ok && old(durable).ledger == {} && setup.legacy.Some? ==>
        durable.log == old(durable).log && HoldsFirst(setup, durable.ledger, setup.legacy.value)
      ensures (forall q :: !fails(q)) && Seedable(setup, old(durable)) ==> ok
    {
      ok := Query();
      if !ok || durable.ledger != {} {
        return;
      }
      ok := Query();
      if !ok || setup.legacy.None? {
        return;
      }
      ok := Query();
      if !ok {
        return;
      }
      var legacyCount := setup.legacy.value;
      if legacyCount <= 0 {
        assert setup.files[..0] == [];
        return;
      }
      if legacyCount > |setup.files| {
        return false;
      }
      ok := Query();
      if !ok {
        return;
      }
      for i := 0 to legacyCount
        invariant durable == old(durable) && working == durable.(ledger := set f <- setup.files[..i])
        invariant (forall q :: !fails(q)) ==> ok
      {
        ok := Query();
        if !ok {
          Rollback();
          return;
        }
        assert setup.files[..i + 1] == setup.files[..i] + [setup.files[i]];
        working := working.(ledger := working.ledger + {setup.files[i]});
      }
      ok := Query();
      if !ok {
        Rollback();
        return;
      }
      durable := working;
    }

    /** All chunks of a file and its ledger row, in one transaction; a file without chunks leaves no row. */
    method ApplySqlFile(f: string) returns (ok: bool)
      requires working == durable && f !in durable.ledger
      modifies this`durable, this`working, this`issued
      ensures working == durable
      ensures durable == if ok then ApplyFile(setup, old(durable), f) else old(durable)
      ensures (forall q :: !fails(q)) ==> ok
    {
      var chunks := setup.chunks(f);
      if |chunks| == 0 {
        return true;
      }
      ok := Query();
      if !ok {
        return;
      }
      for i := 0 to |chunks|
        invariant durable == old(durable) && working == durable.(log := durable.log + AllOf(f, chunks[..i]))
        invariant (forall q :: !fails(q)) ==> ok
      {
        ok := Query();
        if !ok {
          Rollback();
          return;
        }
        working := working.(log := working.log + [Ran(f, chunks[i])]);
        assert AllOf(f, chunks[..i + 1]) == AllOf(f, chunks[..i]) + [Ran(f, chunks[i])];
      }
      assert chunks[..|chunks|] == chunks;
      ok := Query();
      if !ok {
        Rollback();
        return;
      }
      working := working.(ledger := working.ledger + {f});
      ok := Query();
      if !ok {
        Rollback();
        return;
      }
      durable := working;
    }

    method RunMigrations() returns (ok: bool)
      requires working == durable
      modifies this`durable, this`working, this`issued
      ensures working == durable
      ensures MayEnd(setup, old(durable), durable, ok)
      ensures (forall q :: !fails(q)) && Seedable(setup, old(durable)) ==> ok
    {
      if setup.files == [] {
        return true;
      }
      ok := Query();
      if !ok {
        return;
      }
      ok := Query();
      if !ok {
        return;
      }
      ok := SeedLedgerFromLegacyIfNeeded();
      if !ok {
        return;
      }
      ghost var seeded := durable;
      for n := 0 to |setup.files|
        invariant working == durable == ApplyUpTo(setup, seeded, n)
        invariant (forall q :: !fails(q)) ==> ok
      {
        ok := Query();
        if !ok {
          assert durable == ApplyUpTo(setup, seeded, n);
          return;
        }
        if setup.files[n] !in durable.ledger {
          ok := ApplySqlFile(setup.files[n]);
          if !ok {
            assert durable == ApplyUpTo(setup, seeded, n);
            return;
          }
        }
      }
      ok := true;
    }
  }

  // ---------- convergence ----------

  lemma {:induction false} ApplyKeepsLedger(setup: Setup, db: Db, n: nat, m: nat)
    requires n <= m <= |setup.files|
    ensures ApplyUpTo(setup, db, n).ledger <= ApplyUpTo(setup, db, m).ledger
    ensures forall i :: n <= i < m ==>
        setup.files[i] in ApplyUpTo(setup, db, m).ledger || setup.chunks(setup.files[i]) == []
  {
    if n < m {
      ApplyKeepsLedger(setup, db, n, m - 1);
    }
  }

  /** Files that are in the ledger or empty change nothing. */
  lemma {:induction false} ApplyTwiceIsOnce(setup: Setup, db: Db, n: nat, k: nat)
    requires n <= |setup.files| && k <= |setup.files|
    ensures ApplyUpTo(setup, ApplyUpTo(setup, db, n), k) == ApplyUpTo(setup, db, if k <= n then n else k)
  {
    if k > 0 {
      ApplyTwiceIsOnce(setup, db, n, k - 1);
      ApplyKeepsLedger(setup, db, 0, n);
    }
  }

  lemma SeedOnlyOnce(setup: Setup, db: Db, n: nat)
    requires Seedable(setup, db) && n <= |setup.files|
    ensures var db' := ApplyUpTo(setup, Seed(setup, db), n);
      Seedable(setup, db') && Seed(setup, db') == db'
  {
    var db' := ApplyUpTo(setup, Seed(setup, db), n);
    ApplyKeepsLedger(setup, Seed(setup, db), 0, n);
    if db.ledger == {} && setup.legacy.Some? {
      var count := setup.legacy.value;
      if count > 0 {
        assert setup.files[..count][0] in Seed(setup, db).ledger;
      } else {
        assert setup.files[..0] == [];
        assert (set f <- setup.files[..0]) == {};
      }
    } else if db.ledger != {} {
      var f :| f in db.ledger;
      assert f in db'.ledger;
    }
  }

  /** Whatever a run did, a clean run afterwards ends where a clean run before it would have ended. */
  lemma RunKeepsGoal(setup: Setup, db: Db, db': Db, ok: bool)
    requires Seedable(setup, db) && MayEnd(setup, db, db', ok)
    ensures Seedable(setup, db') && CleanRun(setup, db') == CleanRun(setup, db)
    ensures ok ==> db' == CleanRun(setup, db)
  {
    if setup.files == [] {
      assert setup.files[..0] == [];
      assert (set f <- setup.files[..0]) == {};
    } else if ok || db' != db {
      var n: nat :| n <= |setup.files| && db' == ApplyUpTo(setup, Seed(setup, db), n) && (ok ==> n == |setup.files|);
      SeedOnlyOnce(setup, db, n);
      ApplyTwiceIsOnce(setup, Seed(setup, db), n, |setup.files|);
    }
  }

  /** The states before, between and after consecutive runs, with how each run ended. */
  ghost predicate Runs(setup: Setup, dbs: seq<Db>, oks: seq<bool>) {
    |dbs| == |oks| + 1 && forall i :: 0 <= i < |oks| ==> MayEnd(setup, dbs[i], dbs[i + 1], oks[i])
  }

  lemma {:induction false} RunsKeepGoal(setup: Setup, dbs: seq<Db>, oks: seq<bool>, k: nat)
    requires Runs(setup, dbs, oks) && k <= |oks| && Seedable(setup, dbs[0])
    ensures Seedable(setup, dbs[k]) && CleanRun(setup, dbs[k]) == CleanRun(setup, dbs[0])
  {
    if k > 0 {
      RunsKeepGoal(setup, dbs, oks, k - 1);
      RunKeepsGoal(setup, dbs[k - 1], dbs[k], oks[k - 1]);
    }
  }

  /**
   * Any number of runs, failed at any query or not: as soon as one succeeds the database is the one
   * that a single clean run makes, and it stays so whatever later runs do.
   */
  lemma RunsConverge(setup: Setup, dbs: seq<Db>, oks: seq<bool>, k: nat, m: nat)
    requires Runs(setup, dbs, oks) && Seedable(setup, dbs[0]) && k < |oks| && oks[k] && k < m <= |oks|
    ensures dbs[m] == CleanRun(setup, dbs[0])
    decreases m
  {
    RunsKeepGoal(setup, dbs, oks, k);
    RunKeepsGoal(setup, dbs[k], dbs[k + 1], oks[k]);
    if m > k + 1 {
      RunsConverge(setup, dbs, oks, k, m - 1);
      NothingLeftToDo(setup, dbs[0], dbs[m], oks[m - 1]);
    }
  }

  lemma NothingLeftToDo(setup: Setup, db: Db, db': Db, ok: bool)
    requires Seedable(setup, db) && MayEnd(setup, CleanRun(setup, db), db', ok)
    ensures db' == CleanRun(setup, db)
  {
    var done := CleanRun(setup, db);
    SeedOnlyOnce(setup, db, |setup.files|);
    if db' != done {
      var n: nat :| n <= |setup.files| && db' == ApplyUpTo(setup, Seed(setup, done), n);
      ApplyTwiceIsOnce(setup, Seed(setup, db), |setup.files|, n);
    }
  }

  /** With more legacy entries than files no run ever succeeds or changes anything. */
  lemma UnseedableNeverRuns(setup: Setup, db: Db, db': Db, ok: bool)
    requires setup.files != [] && !Seedable(setup, db) && MayEnd(setup, db, db', ok)
    ensures !ok && db' == db
  {
  }

  // ---------- once each, in order ----------

  /** The chunks of those of the first `n` files that are not in the ledger, in list order. */
  function Missing(setup: Setup, ledger: set<string>, n: nat): seq<Ran>
    requires n <= |setup.files|
  {
    if n == 0 then []
    else
      var f := setup.files[n - 1];
      Missing(setup, ledger, n - 1) + if f in ledger then [] else AllOf(f, setup.chunks(f))
  }

  /** Every entry is one chunk of one file of the list; before it stand the earlier files and the earlier chunks. */
  lemma {:induction false} MissingInOrder(setup: Setup, ledger: set<string>, n: nat, b: nat) returns (j: nat, i: nat)
    requires n <= |setup.files| && b < |Missing(setup, ledger, n)|
    ensures j < n && setup.files[j] !in ledger && i < |setup.chunks(setup.files[j])|
    ensures Missing(setup, ledger, n)[b] == Ran(setup.files[j], setup.chunks(setup.files[j])[i])
    ensures Missing(setup, ledger, n)[..b]
         == Missing(setup, ledger, j) + AllOf(setup.files[j], setup.chunks(setup.files[j]))[..i]
  {
    var front, f := Missing(setup, ledger, n - 1), setup.files[n - 1];
    if b < |front| {
      j, i := MissingInOrder(setup, ledger, n - 1, b);
      assert Missing(setup, ledger, n)[..b] == front[..b];
    } else {
      j, i := n - 1, b - |front|;
      assert Missing(setup, ledger, n) == front + AllOf(f, setup.chunks(f));
    }
  }

  lemma {:induction false} MissingFiles(setup: Setup, ledger: set<string>, n: nat, f: string, c: string)
    requires n <= |setup.files|
    ensures Ran(f, c) in Missing(setup, ledger, n) <==> f in setup.files[..n] && f !in ledger && c in setup.chunks(f)
  {
    if n > 0 {
      var g := setup.files[n - 1];
      MissingFiles(setup, ledger, n - 1, f, c);
      assert setup.files[..n] == setup.files[..n - 1] + [g];
      if f == g && c in setup.chunks(g) {
        var i :| 0 <= i < |setup.chunks(g)| && setup.chunks(g)[i] == c;
        assert AllOf(g, setup.chunks(g))[i] == Ran(f, c);
      }
    }
  }

  /**
   * A run commits exactly the chunks of the files that were missing from the ledger: whole files,
   * each once, in the order of the list, and adds just those that have chunks to the ledger.
   */
  lemma {:induction false} CommitsMissingOnce(setup: Setup, db: Db, n: nat)
    requires setup.Valid() && n <= |setup.files|
    ensures var db' := ApplyUpTo(setup, db, n);
      && db'.log == db.log + Missing(setup, db.ledger, n)
      && forall f :: f in db'.ledger <==> f in db.ledger || (f in setup.files[..n] && setup.chunks(f) != [])
  {
    if n > 0 {
      CommitsMissingOnce(setup, db, n - 1);
      var f := setup.files[n - 1];
      assert f !in setup.files[..n - 1];
      assert setup.files[..n] == setup.files[..n - 1] + [f];
      var log, more, chunks := db.log, Missing(setup, db.ledger, n - 1), AllOf(f, setup.chunks(f));
      assert (log + more) + chunks == log + (more + chunks);
    }
  }

  // ---------- what a clean run adds, index by index ----------

  /** Seeding enters the first files of the list, as many as there are legacy entries, and runs nothing. */
  lemma SeedingEntersFirst(setup: Setup, db: Db, n: nat, i: nat)
    requires setup.Valid() && db.ledger == {} && setup.legacy == Some(n) && n <= |setup.files| && i < |setup.files|
    ensures Seed(setup, db).log == db.log && HoldsFirst(setup, Seed(setup, db).ledger, n)
    ensures setup.files[i] in Seed(setup, db).ledger <==> i < n
  {
    assert forall j :: 0 <= j < n ==> setup.files[..n][j] == setup.files[j];
    assert i >= n ==> setup.files[i] !in setup.files[..n];
  }

  /** The runner does not run file `j`: it is among the legacy entries, or in the ledger already. */
  predicate Skips(setup: Setup, db: Db, j: nat)
    requires j < |setup.files|
  {
    if db.ledger == {} && setup.legacy.Some? then j < setup.legacy.value else setup.files[j] in db.ledger
  }

  /** How many chunks the runner runs before it comes to file `j`. */
  function ChunksBefore(setup: Setup, db: Db, j: nat): nat
    requires j <= |setup.files|
  {
    if j == 0 then 0
    else ChunksBefore(setup, db, j - 1) + if Skips(setup, db, j - 1) then 0 else |setup.chunks(setup.files[j - 1])|
  }

  lemma SkipsAreSeeded(setup: Setup, db: Db, j: nat)
    requires setup.Valid() && Seedable(setup, db) && j < |setup.files|
    ensures setup.files[j] in Seed(setup, db).ledger <==> Skips(setup, db, j)
    ensures Seed(setup, db).log == db.log
  {
    if db.ledger == {} && setup.legacy.Some? {
      SeedingEntersFirst(setup, db, setup.legacy.value, j);
    }
  }

  lemma {:induction false} MissingAt(setup: Setup, db: Db, n: nat, j: nat, i: nat)
    requires setup.Valid() && Seedable(setup, db) && n <= |setup.files|
    ensures var missing := Missing(setup, Seed(setup, db).ledger, n);
      && |missing| == ChunksBefore(setup, db, n)
      && (j < n && !Skips(setup, db, j) && i < |setup.chunks(setup.files[j])| ==>
            && ChunksBefore(setup, db, j) + i < |missing|
            && missing[ChunksBefore(setup, db, j) + i] == Ran(setup.files[j], setup.chunks(setup.files[j])[i]))
  {
    if n > 0 {
      MissingAt(setup, db, n - 1, j, i);
      SkipsAreSeeded(setup, db, n - 1);
    }
  }

  /**
   * A clean run appends to the log exactly the chunks of the files that it does not skip: chunk `i` of
   * file `j` stands where the chunks of the files before `j` leave off, and nothing else is added.
   */
  lemma CleanRunAppends(setup: Setup, db: Db, j: nat, i: nat)
    requires setup.Valid() && Seedable(setup, db)
    ensures var log := CleanRun(setup, db).log;
      && |log| == |db.log| + ChunksBefore(setup, db, |setup.files|) && log[..|db.log|] == db.log
      && (j < |setup.files| && !Skips(setup, db, j) && i < |setup.chunks(setup.files[j])| ==>
            && |db.log| + ChunksBefore(setup, db, j) + i < |log|
            && log[|db.log| + ChunksBefore(setup, db, j) + i] == Ran(setup.files[j], setup.chunks(setup.files[j])[i]))
  {
    var seeded := Seed(setup, db);
    CommitsMissingOnce(setup, seeded, |setup.files|);
    MissingAt(setup, db, |setup.files|, j, i);
    if setup.files != [] {
      SkipsAreSeeded(setup, db, 0);
    }
    assert CleanRun(setup, db).log == db.log + Missing(setup, seeded.ledger, |setup.files|);
  }
}
