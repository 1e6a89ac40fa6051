/** `runMigrations` by one client that nothing disturbs, as the program it is. */
module MigrationRunner {
  import opened Bytes
  import opened Migrations
  import opened MigrationLaws
  import opened Order

  class Database {
    var rows: set<File>
    var log: seq<File>
    var locked: bool

    constructor ()
      ensures rows == {} && log == [] && !locked
    {
      rows, log, locked := {}, [], false;
    }
  }

  lemma PendingStep(files: seq<File>, i: nat, seen: set<File>)
    requires i < |files|
    ensures Pending(files[..i + 1], seen) == Pending(files[..i], seen) + (if files[i] in seen then [] else [files[i]])
    ensures Pending(files, seen) == Pending(files[..i], seen) + Pending(files[i..], seen)
  {
    assert files[..i + 1] == files[..i] + [files[i]] && files == files[..i] + files[i..];
    PendingConcat(files[..i], [files[i]], seen);
    PendingConcat(files[..i], files[i..], seen);
    assert Pending([files[i]], seen) == if files[i] in seen then [] else [files[i]];
  }

  lemma NothingPending(files: seq<File>, seen: set<File>)
    ensures Pending(files[..0], seen) == []
  {
  }

  /**
   * `bad` holds the files whose SQL fails. Either every missing file is applied, in sorted order, or the first bad one
   * stops the run with exactly the files before it applied; the lock is released in both cases.
   */
  method RunMigrations(db: Database, dir: seq<File>, bad: set<File>) returns (result: Result<seq<File>, File>)
    requires Distinct(dir) && !db.locked
    modifies db
    ensures !db.locked
    ensures var pending := Pending(SqlFiles(dir), old(db.rows));
            match result
            case Ok(applied) =>
              && applied == pending && (forall f :: f in pending ==> f !in bad)
              && db.log == old(db.log) + pending && db.rows == old(db.rows) + Elements(pending)
            case Err(file) =>
              exists k :: 0 <= k < |pending| && pending[k] == file && file in bad
                && (forall f :: f in pending[..k] ==> f !in bad)
                && db.log == old(db.log) + pending[..k] && db.rows == old(db.rows) + Elements(pending[..k])
  {
    hide EndsWithSql, SqlFiles, Pending;
    db.locked := true;
    var files := SqlFiles(dir);
    var seen := db.rows;
    var applied := [];
    ghost var log := db.log;
    ghost var pending := Pending(files, seen);
    var i := 0;
    NothingPending(files, seen);
    while i < |files|
      invariant 0 <= i <= |files| && db.locked
      invariant applied == Pending(files[..i], seen) && forall f :: f in applied ==> f !in bad
      invariant db.log == log + applied && db.rows == seen + Elements(applied)
    {
      var file := files[i];
      PendingStep(files, i, seen);
      if file !in seen {
        if file in bad {
          db.locked := false;
          FirstOfRest(files, i, seen);
          assert pending[|applied|] == file && pending[..|applied|] == applied;
          return Err(file);
        }
        db.rows, db.log := db.rows + {file}, db.log + [file];
        applied := applied + [file];
      }
      i := i + 1;
    }
    assert files[..i] == files;
    db.locked := false;
    return Ok(applied);
  }

  lemma FirstOfRest(files: seq<File>, i: nat, seen: set<File>)
    requires i < |files| && files[i] !in seen
    ensures Pending(files[i..], seen) != [] && Pending(files[i..], seen)[0] == files[i]
  {
    assert files[i..][0] == files[i];
  }
}
