/** How a migration run ends when something goes wrong: nothing committed is lost, and the lock is free again. */
module MigrationFailures {
  import opened Bytes
  import opened MigrationLaws
  import opened Migrations
  import opened Order

  /** The files of a run are the directory's names with the suffix, each once, in the default sort order. */
  lemma ListingIsExact(dir: seq<File>)
    requires Distinct(dir)
    ensures Sorted(SqlFiles(dir)) && Distinct(SqlFiles(dir))
    ensures forall f :: f in SqlFiles(dir) <==> f in dir && exists stem :: f == stem + ".sql"
  {
    SqlFilesAre(dir);
    forall f ensures EndsWithSql(f) <==> exists stem :: f == stem + ".sql" {
      if EndsWithSql(f) {
        assert f == f[..|f| - 4] + ".sql";
      }
      if stem :| f == stem + ".sql" {
        assert f[|f| - 4..] == ".sql";
      }
    }
    hide EndsWithSql, SqlFiles;
  }

  /** The client's session holds the lock, and its next query can fail. */
  predicate CanFailNow(s: System, r: Runner) {
    r in s.clients && s.clients[r].connected && NeedsLock(s.clients[r].pc) && CanFail(s.clients[r].pc)
  }

  /** The run has thrown, its lock is free, and the database is as it was. */
  predicate Thrown(s: System, s': System, r: Runner) {
    r in s'.clients && s'.clients[r].pc == Done(None) && s'.holder == None && s'.rows == s.rows && s'.log == s.log
  }

  /** The unlock of a run that throws. */
  lemma UnlockThrows(s: System, r: Runner)
    requires r in s.clients && s.clients[r].connected && s.holder == Some(r) && s.clients[r].pc == Unlock(None)
    ensures Thrown(s, Next(s, Proceed(r)), r)
  {
  }

  lemma RollBackUnlocks(s: System, r: Runner)
    requires r in s.clients && s.clients[r].connected && s.clients[r].pc == RollBack
    ensures Next(s, Proceed(r)) == Set(s, r, Unlock(None))
  {
  }

  /** A query that fails ends the run: a transaction is rolled back first, and the unlock follows in every case. */
  lemma FailedRunUnlocks(s: System, r: Runner)
    requires Reachable(s) && CanFailNow(s, r)
    ensures var failed, step := Next(s, Fail(r)), Proceed(r);
            Thrown(s, if s.clients[r].pc.InTransaction? then Next(Next(failed, step), step) else Next(failed, step), r)
  {
    ReachableInv(s);
    assert ClientInv(s, r);
    assert s.holder == Some(r);
    var failed := Next(s, Fail(r));
    assert failed == Set(s, r, if s.clients[r].pc.InTransaction? then RollBack else Unlock(None));
    hide Inv, ClientInv, Next;
    if s.clients[r].pc.InTransaction? {
      RollBackUnlocks(failed, r);
      UnlockThrows(Next(failed, Proceed(r)), r);
    } else {
      UnlockThrows(failed, r);
    }
  }

  /** A session that dies frees its lock and undoes its open transaction only; whatever it committed stays. */
  lemma DeathFreesLock(s: System, r: Runner)
    requires r in s.clients
    ensures var s' := Next(s, Die(r));
            && s'.rows == s.rows && s'.log == s.log && s'.holder == (if s.holder == Some(r) then None else s.holder)
            && r in s'.clients && !s'.clients[r].connected && s'.clients[r].pc == s.clients[r].pc
  {
  }

  /** A client whose session has died throws at its next query, without touching the database. */
  lemma DeadClientThrows(s: System, r: Runner)
    requires r in s.clients && !s.clients[r].connected && NeedsLock(s.clients[r].pc) && !IsLocal(s.clients[r].pc)
    requires s.holder != Some(r)
    ensures var step := Proceed(r);
            var s2 := Next(Next(s, step), step);
            var s' := if s.clients[r].pc.InTransaction? then Next(s2, step) else s2;
            r in s'.clients && s'.clients[r].pc == Done(None) && s'.holder == s.holder && s'.rows == s.rows && s'.log == s.log
  {
    hide Committed, SqlFiles;
  }

  /** A commit whose reply is lost has taken effect: the file is recorded once, although the client will throw. */
  lemma LostReplyIsCommitted(s: System, r: Runner)
    requires Reachable(s) && r in s.clients && s.clients[r].connected
    requires s.clients[r].pc.InTransaction? && s.clients[r].pc.stage == Inserted
    ensures s.clients[r].pc.files != []
    ensures var s', file := Next(s, CommitThenDie(r)), s.clients[r].pc.files[0];
            && s'.rows == s.rows + {file} && s'.log == s.log + [Commit(r, file)] && file !in s.rows
            && s'.holder == None && s'.clients[r].pc == RollBack
  {
    ReachableInv(s);
    assert ClientInv(s, r);
    NextIsNew(s, r);
    hide Inv, ClientInv;
  }
}
