/** What any number of concurrent migration runs keep, whatever fails and whenever. */
module MigrationLaws {
  import opened Bytes
  import opened Migrations
  import opened Order

  // ---- lists of files -----------------------------------------------------------------------------

  lemma {:induction false} PendingConcat(a: seq<File>, b: seq<File>, seen: set<File>)
    ensures Pending(a + b, seen) == Pending(a, seen) + Pending(b, seen)
  {
    if a == [] {
      assert a + b == b;
    } else {
      assert (a + b)[1..] == a[1..] + b;
      PendingConcat(a[1..], b, seen);
    }
  }

  lemma {:induction false} PendingMembers(files: seq<File>, seen: set<File>)
    ensures forall f :: f in Pending(files, seen) <==> f in files && f !in seen
  {
    if files != [] {
      PendingMembers(files[1..], seen);
      assert files == [files[0]] + files[1..];
    }
  }

  /** What is pending keeps the listing's order. */
  lemma {:induction false} PendingKeepsOrder(files: seq<File>, seen: set<File>)
    requires Sorted(files) && Distinct(files)
    ensures Sorted(Pending(files, seen)) && Distinct(Pending(files, seen))
  {
    if files != [] {
      PendingKeepsOrder(files[1..], seen);
      PendingMembers(files[1..], seen);
      var rest := Pending(files[1..], seen);
      forall f | f in rest ensures AtMost(files[0], f) && f != files[0] {
        assert f in files[1..];
      }
      SortedPrepend(files[0], rest);
      assert Distinct([files[0]] + rest);
    }
  }

  lemma {:induction false} OnlySqlMembers(dir: seq<File>)
    ensures forall f :: f in OnlySql(dir) <==> f in dir && EndsWithSql(f)
    ensures Distinct(dir) ==> Distinct(OnlySql(dir))
  {
    hide EndsWithSql;
    if dir != [] {
      OnlySqlMembers(dir[1..]);
      assert dir == [dir[0]] + dir[1..];
    }
  }

  lemma SqlFilesAre(dir: seq<File>)
    requires Distinct(dir)
    ensures Sorted(SqlFiles(dir)) && Distinct(SqlFiles(dir))
    ensures forall f :: f in SqlFiles(dir) <==> f in dir && EndsWithSql(f)
  {
    hide EndsWithSql;
    OnlySqlMembers(dir);
    SortSorts(OnlySql(dir));
    SortKeepsDistinct(OnlySql(dir));
  }

  lemma AppliedByAppend(log: seq<Commit>, c: Commit, r: Runner)
    ensures AppliedBy(log + [c], r) == AppliedBy(log, r) + (if c.runner == r then [c.file] else [])
  {
    assert (log + [c])[..|log|] == log;
  }

  lemma {:induction false} AppliedByMembers(log: seq<Commit>, r: Runner)
    ensures forall f :: f in AppliedBy(log, r) <==> Commit(r, f) in log
  {
    if log != [] {
      AppliedByMembers(log[..|log| - 1], r);
      assert log == log[..|log| - 1] + [log[|log| - 1]];
    }
  }

  lemma {:induction false} AppliedByNobody(log: seq<Commit>, r: Runner)
    requires forall i :: 0 <= i < |log| ==> log[i].runner != r
    ensures AppliedBy(log, r) == []
  {
    if log != [] {
      AppliedByNobody(log[..|log| - 1], r);
    }
  }

  // ---- every step keeps the invariant -------------------------------------------------------------

  lemma EmptyInv()
    ensures Inv(Empty)
  {
    assert FilesOf(Empty.log) == [];
  }

  lemma OthersKeep(s: System, s': System, q: Runner)
    requires q in s.clients && q in s'.clients && s'.clients[q] == s.clients[q] && ClientInv(s, q)
    requires s.rows <= s'.rows && AppliedBy(s'.log, q) == AppliedBy(s.log, q)
    requires s.holder == Some(q) ==> s'.holder == Some(q) && s'.rows == s.rows
    ensures ClientInv(s', q)
  {
    hide SqlFiles, Pending, AppliedBy, Distinct;
  }

  /** A step of `r` that commits nothing. */
  lemma QuietKeeps(s: System, s': System, r: Runner)
    requires Inv(s) && s'.rows == s.rows && s'.log == s.log
    requires r in s'.clients && s'.clients == s.clients[r := s'.clients[r]]
    requires forall q :: q != r && s.holder == Some(q) ==> s'.holder == Some(q)
    requires s'.holder.Some? ==> s'.holder == s.holder || s'.holder == Some(r)
    requires s'.holder == Some(r) ==> s'.clients[r].connected
    requires ClientInv(s', r)
    ensures Inv(s')
  {
    hide ClientInv, FilesOf, Distinct;
    forall q | q in s'.clients ensures ClientInv(s', q) {
      if q != r {
        OthersKeep(s, s', q);
      }
    }
  }

  lemma DistinctSplit(done: seq<File>, rest: seq<File>)
    requires Distinct(done + rest) && rest != []
    ensures rest[0] !in done
  {
    forall i | 0 <= i < |done| ensures done[i] != rest[0] {
      assert (done + rest)[i] != (done + rest)[|done|];
    }
  }

  /** The file about to be recorded is new: the lock makes what the client read still true. */
  lemma NextIsNew(s: System, r: Runner)
    requires Inv(s) && r in s.clients && s.clients[r].connected && s.clients[r].pc.InTransaction?
    ensures s.clients[r].pc.files[0] !in s.rows && s.holder == Some(r)
  {
    var InTransaction(files, seen, applied, _) := s.clients[r].pc;
    assert ClientInv(s, r);
    SqlFilesAre(s.clients[r].dir);
    hide SqlFiles, Inv;
    var done :| SqlFiles(s.clients[r].dir) == done + files && applied == Pending(done, seen) && Elements(done) <= s.rows;
    PendingMembers(done, seen);
    DistinctSplit(done, files);
  }

  lemma PassOne(s: System, s': System, r: Runner, files: seq<File>, seen: set<File>, applied: seq<File>, applied': seq<File>)
    requires r in s.clients && r in s'.clients && s'.clients[r].dir == s.clients[r].dir
    requires Passed(s, r, files, seen, applied) && files != [] && s.rows <= s'.rows && files[0] in s'.rows
    requires applied' == applied + (if files[0] in seen then [] else [files[0]])
    requires AppliedBy(s'.log, r) == applied'
    ensures Passed(s', r, files[1..], seen, applied')
  {
    hide SqlFiles, AppliedBy;
    var done :| SqlFiles(s.clients[r].dir) == done + files && applied == Pending(done, seen) && Elements(done) <= s.rows;
    var done' := done + [files[0]];
    PendingConcat(done, [files[0]], seen);
    assert done' + files[1..] == done + files;
    assert Pending([files[0]], seen) == if files[0] in seen then [] else [files[0]];
  }

  lemma PassNone(s: System, r: Runner, files: seq<File>)
    requires r in s.clients && files == SqlFiles(s.clients[r].dir) && AppliedBy(s.log, r) == []
    ensures Passed(s, r, files, s.rows, [])
  {
    hide SqlFiles, AppliedBy;
    assert files == [] + files && Pending([], s.rows) == [] && Elements<File>([]) == {};
  }

  lemma PassAll(s: System, r: Runner, seen: set<File>, applied: seq<File>)
    requires r in s.clients && Passed(s, r, [], seen, applied)
    ensures Succeeded(s, r, applied)
  {
    hide SqlFiles, AppliedBy, Pending;
    var done :| SqlFiles(s.clients[r].dir) == done + [] && applied == Pending(done, seen) && Elements(done) <= s.rows;
    assert done + [] == done;
  }

  lemma FilesOfAppend(log: seq<Commit>, c: Commit)
    ensures FilesOf(log + [c]) == FilesOf(log) + [c.file]
  {
  }

  lemma RecordOne(log: seq<Commit>, rows: set<File>, c: Commit)
    requires Elements(FilesOf(log)) == rows && Distinct(FilesOf(log)) && c.file !in rows
    ensures Elements(FilesOf(log + [c])) == rows + {c.file} && Distinct(FilesOf(log + [c]))
  {
    FilesOfAppend(log, c);
    hide FilesOf;
    assert c.file !in FilesOf(log);
  }

  lemma CommitterKeeps(s: System, r: Runner)
    requires r in s.clients && ClientInv(s, r) && s.clients[r].pc.InTransaction?
    ensures s.clients[r].pc.files != [] && ClientInv(Committed(s, r), r)
  {
    var InTransaction(files, seen, applied, _) := s.clients[r].pc;
    var s' := Committed(s, r);
    AppliedByAppend(s.log, Commit(r, files[0]), r);
    PassOne(s, s', r, files, seen, applied, applied + [files[0]]);
    hide AppliedBy, Passed, Distinct, SqlFiles, Pending;
  }

  lemma OtherKeepsOverCommit(s: System, r: Runner, q: Runner)
    requires r in s.clients && s.clients[r].pc.InTransaction? && s.clients[r].pc.files != [] && s.holder == Some(r)
    requires q in s.clients && q != r && ClientInv(s, q)
    ensures ClientInv(Committed(s, r), q)
  {
    AppliedByAppend(s.log, Commit(r, s.clients[r].pc.files[0]), q);
    hide ClientInv, AppliedBy;
    OthersKeep(s, Committed(s, r), q);
  }

  lemma CommitKeeps(s: System, r: Runner)
    requires Inv(s) && r in s.clients && s.clients[r].connected && s.clients[r].pc.InTransaction?
    ensures s.clients[r].pc.files != [] && Inv(Committed(s, r))
  {
    hide ClientInv, FilesOf, Distinct;
    NextIsNew(s, r);
    CommitterKeeps(s, r);
    RecordOne(s.log, s.rows, Commit(r, s.clients[r].pc.files[0]));
    forall q | q in s.clients && q != r ensures ClientInv(Committed(s, r), q) {
      OtherKeepsOverCommit(s, r, q);
    }
  }

  lemma DeathKeeps(s: System, r: Runner)
    requires Inv(s) && r in s.clients
    ensures Inv(Died(s, r))
  {
    var s' := Died(s, r);
    assert ClientInv(s, r);
    hide FilesOf, AppliedBy, Distinct, SqlFiles, Pending, Inv;
    assert ClientInv(s', r);
    QuietKeeps(s, s', r);
  }

  lemma FailureKeeps(s: System, r: Runner)
    requires Inv(s) && r in s.clients
    ensures Inv(Set(s, r, AfterFailure(s.clients[r].pc)))
  {
    var pc := s.clients[r].pc;
    if (pc.Unlock? || pc.Done?) && pc.result.Some? {
      GiveBackKeeps(s, r, pc.result.value);
    } else {
      QuitKeeps(s, r, AfterFailure(pc));
    }
  }

  lemma GiveBackKeeps(s: System, r: Runner, applied: seq<File>)
    requires Inv(s) && r in s.clients && (s.clients[r].pc == Unlock(Some(applied)) || s.clients[r].pc == Done(Some(applied)))
    ensures Inv(Set(s, r, Done(Some(applied))))
  {
    var s' := Set(s, r, Done(Some(applied)));
    assert ClientInv(s, r);
    assert s.holder.Some? ==> s.clients[s.holder.value].connected;
    hide FilesOf, AppliedBy, Distinct, SqlFiles, Pending, Passed, Inv;
    assert ClientInv(s', r);
    QuietKeeps(s, s', r);
  }

  lemma ListKeeps(s: System, r: Runner)
    requires Inv(s) && r in s.clients && s.clients[r].pc.SelectRows? && s.clients[r].connected
    ensures Inv(ProceedWith(s, r))
  {
    var s' := ProceedWith(s, r);
    assert ClientInv(s, r);
    PassNone(s', r, s.clients[r].pc.files);
    hide FilesOf, AppliedBy, Distinct, SqlFiles, Pending, Passed, Inv;
    assert s.rows == s.rows + Elements<File>([]);
    assert ClientInv(s', r);
    QuietKeeps(s, s', r);
  }

  lemma LoopEndKeeps(s: System, r: Runner, seen: set<File>, applied: seq<File>)
    requires Inv(s) && r in s.clients && s.clients[r].pc == NextFile([], seen, applied)
    ensures Inv(Set(s, r, Unlock(Some(applied))))
  {
    var s' := Set(s, r, Unlock(Some(applied)));
    assert ClientInv(s, r);
    PassAll(s', r, seen, applied);
    hide FilesOf, AppliedBy, Distinct, SqlFiles, Pending, Inv, Passed, Succeeded;
    assert ClientInv(s', r);
    QuietKeeps(s, s', r);
  }

  lemma SkipKeeps(s: System, r: Runner, files: seq<File>, seen: set<File>, applied: seq<File>)
    requires Inv(s) && r in s.clients && s.clients[r].pc == NextFile(files, seen, applied) && files != [] && files[0] in seen
    ensures Inv(Set(s, r, NextFile(files[1..], seen, applied)))
  {
    var s' := Set(s, r, NextFile(files[1..], seen, applied));
    assert ClientInv(s, r);
    PassOne(s, s', r, files, seen, applied, applied);
    hide FilesOf, AppliedBy, Distinct, SqlFiles, Pending, Inv, Passed;
    assert ClientInv(s', r);
    QuietKeeps(s, s', r);
  }

  /** Starting a file's transaction, running its SQL and inserting its row change nothing that others can see. */
  lemma TransactionKeeps(s: System, r: Runner, files: seq<File>, seen: set<File>, applied: seq<File>, stage: Stage)
    requires Inv(s) && r in s.clients && s.clients[r].connected && files != [] && files[0] !in seen
    requires || s.clients[r].pc == NextFile(files, seen, applied)
             || (exists before :: s.clients[r].pc == InTransaction(files, seen, applied, before))
    ensures Inv(Set(s, r, InTransaction(files, seen, applied, stage)))
  {
    var s' := Set(s, r, InTransaction(files, seen, applied, stage));
    assert ClientInv(s, r);
    hide FilesOf, AppliedBy, Distinct, SqlFiles, Pending, Inv, Passed;
    assert Passed(s', r, files, seen, applied) by {
      PassedElsewhere(s, s', r, files, seen, applied);
    }
    assert ClientInv(s', r);
    QuietKeeps(s, s', r);
  }

  lemma PassedElsewhere(s: System, s': System, r: Runner, files: seq<File>, seen: set<File>, applied: seq<File>)
    requires r in s.clients && r in s'.clients && s'.clients[r].dir == s.clients[r].dir
    requires s'.rows == s.rows && s'.log == s.log && Passed(s, r, files, seen, applied)
    ensures Passed(s', r, files, seen, applied)
  {
    hide AppliedBy, SqlFiles, Pending;
  }

  lemma LoopKeeps(s: System, r: Runner)
    requires Inv(s) && r in s.clients && s.clients[r].pc.NextFile? && (s.clients[r].connected || IsLocal(s.clients[r].pc))
    ensures Inv(ProceedWith(s, r))
  {
    hide Inv;
    var NextFile(files, seen, applied) := s.clients[r].pc;
    if files == [] {
      LoopEndKeeps(s, r, seen, applied);
    } else if files[0] in seen {
      SkipKeeps(s, r, files, seen, applied);
    } else {
      TransactionKeeps(s, r, files, seen, applied, Begun);
    }
  }

  lemma PrepareKeeps(s: System, r: Runner)
    requires Inv(s) && r in s.clients && s.clients[r].connected
    requires s.clients[r].pc.TakeLock? || s.clients[r].pc.CreateTable?
    ensures Inv(ProceedWith(s, r))
  {
    var s' := ProceedWith(s, r);
    assert ClientInv(s, r);
    assert s.holder.Some? ==> s.clients[s.holder.value].connected;
    hide FilesOf, AppliedBy, Distinct, SqlFiles, Pending, Passed, Succeeded, Inv;
    assert ClientInv(s', r);
    QuietKeeps(s, s', r);
  }

  lemma ReadDirectoryKeeps(s: System, r: Runner)
    requires Inv(s) && r in s.clients && s.clients[r].pc.ReadDirectory?
    ensures Inv(Set(s, r, SelectRows(SqlFiles(s.clients[r].dir))))
  {
    var s' := Set(s, r, SelectRows(SqlFiles(s.clients[r].dir)));
    assert ClientInv(s, r);
    assert s.holder.Some? ==> s.clients[s.holder.value].connected;
    hide FilesOf, AppliedBy, Distinct, SqlFiles, Pending, Passed, Succeeded, Inv;
    assert ClientInv(s', r);
    QuietKeeps(s, s', r);
  }

  /** Giving up, from any point. */
  lemma QuitKeeps(s: System, r: Runner, pc: Pc)
    requires Inv(s) && r in s.clients && (pc == RollBack || pc == Unlock(None) || pc == Done(None))
    ensures Inv(Set(s, r, pc))
  {
    var s' := Set(s, r, pc);
    assert ClientInv(s, r);
    assert s.holder.Some? ==> s.clients[s.holder.value].connected;
    hide FilesOf, AppliedBy, Distinct, SqlFiles, Pending, Passed, Succeeded, Inv;
    assert ClientInv(s', r);
    QuietKeeps(s, s', r);
  }

  lemma UnlockKeeps(s: System, r: Runner)
    requires Inv(s) && r in s.clients && s.clients[r].pc.Unlock?
    ensures Inv(Set(s, r, Done(s.clients[r].pc.result)).(holder := Released(s.holder, r)))
  {
    var s' := Set(s, r, Done(s.clients[r].pc.result)).(holder := Released(s.holder, r));
    assert ClientInv(s, r);
    assert s.holder.Some? ==> s.clients[s.holder.value].connected;
    hide FilesOf, AppliedBy, Distinct, SqlFiles, Pending, Passed, Inv;
    assert ClientInv(s', r);
    QuietKeeps(s, s', r);
  }

  lemma TransactionPending(s: System, r: Runner)
    requires Inv(s) && r in s.clients && s.clients[r].pc.InTransaction?
    ensures s.clients[r].pc.files != [] && s.clients[r].pc.files[0] !in s.clients[r].pc.seen
  {
    assert ClientInv(s, r);
  }

  lemma TransactionStep(s: System, r: Runner)
    requires r in s.clients && s.clients[r].connected && s.clients[r].pc.InTransaction? && s.clients[r].pc.files != []
    ensures var InTransaction(files, seen, applied, stage) := s.clients[r].pc;
            ProceedWith(s, r) == match stage
              case Begun => Set(s, r, InTransaction(files, seen, applied, SqlRan))
              case SqlRan => Set(s, r, if files[0] in s.rows then RollBack else InTransaction(files, seen, applied, Inserted))
              case Inserted => Committed(s, r)
  {
  }

  lemma InTransactionKeeps(s: System, r: Runner)
    requires Inv(s) && r in s.clients && s.clients[r].connected && s.clients[r].pc.InTransaction?
    ensures Inv(ProceedWith(s, r))
  {
    var InTransaction(files, seen, applied, stage) := s.clients[r].pc;
    TransactionPending(s, r);
    TransactionStep(s, r);
    hide Inv, Committed, ClientInv, Set, ProceedWith;
    match stage {
      case Begun => TransactionKeeps(s, r, files, seen, applied, SqlRan);
      case SqlRan =>
        if files[0] in s.rows {
          QuitKeeps(s, r, RollBack);
        } else {
          TransactionKeeps(s, r, files, seen, applied, Inserted);
        }
      case Inserted => CommitKeeps(s, r);
    }
  }

  lemma ProceedKeeps(s: System, r: Runner)
    requires Inv(s) && r in s.clients
    ensures Inv(ProceedWith(s, r))
  {
    hide Inv, Committed, Set;
    var c := s.clients[r];
    if !c.connected && !IsLocal(c.pc) {
      FailureKeeps(s, r);
    } else {
      match c.pc {
        case TakeLock => PrepareKeeps(s, r);
        case CreateTable => PrepareKeeps(s, r);
        case ReadDirectory => ReadDirectoryKeeps(s, r);
        case SelectRows(_) => ListKeeps(s, r);
        case NextFile(_, _, _) => LoopKeeps(s, r);
        case InTransaction(_, _, _, _) => InTransactionKeeps(s, r);
        case RollBack => QuitKeeps(s, r, Unlock(None));
        case Unlock(_) => UnlockKeeps(s, r);
        case Done(_) => assert ProceedWith(s, r) == s;
      }
    }
  }

  lemma ArriveKeeps(s: System, r: Runner, dir: seq<File>)
    requires Inv(s) && Distinct(dir) && r !in s.clients
    ensures Inv(Next(s, Arrive(r, dir)))
  {
    var s' := Next(s, Arrive(r, dir));
    AppliedByNobody(s.log, r);
    hide FilesOf, AppliedBy, Distinct, SqlFiles, Pending, Passed;
    assert ClientInv(s', r);
    QuietKeeps(s, s', r);
  }

  lemma StepKeepsInv(s: System, e: Event)
    requires Inv(s) && Allowed(e)
    ensures Inv(Next(s, e))
  {
    hide Inv;
    match e {
      case Arrive(r, dir) =>
        if r !in s.clients {
          ArriveKeeps(s, r, dir);
        }
      case Proceed(r) =>
        if r in s.clients {
          ProceedKeeps(s, r);
        }
      case Fail(r) =>
        if r in s.clients {
          FailureKeeps(s, r);
        }
      case Die(r) =>
        if r in s.clients {
          DeathKeeps(s, r);
        }
      case CommitThenDie(r) =>
        if Next(s, e) != s {
          CommitKeeps(s, r);
          var s' := Committed(s, r);
          LoseCommitKeeps(s', r);
        }
    }
  }

  /** The client never learns that its commit took effect. */
  lemma LoseCommitKeeps(s: System, r: Runner)
    requires Inv(s) && r in s.clients
    ensures Inv(Died(Set(s, r, RollBack), r))
  {
    var s' := Died(Set(s, r, RollBack), r);
    assert ClientInv(s, r);
    hide FilesOf, AppliedBy, Distinct, SqlFiles, Pending, Passed, Inv;
    assert ClientInv(s', r);
    QuietKeeps(s, s', r);
  }

  lemma {:induction false} RunKeepsInv(s: System, events: seq<Event>)
    requires Inv(s) && AllAllowed(events)
    ensures Inv(Run(s, events))
    decreases events
  {
    hide Inv, Next;
    if events != [] {
      assert events[0] in events;
      StepKeepsInv(s, events[0]);
      RunKeepsInv(Next(s, events[0]), events[1..]);
    }
  }

  // ---- the promises -------------------------------------------------------------------------------

  ghost predicate Reachable(s: System) {
    exists events :: AllAllowed(events) && s == Run(Empty, events)
  }

  lemma ReachableInv(s: System)
    requires Reachable(s)
    ensures Inv(s)
  {
    hide Inv;
    var events :| AllAllowed(events) && s == Run(Empty, events);
    EmptyInv();
    RunKeepsInv(Empty, events);
  }

  /** Each file's SQL commits at most once, and exactly when its row does. */
  lemma CommittedOnceWithItsRow(s: System, f: File)
    requires Reachable(s)
    ensures f in s.rows <==> exists r :: Commit(r, f) in s.log
    ensures forall i, j :: 0 <= i < j < |s.log| ==> s.log[i].file != s.log[j].file
  {
    ReachableInv(s);
    forall i, j | 0 <= i < j < |s.log| ensures s.log[i].file != s.log[j].file {
      assert FilesOf(s.log)[i] != FilesOf(s.log)[j];
    }
    if f in s.rows {
      assert f in FilesOf(s.log);
      var i :| 0 <= i < |s.log| && FilesOf(s.log)[i] == f;
      assert s.log[i] == Commit(s.log[i].runner, f);
    }
    if r :| Commit(r, f) in s.log {
      var i :| 0 <= i < |s.log| && s.log[i] == Commit(r, f);
      assert FilesOf(s.log)[i] == f;
    }
  }

  /** The lock excludes, and under it the insert of a row never meets one that is already there. */
  lemma OneAtATime(s: System, q: Runner, r: Runner)
    requires Reachable(s) && q in s.clients && r in s.clients
    requires s.clients[q].connected && s.clients[r].connected
    requires NeedsLock(s.clients[q].pc) && NeedsLock(s.clients[r].pc)
    ensures q == r
    ensures s.clients[r].pc.InTransaction? ==> s.clients[r].pc.files != [] && s.clients[r].pc.files[0] !in s.rows
  {
    ReachableInv(s);
    assert ClientInv(s, q) && ClientInv(s, r);
    if s.clients[r].pc.InTransaction? {
      NextIsNew(s, r);
    }
  }

  /**
   * A run that returns leaves every listed `.sql` file applied, and reports exactly the files it applied itself, in
   * sorted order; the rest of the listing had been applied by others.
   */
  lemma ReturnedRunReports(s: System, r: Runner)
    requires Reachable(s) && r in s.clients && s.clients[r].pc.Done? && s.clients[r].pc.result.Some?
    ensures var applied := s.clients[r].pc.result.value;
            && (forall f :: f in s.clients[r].dir && EndsWithSql(f) ==> f in s.rows)
            && applied == AppliedBy(s.log, r) && Sorted(applied) && Distinct(applied)
            && (forall f :: f in applied <==> Commit(r, f) in s.log)
            && (forall f :: f in applied ==> f in s.clients[r].dir && EndsWithSql(f))
  {
    ReachableInv(s);
    assert ClientInv(s, r);
    var dir, applied := s.clients[r].dir, s.clients[r].pc.result.value;
    hide EndsWithSql, Inv, AppliedBy;
    SqlFilesAre(dir);
    AppliedByMembers(s.log, r);
    forall f | f in dir && EndsWithSql(f) ensures f in s.rows {
      assert f in Elements(SqlFiles(dir));
    }
    var seen :| seen <= s.rows && applied == Pending(SqlFiles(dir), seen);
    PendingMembers(SqlFiles(dir), seen);
    PendingKeepsOrder(SqlFiles(dir), seen);
  }

  lemma ProceedGrowsLog(s: System, r: Runner)
    requires r in s.clients
    ensures s.log <= ProceedWith(s, r).log
    ensures var c := s.clients[r];
            ProceedWith(s, r).clients == s.clients[r := Client(c.dir, ProceedWith(s, r).clients[r].pc, c.connected)]
  {
  }

  lemma StepGrowsLog(s: System, e: Event)
    ensures s.log <= Next(s, e).log
    ensures forall r :: r in s.clients ==> r in Next(s, e).clients && Next(s, e).clients[r].dir == s.clients[r].dir
  {
    if e.Proceed? && e.r in s.clients {
      ProceedGrowsLog(s, e.r);
    }
    hide ProceedWith;
  }

  lemma {:induction false} LogOnlyGrows(s: System, events: seq<Event>)
    ensures s.log <= Run(s, events).log
    ensures forall r :: r in s.clients ==> r in Run(s, events).clients && Run(s, events).clients[r].dir == s.clients[r].dir
    decreases events
  {
    if events != [] {
      var s' := Next(s, events[0]);
      StepGrowsLog(s, events[0]);
      hide Next;
      LogOnlyGrows(s', events[1..]);
    }
  }

  /** A later run over files that were all applied when it started reports none, whatever else runs beside it. */
  lemma LaterRunReportsNone(s: System, events: seq<Event>, r: Runner)
    requires Reachable(s) && AllAllowed(events) && r !in s.clients
    requires var s' := Run(s, events);
             && r in s'.clients && s'.clients[r].pc.Done? && s'.clients[r].pc.result.Some?
             && forall f :: f in s'.clients[r].dir && EndsWithSql(f) ==> f in s.rows
    ensures Run(s, events).clients[r].pc.result == Some([])
  {
    hide Inv, EndsWithSql;
    var s' := Run(s, events);
    var applied := s'.clients[r].pc.result.value;
    ReachableInv(s);
    RunKeepsInv(s, events);
    ReachableTrans(s, events);
    ReturnedRunReports(s', r);
    LogOnlyGrows(s, events);
    if applied != [] {
      var f := applied[0];
      assert f in applied && f in s.rows && Commit(r, f) in s'.log;
      CommittedOnceWithItsRow(s, f);
      var q :| Commit(q, f) in s.log;
      PrefixMembers(s.log, s'.log, Commit(q, f));
      CommittedByOne(s', q, r, f);
      KnownRunner(s, q, f);
    }
  }

  lemma PrefixMembers(log: seq<Commit>, log': seq<Commit>, c: Commit)
    requires log <= log' && c in log
    ensures c in log'
  {
    var i :| 0 <= i < |log| && log[i] == c;
    assert log'[i] == c;
  }

  lemma CommittedByOne(s: System, q: Runner, r: Runner, f: File)
    requires Reachable(s) && Commit(q, f) in s.log && Commit(r, f) in s.log
    ensures q == r
  {
    CommittedOnceWithItsRow(s, f);
    var i :| 0 <= i < |s.log| && s.log[i] == Commit(q, f);
    var j :| 0 <= j < |s.log| && s.log[j] == Commit(r, f);
    assert s.log[i].file == s.log[j].file;
  }

  lemma KnownRunner(s: System, q: Runner, f: File)
    requires Inv(s) && Commit(q, f) in s.log
    ensures q in s.clients
  {
    var i :| 0 <= i < |s.log| && s.log[i] == Commit(q, f);
  }

  lemma {:induction false} RunConcat(s: System, a: seq<Event>, b: seq<Event>)
    ensures Run(s, a + b) == Run(Run(s, a), b)
    decreases a
  {
    if a == [] {
      assert a + b == b;
    } else {
      assert (a + b)[1..] == a[1..] + b;
      RunConcat(Next(s, a[0]), a[1..], b);
    }
  }

  lemma ReachableTrans(s: System, events: seq<Event>)
    requires Reachable(s) && AllAllowed(events)
    ensures Reachable(Run(s, events))
  {
    hide Next, Allowed;
    var before :| AllAllowed(before) && s == Run(Empty, before);
    RunConcat(Empty, before, events);
    assert AllAllowed(before + events);
  }

  // ---- an undisturbed run succeeds ----------------------------------------------------------------

  predicate Holds(s: System, r: Runner) {
    r in s.clients && s.clients[r].connected && s.holder == Some(r)
  }

  lemma Steps(s: System, events: seq<Event>, e: Event)
    ensures Run(s, events + [e]) == Next(Run(s, events), e)
  {
    RunConcat(s, events, [e]);
    assert Run(Run(s, events), [e]) == Run(Next(Run(s, events), e), []);
  }

  /** One file's transaction, four queries long. */
  lemma ApplyOne(s: System, r: Runner)
    requires Inv(s) && Holds(s, r) && s.clients[r].pc.NextFile?
    requires s.clients[r].pc.files != [] && s.clients[r].pc.files[0] !in s.clients[r].pc.seen
    ensures var NextFile(files, seen, applied) := s.clients[r].pc;
            var s' := Next(Next(Next(Next(s, Proceed(r)), Proceed(r)), Proceed(r)), Proceed(r));
            && Inv(s') && Holds(s', r) && s'.clients[r] == s.clients[r].(pc := NextFile(files[1..], seen, applied + [files[0]]))
            && s'.rows == s.rows + {files[0]}
  {
    hide Inv;
    var s1 := Next(s, Proceed(r));
    StepKeepsInv(s, Proceed(r));
    StepKeepsInv(s1, Proceed(r));
    NextIsNew(s1, r);
    var s2 := Next(s1, Proceed(r));
    var s3 := Next(s2, Proceed(r));
    StepKeepsInv(s2, Proceed(r));
    StepKeepsInv(s3, Proceed(r));
  }

  /** The loop is over: return, and unlock. */
  lemma FinishLoop(s: System, r: Runner)
    requires Holds(s, r) && s.clients[r].pc.NextFile? && s.clients[r].pc.files == []
    ensures var s' := Run(s, [Proceed(r), Proceed(r)]);
            && r in s'.clients && s'.clients[r].pc == Done(Some(s.clients[r].pc.applied))
            && s'.holder == None && s'.rows == s.rows
  {
    var step := Proceed(r);
    assert Run(s, [step, step]) == Next(Next(s, step), step) by {
      hide Next;
      Steps(s, [], step);
      Steps(s, [step], step);
      assert [step] + [step] == [step, step] && [] + [step] == [step];
    }
  }

  lemma SkipOne(s: System, r: Runner)
    requires Inv(s) && Holds(s, r) && s.clients[r].pc.NextFile?
    requires s.clients[r].pc.files != [] && s.clients[r].pc.files[0] in s.clients[r].pc.seen
    ensures var NextFile(files, seen, applied) := s.clients[r].pc;
            var s' := Next(s, Proceed(r));
            && Inv(s') && Holds(s', r) && s'.clients[r].pc == NextFile(files[1..], seen, applied) && s'.rows == s.rows
  {
    hide Inv;
    StepKeepsInv(s, Proceed(r));
    hide SqlFiles, Committed;
  }

  /** What a finished loop leaves: from `applied` so far, everything pending was applied and recorded. */
  ghost predicate LoopDone(s: System, r: Runner, applied: seq<File>, rows: set<File>) {
    r in s.clients && s.clients[r].pc == Done(Some(applied)) && s.holder == None && s.rows == rows
  }

  lemma NothingPending(seen: set<File>, applied: seq<File>, rows: set<File>)
    ensures applied + Pending([], seen) == applied && rows + Elements(Pending([], seen)) == rows
  {
  }

  lemma PendingHead(files: seq<File>, seen: set<File>, applied: seq<File>, rows: set<File>)
    requires files != []
    ensures files[0] in seen ==> Pending(files, seen) == Pending(files[1..], seen)
    ensures files[0] !in seen ==>
              && applied + [files[0]] + Pending(files[1..], seen) == applied + Pending(files, seen)
              && rows + {files[0]} + Elements(Pending(files[1..], seen)) == rows + Elements(Pending(files, seen))
  {
    var rest := Pending(files[1..], seen);
    assert [] + rest == rest;
    assert Pending(files, seen) == if files[0] in seen then rest else [files[0]] + rest;
    hide Pending, Elements;
    AppliedAndRows(files[0], rest, applied, rows);
  }

  lemma AppliedAndRows(f: File, rest: seq<File>, applied: seq<File>, rows: set<File>)
    ensures applied + [f] + rest == applied + ([f] + rest)
    ensures rows + {f} + Elements(rest) == rows + Elements([f] + rest)
  {
    assert Elements([f] + rest) == {f} + Elements(rest);
  }

  lemma {:induction false} LoopFinishes(s: System, r: Runner) returns (events: seq<Event>)
    requires Inv(s) && Holds(s, r) && s.clients[r].pc.NextFile?
    ensures AllAllowed(events)
    ensures var NextFile(files, seen, applied) := s.clients[r].pc;
            LoopDone(Run(s, events), r, applied + Pending(files, seen), s.rows + Elements(Pending(files, seen)))
    decreases |s.clients[r].pc.files|
  {
    hide Inv, Next, Elements, Pending;
    var NextFile(files, seen, applied) := s.clients[r].pc;
    var step := Proceed(r);
    if files == [] {
      events := [step, step];
      FinishLoop(s, r);
      NothingPending(seen, applied, s.rows);
      hide Run;
    } else if files[0] in seen {
      SkipOne(s, r);
      PendingHead(files, seen, applied, s.rows);
      var rest := LoopFinishes(Next(s, step), r);
      events := [step] + rest;
      RunConcat(s, [step], rest);
      Steps(s, [], step);
      assert [] + [step] == [step];
    } else {
      ApplyOne(s, r);
      PendingHead(files, seen, applied, s.rows);
      var rest := LoopFinishes(Next(Next(Next(Next(s, step), step), step), step), r);
      events := [step, step, step, step] + rest;
      FourSteps(s, step, rest);
      hide Run, LoopDone;
    }
  }

  lemma FourSteps(s: System, e: Event, rest: seq<Event>)
    ensures Run(s, [e, e, e, e] + rest) == Run(Next(Next(Next(Next(s, e), e), e), e), rest)
  {
    hide Next;
    Steps(s, [], e);
    Steps(s, [e], e);
    Steps(s, [e, e], e);
    Steps(s, [e, e, e], e);
    assert [e, e] + [e] == [e, e, e] && [e, e, e] + [e] == [e, e, e, e];
    RunConcat(s, [e, e, e, e], rest);
  }

  /** A client arrives at a free lock: it locks, makes sure of the table, and reads the directory and the rows. */
  lemma Prologue(s: System, r: Runner, dir: seq<File>)
    requires s.holder.None? && r !in s.clients
    ensures var step := Proceed(r);
            var s' := Next(Next(Next(Next(Next(s, Arrive(r, dir)), step), step), step), step);
            && Holds(s', r) && s'.clients[r].pc == NextFile(SqlFiles(dir), s.rows, []) && s'.rows == s.rows
  {
    hide SqlFiles, Committed;
    var step := Proceed(r);
    var s2 := Next(Next(Next(s, Arrive(r, dir)), step), step);
    assert Holds(s2, r) && s2.clients[r] == Client(dir, ReadDirectory, true) && s2.rows == s.rows;
  }

  lemma FourKeepInv(s: System, e: Event)
    requires Inv(s) && Allowed(e)
    ensures Inv(Next(Next(Next(Next(s, e), e), e), e))
  {
    hide Inv, Next;
    StepKeepsInv(s, e);
    StepKeepsInv(Next(s, e), e);
    StepKeepsInv(Next(Next(s, e), e), e);
    StepKeepsInv(Next(Next(Next(s, e), e), e), e);
  }

  /**
   * No earlier crash or failure blocks a later run: whenever the lock is free, an undisturbed run returns, reporting all
   * its missing files and recording every one of them.
   */
  lemma UndisturbedRunSucceeds(s: System, r: Runner, dir: seq<File>)
    requires Reachable(s) && s.holder.None? && r !in s.clients && Distinct(dir)
    ensures exists events :: AllAllowed(events) && var s' := Run(s, events);
              && r in s'.clients && s'.clients[r].pc == Done(Some(Pending(SqlFiles(dir), s.rows)))
              && s'.holder == None && s'.rows == s.rows + Elements(Pending(SqlFiles(dir), s.rows))
  {
    hide Inv, SqlFiles, Next;
    ReachableInv(s);
    var step := Proceed(r);
    var s0 := Next(s, Arrive(r, dir));
    StepKeepsInv(s, Arrive(r, dir));
    FourKeepInv(s0, step);
    Prologue(s, r, dir);
    var rest := LoopFinishes(Next(Next(Next(Next(s0, step), step), step), step), r);
    FourSteps(s0, step, rest);
    var events := [Arrive(r, dir)] + ([step, step, step, step] + rest);
    assert Run(s, events) == Run(s0, [step, step, step, step] + rest);
    assert [] + Pending(SqlFiles(dir), s.rows) == Pending(SqlFiles(dir), s.rows);
    assert AllAllowed(events);
  }
}
