/**
 * The migration runner as any number of clients over one database. Every query is one step, and so is every failure:
 * a query can fail, a session can die at any point, and a commit can take effect although its reply is lost.
 */
module Migrations {
  import opened Bytes
  import opened Order

  type Runner = nat
  type File = string

  /** A migration committed: its file and the client whose transaction it was. */
  datatype Commit = Commit(runner: Runner, file: File)

  predicate EndsWithSql(f: File) {
    |f| >= 4 && f[|f| - 4..] == ".sql"
  }

  function OnlySql(dir: seq<File>): seq<File> {
    if dir == [] then []
    else (if EndsWithSql(dir[0]) then [dir[0]] else []) + OnlySql(dir[1..])
  }

  function SqlFiles(dir: seq<File>): seq<File> {
    Sort(OnlySql(dir))
  }

  /** The files not yet recorded, in order. */
  function Pending(files: seq<File>, recorded: set<File>): seq<File> {
    if files == [] then []
    else (if files[0] in recorded then [] else [files[0]]) + Pending(files[1..], recorded)
  }

  datatype Stage = Begun | SqlRan | Inserted

  /** Where a client is: the next thing it does is what the name says. */
  datatype Pc =
    | TakeLock
    | CreateTable
    | ReadDirectory
    | SelectRows(files: seq<File>)
    | NextFile(files: seq<File>, seen: set<File>, applied: seq<File>)
    | InTransaction(files: seq<File>, seen: set<File>, applied: seq<File>, stage: Stage)
    | RollBack
    | Unlock(result: Option<seq<File>>)
    | Done(result: Option<seq<File>>)

  /** `connected` is false once the client's session has died on the server. */
  datatype Client = Client(dir: seq<File>, pc: Pc, connected: bool)

  /** `rows` is `_migrations`; `log` the commits in order; `holder` the session with the advisory lock. */
  datatype System = System(clients: map<Runner, Client>, rows: set<File>, log: seq<Commit>, holder: Option<Runner>)

  datatype Event =
    | Arrive(r: Runner, dir: seq<File>)
    | Proceed(r: Runner)
    | Fail(r: Runner)
    | Die(r: Runner)
    | CommitThenDie(r: Runner)

  const Empty: System := System(map[], {}, [], None)

  function Set(s: System, r: Runner, pc: Pc): System
    requires r in s.clients
  {
    s.(clients := s.clients[r := s.clients[r].(pc := pc)])
  }

  function Released(holder: Option<Runner>, r: Runner): Option<Runner> {
    if holder == Some(r) then None else holder
  }

  /** The session's open transaction is aborted with it and its lock freed; the client finds out at its next query. */
  function Died(s: System, r: Runner): System
    requires r in s.clients
  {
    s.(clients := s.clients[r := s.clients[r].(connected := false)], holder := Released(s.holder, r))
  }

  function Committed(s: System, r: Runner): System
    requires r in s.clients && s.clients[r].pc.InTransaction? && s.clients[r].pc.files != []
  {
    var pc := s.clients[r].pc;
    var file := pc.files[0];
    Set(s, r, NextFile(pc.files[1..], pc.seen, pc.applied + [file]))
      .(rows := s.rows + {file}, log := s.log + [Commit(r, file)])
  }

  /** What a failing query (or a directory or file that cannot be read) makes of the client. */
  function AfterFailure(pc: Pc): Pc {
    match pc
    case InTransaction(_, _, _, _) => RollBack
    case Unlock(result) => Done(result)
    case Done(result) => Done(result)
    case _ => Unlock(None)
  }

  /** The step needs no answer from the database. */
  predicate IsLocal(pc: Pc) {
    || pc.ReadDirectory? || pc.Done?
    || (pc.NextFile? && (pc.files == [] || pc.files[0] in pc.seen))
  }

  predicate CanFail(pc: Pc) {
    pc.ReadDirectory? || !IsLocal(pc)
  }

  function ProceedWith(s: System, r: Runner): System
    requires r in s.clients
  {
    var c := s.clients[r];
    if !c.connected && !IsLocal(c.pc) then Set(s, r, AfterFailure(c.pc))
    else
      match c.pc
      case TakeLock => if s.holder.Some? then s else Set(s, r, CreateTable).(holder := Some(r))
      case CreateTable => Set(s, r, ReadDirectory)
      case ReadDirectory => Set(s, r, SelectRows(SqlFiles(c.dir)))
      case SelectRows(files) => Set(s, r, NextFile(files, s.rows, []))
      case NextFile(files, seen, applied) =>
        if files == [] then Set(s, r, Unlock(Some(applied)))
        else if files[0] in seen then Set(s, r, NextFile(files[1..], seen, applied))
        else Set(s, r, InTransaction(files, seen, applied, Begun))
      case InTransaction(files, seen, applied, Begun) => Set(s, r, InTransaction(files, seen, applied, SqlRan))
      case InTransaction(files, seen, applied, SqlRan) =>
        if files == [] || files[0] in s.rows then Set(s, r, RollBack)
        else Set(s, r, InTransaction(files, seen, applied, Inserted))
      case InTransaction(files, seen, applied, Inserted) => if files == [] then s else Committed(s, r)
      case RollBack => Set(s, r, Unlock(None))
      case Unlock(result) => Set(s, r, Done(result)).(holder := Released(s.holder, r))
      case Done(result) => s
  }

  function Next(s: System, e: Event): System {
    match e
    case Arrive(r, dir) =>
      if r in s.clients then s else s.(clients := s.clients[r := Client(dir, TakeLock, true)])
    case Proceed(r) => if r in s.clients then ProceedWith(s, r) else s
    case Fail(r) => if r in s.clients && CanFail(s.clients[r].pc) then Set(s, r, AfterFailure(s.clients[r].pc)) else s
    case Die(r) => if r in s.clients then Died(s, r) else s
    case CommitThenDie(r) =>
      if r in s.clients && s.clients[r].connected && s.clients[r].pc.InTransaction?
         && s.clients[r].pc.stage == Inserted && s.clients[r].pc.files != []
      then Died(Set(Committed(s, r), r, RollBack), r)
      else s
  }

  /** A directory lists each name once. */
  predicate Allowed(e: Event) {
    e.Arrive? ==> Distinct(e.dir)
  }

  function Run(s: System, events: seq<Event>): System
    decreases events
  {
    if events == [] then s else Run(Next(s, events[0]), events[1..])
  }

  ghost predicate AllAllowed(events: seq<Event>) {
    forall e :: e in events ==> Allowed(e)
  }

  // ---- the invariant ------------------------------------------------------------------------------

  function FilesOf(log: seq<Commit>): seq<File> {
    seq(|log|, i requires 0 <= i < |log| => log[i].file)
  }

  /** What one client committed, in order. */
  function AppliedBy(log: seq<Commit>, r: Runner): seq<File> {
    if log == [] then []
    else AppliedBy(log[..|log| - 1], r) + (if log[|log| - 1].runner == r then [log[|log| - 1].file] else [])
  }

  /** `done` is the part of the listing the loop has passed: all of it is recorded, and what was missing is `applied`. */
  ghost predicate Passed(s: System, r: Runner, files: seq<File>, seen: set<File>, applied: seq<File>)
    requires r in s.clients
  {
    && AppliedBy(s.log, r) == applied
    && seen <= s.rows
    && exists done :: SqlFiles(s.clients[r].dir) == done + files && applied == Pending(done, seen) && Elements(done) <= s.rows
  }

  /** A run that succeeds committed exactly the files that were missing when it looked, and leaves none unrecorded. */
  ghost predicate Succeeded(s: System, r: Runner, applied: seq<File>)
    requires r in s.clients
  {
    && AppliedBy(s.log, r) == applied
    && Elements(SqlFiles(s.clients[r].dir)) <= s.rows
    && exists seen :: seen <= s.rows && applied == Pending(SqlFiles(s.clients[r].dir), seen)
  }

  predicate NeedsLock(pc: Pc) {
    pc.CreateTable? || pc.ReadDirectory? || pc.SelectRows? || pc.NextFile? || pc.InTransaction?
  }

  ghost predicate ClientInv(s: System, r: Runner)
    requires r in s.clients
  {
    var c := s.clients[r];
    && Distinct(c.dir)
    && (NeedsLock(c.pc) && c.connected ==> s.holder == Some(r))
    && (c.pc.TakeLock? || c.pc.CreateTable? || c.pc.ReadDirectory? || c.pc.SelectRows? ==> AppliedBy(s.log, r) == [])
    && (c.pc.SelectRows? ==> c.pc.files == SqlFiles(c.dir))
    && (c.pc.NextFile? ==> Passed(s, r, c.pc.files, c.pc.seen, c.pc.applied))
    && (c.pc.InTransaction? ==>
          Passed(s, r, c.pc.files, c.pc.seen, c.pc.applied) && c.pc.files != [] && c.pc.files[0] !in c.pc.seen)
    && ((c.pc.NextFile? || c.pc.InTransaction?) && c.connected ==> s.rows == c.pc.seen + Elements(c.pc.applied))
    && ((c.pc.Unlock? || c.pc.Done?) && c.pc.result.Some? ==> Succeeded(s, r, c.pc.result.value))
  }

  ghost predicate Inv(s: System) {
    && Elements(FilesOf(s.log)) == s.rows && Distinct(FilesOf(s.log))
    && (forall i :: 0 <= i < |s.log| ==> s.log[i].runner in s.clients)
    && (s.holder.Some? ==> s.holder.value in s.clients && s.clients[s.holder.value].connected)
    && (forall r :: r in s.clients ==> ClientInv(s, r))
  }
}
