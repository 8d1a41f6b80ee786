/**
 * The command-line session commands (`CLISessionManager`): listing the
 * sessions, showing one, deciding whether a session can be resumed, and the
 * dispatch of `--list-sessions`, `--session-info` and `--resume`.
 *
 * The manager holds the store it opened, or nothing when opening it raised.
 * What the commands print is left out; what they return is modelled,
 * including the `False` that an exception caught inside them turns into.
 */
module CliSessionManager {
  import opened Wrappers
  import opened Values
  import opened Database

  /** `x or 0`. */
  function Or0(v: Cell): (r: Cell)
    ensures Truthy(v) ==> r == v
    ensures !Truthy(v) ==> r == Integer(0)
  {
    if Truthy(v) then v else Integer(0)
  }

  /** A counter column of a session row. */
  function Counter(s: Session, column: string): Cell {
    DictGet(s.counters, column, Null)
  }

  /**
   * Formatting with a width (`f"{v:<12}"`) succeeds: `None` and bytes
   * refuse a format specification.
   */
  predicate Padded(v: Cell) {
    !(v.Null? || v.Blob? || v.Dict?)
  }

  /** The row of `list_all_sessions` for this session can be printed. */
  predicate Listable(s: Session) {
    Padded(Counter(s, "total_files")) && Padded(Or0(Counter(s, "files_processed")))
    && Padded(Or0(Counter(s, "files_failed")))
  }

  /**
   * The success rate of `show_session_info` can be computed: it is only
   * computed for a truthy total, which must then compare with 0, and a
   * positive total must take the failed count (or 0) away.
   */
  predicate RateComputable(total: Cell, failed: Cell) {
    !Truthy(total) || (IsNumber(total) && (Num(total) > 0.0 ==> IsNumber(Or0(failed))))
  }

  /** The rows `get_unprocessed_files` selects: status `pending` in that session. */
  function Pending(files: seq<FileRow>, sessionId: int): (r: seq<string>)
    ensures |r| <= |files|
    ensures forall k :: 0 <= k < |r| ==> exists i :: 0 <= i < |files| && files[i].path == r[k]
  {
    if files == [] then []
    else
      var n := |files| - 1;
      var rest := Pending(files[..n], sessionId);
      assert forall k :: 0 <= k < |rest| ==> files[..n][k] == files[k];
      rest + if files[n].sessionId == sessionId && files[n].status == Str("pending") then [files[n].path] else []
  }

  /** No stored row is `pending`: the CHECK of `processed_files.status` does not admit it. */
  lemma {:induction false} PendingNeverStored(files: seq<FileRow>, sessionId: int)
    requires forall i :: 0 <= i < |files| ==> Admits(FileStatuses, files[i].status)
    ensures Pending(files, sessionId) == []
    decreases |files|
  {
    if files != [] {
      var n := |files| - 1;
      PendingNeverStored(files[..n], sessionId);
      assert Admits(FileStatuses, files[n].status);
      assert "pending" !in FileStatuses;
    }
  }

  /** The session arguments of the command line. */
  datatype Args = Args(listSessions: bool, sessionInfo: Option<int>, resumeSession: Option<int>)

  /** What `handle_cli_session_args` returns: a boolean, `('resume', id)`, or `None`. */
  datatype Dispatch = Done(ok: bool) | ResumeWith(id: int) | NotHandled

  class Manager {
    /** The store, or `null` when opening it raised. */
    const db: Store?

    constructor(db: Store?)
      ensures this.db == db
    {
      this.db := db;
    }

    /** What `list_all_sessions` returns. */
    predicate ListOk()
      reads this, db
    {
      db != null && db.isOpen && forall id :: id in db.sessions ==> Listable(db.sessions[id])
    }

    /** What `show_session_info` returns. */
    predicate InfoOk(sessionId: int)
      reads this, db
    {
      db != null && db.isOpen && sessionId in db.sessions
      && RateComputable(Counter(db.sessions[sessionId], "total_files"), Counter(db.sessions[sessionId], "files_failed"))
    }

    /** What `can_resume_session` returns. */
    predicate Resumable(sessionId: int)
      reads this, db
    {
      db != null && db.isOpen && sessionId in db.sessions && db.sessions[sessionId].status == Str("paused")
    }

    /**
     * `list_all_sessions()`: `True` once the sessions are listed, an empty
     * store included; `False` without a store, on a closed one, or when a
     * row's counters cannot be printed.
     */
    method ListAllSessions() returns (ok: bool)
      ensures ok == ListOk()
      ensures db == null ==> !ok
      ensures db != null && db.isOpen && db.sessions == map[] ==> ok
    {
      if db == null || !db.isOpen {
        return false;
      }
      ok := forall id :: id in db.sessions ==> Listable(db.sessions[id]);
    }

    /** `show_session_info(session_id)`: `False` without a store, on a closed one, or for an unknown id. */
    method ShowSessionInfo(sessionId: int) returns (ok: bool)
      ensures ok == InfoOk(sessionId)
      ensures db == null || !db.isOpen || sessionId !in db.sessions ==> !ok
    {
      if db == null {
        return false;
      }
      var stats := db.GetSessionStats(sessionId);
      if stats.Raised? || stats.value.None? {
        return false;
      }
      var s := stats.value.value;
      ok := RateComputable(Counter(s, "total_files"), Counter(s, "files_failed"));
    }

    /**
     * `can_resume_session(session_id)`: only a `paused` session can be
     * resumed. The read happens inside `with self.db`, whose exit closes the
     * store for good.
     */
    method CanResumeSession(sessionId: int) returns (ok: bool)
      requires db != null ==> db.Valid()
      modifies db
      ensures ok == old(Resumable(sessionId))
      ensures db != null ==> !db.isOpen && db.files == old(db.files) && db.sessions == old(db.sessions)
    {
      if db == null {
        return false;
      }
      var stats := db.GetSessionStats(sessionId);
      db.Close();
      if stats.Raised? || stats.value.None? {
        return false;
      }
      ok := stats.value.value.status == Str("paused");
    }

    /**
     * `get_unprocessed_files(session_id)`: the session's `pending` paths,
     * which is always none at all, or `None` without an open store; the
     * store is closed afterwards.
     */
    method GetUnprocessedFiles(sessionId: int) returns (paths: Option<seq<string>>)
      requires db != null ==> db.Valid()
      modifies db
      ensures paths.Some? <==> old(db != null && db.isOpen)
      ensures paths.Some? ==> paths.value == []
      ensures db != null ==> !db.isOpen && db.files == old(db.files) && db.sessions == old(db.sessions)
    {
      if db == null {
        return None;
      }
      if !db.isOpen {
        db.Close();
        return None;
      }
      var pending := Pending(db.files, sessionId);
      PendingNeverStored(db.files, sessionId);
      db.Close();
      return Some(pending);
    }

    /**
     * `handle_cli_session_args(args)`: `--list-sessions` first, then
     * `--session-info`, then `--resume`, which answers `('resume', id)` for
     * a resumable session and `False` otherwise; with none of them, `None`.
     */
    method HandleCliSessionArgs(args: Args) returns (d: Dispatch)
      requires db != null ==> db.Valid()
      modifies db
      ensures args.listSessions ==> d == Done(old(ListOk()))
      ensures !args.listSessions && args.sessionInfo.Some? ==> d == Done(old(InfoOk(args.sessionInfo.value)))
      ensures !args.listSessions && args.sessionInfo.None? && args.resumeSession.Some? ==>
                d == if old(Resumable(args.resumeSession.value)) then ResumeWith(args.resumeSession.value) else Done(false)
      ensures !args.listSessions && args.sessionInfo.None? && args.resumeSession.None? ==> d == NotHandled
      ensures db != null ==> db.files == old(db.files) && db.sessions == old(db.sessions)
    {
      if args.listSessions {
        var ok := ListAllSessions();
        return Done(ok);
      }
      if args.sessionInfo.Some? {
        var ok := ShowSessionInfo(args.sessionInfo.value);
        return Done(ok);
      }
      if args.resumeSession.Some? {
        var ok := CanResumeSession(args.resumeSession.value);
        if ok {
          return ResumeWith(args.resumeSession.value);
        }
        return Done(false);
      }
      return NotHandled;
    }
  }

  /** Once a resume check has run, every later command finds the store closed and answers `False`. */
  method ResumeThenList(m: Manager, sessionId: int) returns (resumable: bool, listed: bool)
    requires m.db != null && m.db.Valid()
    modifies m.db
    ensures resumable == old(m.Resumable(sessionId))
    ensures !listed
  {
    resumable := m.CanResumeSession(sessionId);
    listed := m.ListAllSessions();
  }
}
