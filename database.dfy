/**
 * The bdnex store (`BDneXDB`): the `processed_files` and
 * `processing_sessions` tables of its SQLite database, held in memory.
 *
 * `processed_files` is a sequence of rows in insertion order (which is also
 * `processed_date` order and id order); `processing_sessions` is a map from
 * id to row. Each table has its AUTOINCREMENT counter. The constraints of
 * the schema are enforced as SQLite enforces them: `file_path` is UNIQUE,
 * both `status` columns have a CHECK listing the admitted texts, and
 * `session_id` REFERENCES a session (`PRAGMA foreign_keys = ON`). A failing
 * statement raises and changes nothing.
 *
 * Path normalisation (`_normalize_file_path`) is a parameter `normalise`;
 * file hashes and sizes, and the current time, are inputs.
 */
module Database {
  import opened Wrappers
  import opened Values
  import opened Seqs

  /** The texts `processed_files.status` admits. */
  const FileStatuses: set<string> := {"success", "manual", "skipped", "failed", "unknown"}
  /** The texts `processing_sessions.status` admits. */
  const SessionStatuses: set<string> := {"running", "paused", "completed", "failed", "resumed"}
  /** The counter columns of a session. */
  const Counters: set<string> := {"total_files", "files_processed", "files_successful", "files_failed", "files_skipped"}
  /** The keys `update_session` accepts. */
  const UpdatableFields: set<string> := Counters + {"status"}
  /** The statuses that count a file as processed. */
  const DoneStatuses: set<string> := {"success", "manual"}

  /** A `CHECK(status IN (...))` constraint: NULL passes, otherwise one of the listed texts. */
  predicate Admits(statuses: set<string>, v: Cell) {
    v.Null? || (v.Str? && v.s in statuses)
  }

  /** The values sqlite3 binds as parameters: it refuses a dictionary. */
  predicate Bindable(v: Cell) {
    !v.Dict?
  }

  /** A row of `processed_files`. */
  datatype FileRow = FileRow(
    id: int,
    path: string,
    hash: string,
    size: Option<int>,
    processedDate: int,
    bdgestId: Cell,
    bdgestUrl: Cell,
    title: Cell,
    series: Cell,
    volume: Cell,
    editor: Cell,
    year: Cell,
    isbn: Cell,
    pages: Cell,
    confidence: Cell,
    status: Cell,
    errorMsg: Cell,
    sessionId: int,
    processingTime: Cell)

  /** A row of `processing_sessions` (the log path columns, never written here, are left out). */
  datatype Session = Session(
    started: int,
    ended: Option<int>,
    directory: string,
    pattern: string,
    batchMode: bool,
    strictMode: bool,
    numWorkers: int,
    counters: map<string, Cell>,
    status: Cell)

  /** The counters of a new session: all 0. */
  function ZeroCounters(): (m: map<string, Cell>)
    ensures m.Keys == Counters && forall k :: k in m ==> m[k] == Integer(0)
  {
    map k | k in Counters :: Integer(0)
  }

  /** A new session in status `running`. */
  function NewSession(directory: string, batchMode: bool, strictMode: bool, numWorkers: int, pattern: string,
                      now: int): (s: Session)
    ensures s.status == Str("running") && Admits(SessionStatuses, s.status)
    ensures s.started == now && s.ended.None? && s.counters == ZeroCounters()
  {
    Session(now, None, directory, pattern, batchMode, strictMode, numWorkers, ZeroCounters(), Str("running"))
  }

  // ---------------------------------------------------------------- record_processing

  /**
   * The confidence stored for `result.get('score', 0)`: a score above 1 is
   * read as a percentage and divided by 100. Comparing anything but a
   * number with 1 raises (`None`).
   */
  function StoredScore(score: Cell): (r: Option<Cell>)
    ensures r.Some? <==> IsNumber(score)
    ensures r.Some? ==> IsNumber(r.value)
    ensures r.Some? && Num(score) > 1.0 ==> Num(r.value) * 100.0 == Num(score)
    ensures r.Some? && Num(score) <= 1.0 ==> r.value == score
    ensures r.Some? && 0.0 <= Num(score) <= 100.0 ==> 0.0 <= Num(r.value) <= 1.0
  {
    if !IsNumber(score) then None
    else if Num(score) > 1.0 then Some(Float(Num(score) / 100.0))
    else Some(score)
  }

  /** The parameters the INSERT of `record_processing` binds from the result dictionary. */
  function BoundValues(result: map<string, Cell>): seq<Cell> {
    [DictGet(result, "bdgest_id", Null), DictGet(result, "bdgest_url", Null), DictGet(result, "title", Null),
     DictGet(result, "series", Null), DictGet(result, "volume", Null), DictGet(result, "editor", Null),
     DictGet(result, "year", Null), DictGet(result, "isbn", Null), DictGet(result, "pages", Null),
     DictGet(result, "status", Str("unknown")), DictGet(result, "error", Null),
     DictGet(result, "processing_time_ms", Integer(0))]
  }

  /** The row `record_processing` inserts. */
  function RowOf(id: int, path: string, hash: string, size: Option<int>, now: int, result: map<string, Cell>,
                 confidence: Cell, sessionId: int): (row: FileRow)
    ensures row.id == id && row.path == path && row.sessionId == sessionId && row.confidence == confidence
    ensures row.status == DictGet(result, "status", Str("unknown"))
    ensures row.processingTime == DictGet(result, "processing_time_ms", Integer(0))
    ensures row.title == DictGet(result, "title", Null) && row.errorMsg == DictGet(result, "error", Null)
  {
    FileRow(id, path, hash, size, now,
            DictGet(result, "bdgest_id", Null), DictGet(result, "bdgest_url", Null), DictGet(result, "title", Null),
            DictGet(result, "series", Null), DictGet(result, "volume", Null), DictGet(result, "editor", Null),
            DictGet(result, "year", Null), DictGet(result, "isbn", Null), DictGet(result, "pages", Null),
            confidence, DictGet(result, "status", Str("unknown")), DictGet(result, "error", Null), sessionId,
            DictGet(result, "processing_time_ms", Integer(0)))
  }

  /** `SELECT id FROM processed_files WHERE file_path = ?`, as the position of the row. */
  function Find(files: seq<FileRow>, path: string): (i: Option<nat>)
    ensures i.None? <==> forall j :: 0 <= j < |files| ==> files[j].path != path
    ensures i.Some? ==> i.value < |files| && files[i.value].path == path
  {
    if files == [] then None
    else if files[|files| - 1].path == path then Some(|files| - 1)
    else Find(files[..|files| - 1], path)
  }

  // ---------------------------------------------------------------- queries

  /** The filters of `get_processed_files`; a falsy filter is not applied. */
  predicate Selected(row: FileRow, status: Option<string>, series: Option<string>, sessionId: Option<int>) {
    (status.Some? && status.value != [] ==> row.status == Str(status.value))
    && (series.Some? && series.value != [] ==> row.series == Str(series.value))
    && (sessionId.Some? && sessionId.value != 0 ==> row.sessionId == sessionId.value)
  }

  /** The matching rows, newest first (`ORDER BY processed_date DESC`). */
  function NewestMatching(files: seq<FileRow>, status: Option<string>, series: Option<string>,
                          sessionId: Option<int>): (r: seq<FileRow>)
    ensures |r| <= |files|
    ensures forall k :: 0 <= k < |r| ==> r[k] in files && Selected(r[k], status, series, sessionId)
  {
    if files == [] then []
    else
      var last := files[|files| - 1];
      var rest := NewestMatching(files[..|files| - 1], status, series, sessionId);
      assert forall k :: 0 <= k < |rest| ==> rest[k] in files by {
        forall k | 0 <= k < |rest| ensures rest[k] in files {
          var j :| 0 <= j < |files| - 1 && files[..|files| - 1][j] == rest[k];
          assert files[j] == rest[k];
        }
      }
      (if Selected(last, status, series, sessionId) then [last] else []) + rest
  }

  /** `get_processed_files(status, series, session_id, limit)`: matching rows, newest first, at most `limit`. */
  function ProcessedFiles(files: seq<FileRow>, status: Option<string>, series: Option<string>,
                          sessionId: Option<int>, limit: int): (r: seq<FileRow>)
    ensures forall i :: 0 <= i < |r| ==> r[i] in files && Selected(r[i], status, series, sessionId)
    ensures r <= NewestMatching(files, status, series, sessionId)
    ensures limit >= 0 ==> |r| <= limit
    ensures var n := |NewestMatching(files, status, series, sessionId)|;
            |r| == if 0 <= limit < n then limit else n
  {
    SqlLimit(NewestMatching(files, status, series, sessionId), limit)
  }

  /** Every matching row is among the newest-first rows. */
  lemma {:induction false} NewestMatchingComplete(files: seq<FileRow>, status: Option<string>, series: Option<string>,
                                                  sessionId: Option<int>, i: nat)
    requires i < |files| && Selected(files[i], status, series, sessionId)
    ensures files[i] in NewestMatching(files, status, series, sessionId)
    decreases |files|
  {
    if i < |files| - 1 {
      var init := files[..|files| - 1];
      NewestMatchingComplete(init, status, series, sessionId, i);
      assert init[i] == files[i];
    }
  }

  /** Without a limit that cuts, every matching row is listed. */
  lemma ProcessedFilesComplete(files: seq<FileRow>, status: Option<string>, series: Option<string>,
                               sessionId: Option<int>, limit: int)
    requires limit < 0 || |NewestMatching(files, status, series, sessionId)| <= limit
    ensures forall i :: 0 <= i < |files| && Selected(files[i], status, series, sessionId)
                        ==> files[i] in ProcessedFiles(files, status, series, sessionId, limit)
  {
    forall i | 0 <= i < |files| && Selected(files[i], status, series, sessionId)
      ensures files[i] in ProcessedFiles(files, status, series, sessionId, limit)
    {
      NewestMatchingComplete(files, status, series, sessionId, i);
    }
  }

  /** Ids rise along the rows (the table's insertion order). */
  predicate IdsAscending(rows: seq<FileRow>) {
    forall i, j :: 0 <= i < j < |rows| ==> rows[i].id < rows[j].id
  }

  /** Ids fall along the rows (newest first). */
  predicate IdsDescending(rows: seq<FileRow>) {
    forall i, j :: 0 <= i < j < |rows| ==> rows[i].id > rows[j].id
  }

  /** The rows before the last one still rise, and all lie below the last one. */
  lemma AscendingInit(rows: seq<FileRow>)
    requires rows != [] && IdsAscending(rows)
    ensures IdsAscending(rows[..|rows| - 1])
    ensures forall k :: 0 <= k < |rows| - 1 ==> rows[k].id < rows[|rows| - 1].id
  {
  }

  /** With ids increasing along the table, the rows come out in descending id order. */
  lemma {:induction false} NewestMatchingDescending(files: seq<FileRow>, status: Option<string>, series: Option<string>,
                                                    sessionId: Option<int>)
    requires IdsAscending(files)
    ensures IdsDescending(NewestMatching(files, status, series, sessionId))
    decreases |files|
  {
    if files != [] {
      var init := files[..|files| - 1];
      var last := files[|files| - 1];
      AscendingInit(files);
      NewestMatchingDescending(init, status, series, sessionId);
      var rest := NewestMatching(init, status, series, sessionId);
      var r := NewestMatching(files, status, series, sessionId);
      NewestMatchingBelow(init, status, series, sessionId, last.id);
      if Selected(last, status, series, sessionId) {
        ConsDescending(last, rest);
        assert r == [last] + rest;
      } else {
        assert r == rest;
      }
    }
  }

  /** A row above every id of a descending list can go in front of it. */
  lemma ConsDescending(last: FileRow, rest: seq<FileRow>)
    requires IdsDescending(rest)
    requires forall k :: 0 <= k < |rest| ==> rest[k].id < last.id
    ensures IdsDescending([last] + rest)
  {
    var r := [last] + rest;
    forall i, j | 0 <= i < j < |r|
      ensures r[i].id > r[j].id
    {
      assert r[j] == rest[j - 1];
      if i > 0 {
        assert r[i] == rest[i - 1];
      }
    }
  }

  /** Every listed row has an id below a bound all rows respect. */
  lemma NewestMatchingBelow(files: seq<FileRow>, status: Option<string>, series: Option<string>,
                            sessionId: Option<int>, bound: int)
    requires forall i :: 0 <= i < |files| ==> files[i].id < bound
    ensures forall k :: 0 <= k < |NewestMatching(files, status, series, sessionId)|
                        ==> NewestMatching(files, status, series, sessionId)[k].id < bound
  {
  }

  /** `get_processed_files` lists its rows newest first. */
  lemma ProcessedFilesNewestFirst(files: seq<FileRow>, status: Option<string>, series: Option<string>,
                                  sessionId: Option<int>, limit: int)
    requires IdsAscending(files)
    ensures IdsDescending(ProcessedFiles(files, status, series, sessionId, limit))
  {
    NewestMatchingDescending(files, status, series, sessionId);
    var all := NewestMatching(files, status, series, sessionId);
    var r := ProcessedFiles(files, status, series, sessionId, limit);
    assert r <= all;
    forall i, j | 0 <= i < j < |r|
      ensures r[i].id > r[j].id
    {
      assert r[i] == all[i] && r[j] == all[j];
    }
  }

  /** A matching row the limit leaves out is older than every row listed. */
  lemma ProcessedFilesKeepsNewest(files: seq<FileRow>, status: Option<string>, series: Option<string>,
                                  sessionId: Option<int>, limit: int, k: nat)
    requires IdsAscending(files)
    requires k < |files| && Selected(files[k], status, series, sessionId)
    requires files[k] !in ProcessedFiles(files, status, series, sessionId, limit)
    ensures forall i :: 0 <= i < |ProcessedFiles(files, status, series, sessionId, limit)| ==>
              ProcessedFiles(files, status, series, sessionId, limit)[i].id > files[k].id
  {
    var all := NewestMatching(files, status, series, sessionId);
    var r := ProcessedFiles(files, status, series, sessionId, limit);
    NewestMatchingComplete(files, status, series, sessionId, k);
    NewestMatchingDescending(files, status, series, sessionId);
    var j :| 0 <= j < |all| && all[j] == files[k];
    assert forall i :: 0 <= i < |r| ==> r[i] == all[i];
    assert j >= |r|;
  }

  /** A row of `get_session_files`: `processed` says whether its status is `success` or `manual`. */
  datatype SessionFile = SessionFile(path: string, processed: bool, status: Cell, bdgestId: Cell, processedDate: int)

  function FileView(row: FileRow): (v: SessionFile)
    ensures v.path == row.path && v.status == row.status && v.bdgestId == row.bdgestId
    ensures v.processed <==> row.status.Str? && row.status.s in DoneStatuses
  {
    SessionFile(row.path, row.status.Str? && row.status.s in DoneStatuses, row.status, row.bdgestId, row.processedDate)
  }

  /** `v` shows a row of session `sessionId`. */
  ghost predicate FromSession(files: seq<FileRow>, sessionId: int, v: SessionFile) {
    exists i :: 0 <= i < |files| && files[i].sessionId == sessionId && v == FileView(files[i])
  }

  /** `get_session_files(session_id)`: the session's rows, oldest first, with their `processed` flag. */
  function SessionFiles(files: seq<FileRow>, sessionId: int): (r: seq<SessionFile>)
    ensures |r| <= |files|
    ensures forall k :: 0 <= k < |r| ==> FromSession(files, sessionId, r[k])
  {
    if files == [] then []
    else
      var n := |files| - 1;
      var rest := SessionFiles(files[..n], sessionId);
      assert forall k :: 0 <= k < |rest| ==> FromSession(files, sessionId, rest[k]) by {
        forall k | 0 <= k < |rest|
          ensures FromSession(files, sessionId, rest[k])
        {
          var init := files[..n];
          assert FromSession(init, sessionId, rest[k]);
          var i :| 0 <= i < |init| && init[i].sessionId == sessionId && rest[k] == FileView(init[i]);
          assert files[i] == init[i];
        }
      }
      rest + if files[n].sessionId == sessionId then [FileView(files[n])] else []
  }

  /** Every row of the session is listed. */
  lemma {:induction false} SessionFilesComplete(files: seq<FileRow>, sessionId: int, i: nat)
    requires i < |files| && files[i].sessionId == sessionId
    ensures FileView(files[i]) in SessionFiles(files, sessionId)
    decreases |files|
  {
    var n := |files| - 1;
    if i < n {
      SessionFilesComplete(files[..n], sessionId, i);
      assert files[..n][i] == files[i];
    }
  }

  /** `mark_as_processed(file_path, session_id)` on one row: the raw path must match, unnormalised. */
  function Marked(row: FileRow, path: string, sessionId: int): (r: FileRow)
    ensures row.path == path && row.sessionId == sessionId ==> r == row.(status := Str("success"))
    ensures !(row.path == path && row.sessionId == sessionId) ==> r == row
  {
    if row.path == path && row.sessionId == sessionId then row.(status := Str("success")) else row
  }

  /** The new state of a session after `update_session` with its accepted keys `updates`. */
  function Updated(s: Session, updates: map<string, Cell>, now: int): (s': Session)
    requires updates.Keys <= UpdatableFields
    ensures s'.directory == s.directory && s'.pattern == s.pattern && s'.batchMode == s.batchMode
            && s'.strictMode == s.strictMode && s'.numWorkers == s.numWorkers && s'.started == s.started
    ensures s'.status == DictGet(updates, "status", s.status)
    ensures forall k :: k in Counters ==> DictGet(s'.counters, k, Null) == DictGet(updates, k, DictGet(s.counters, k, Null))
    ensures s'.counters.Keys == s.counters.Keys + (updates.Keys - {"status"})
    ensures s'.ended == if DictGet(updates, "status", Null) == Str("completed") then Some(now) else s.ended
  {
    var counters := map k | k in s.counters.Keys + (updates.Keys - {"status"}) ::
                      if k in updates then updates[k] else s.counters[k];
    s.(counters := counters,
       status := DictGet(updates, "status", s.status),
       ended := if DictGet(updates, "status", Null) == Str("completed") then Some(now) else s.ended)
  }

  // ---------------------------------------------------------------- the store

  class Store {
    /** `_normalize_file_path`. */
    const normalise: string -> string
    /** `processed_files`, in insertion order. */
    var files: seq<FileRow>
    /** `processing_sessions`, by id. */
    var sessions: map<int, Session>
    /** The next AUTOINCREMENT id of each table. */
    var nextFileId: int
    var nextSessionId: int
    /** Whether the connection is open; `close()` closes it for good. */
    var isOpen: bool

    /** The schema's constraints and the counters staying ahead of every id. */
    ghost predicate Valid()
      reads this
    {
      1 <= nextFileId && 1 <= nextSessionId
      && (forall i :: 0 <= i < |files| ==>
            1 <= files[i].id < nextFileId && files[i].sessionId in sessions
            && Admits(FileStatuses, files[i].status))
      && (forall i, j :: 0 <= i < j < |files| ==> files[i].path != files[j].path && files[i].id < files[j].id)
      && (forall id :: id in sessions ==> 1 <= id < nextSessionId && Admits(SessionStatuses, sessions[id].status))
    }

    /** A new, empty database with its connection open. */
    constructor(normalise: string -> string)
      ensures Valid() && isOpen && files == [] && sessions == map[]
      ensures this.normalise == normalise
    {
      this.normalise := normalise;
      files := [];
      sessions := map[];
      nextFileId := 1;
      nextSessionId := 1;
      isOpen := true;
    }

    /** `is_processed(file_path)`: some row has the normalised path, whatever its status. */
    method IsProcessed(path: string) returns (r: Outcome<bool>)
      ensures !isOpen ==> r.Raised?
      ensures isOpen ==> r.Returned? && (r.value <==> exists i :: 0 <= i < |files| && files[i].path == normalise(path))
    {
      if !isOpen {
        return Raised("ProgrammingError");
      }
      var found := Find(files, normalise(path));
      return Returned(found.Some?);
    }

    /**
     * `record_processing(file_path, session_id, result)`: insert a row for
     * the normalised path and return its new id; a path already recorded
     * makes the INSERT fail on UNIQUE, and its existing id is returned with
     * nothing changed.
     */
    method RecordProcessing(path: string, sessionId: int, result: map<string, Cell>, hash: string,
                            size: Option<int>, now: int)
      returns (r: Outcome<int>)
      requires Valid()
      modifies this
      ensures Valid() && isOpen == old(isOpen) && sessions == old(sessions) && nextSessionId == old(nextSessionId)
      ensures var p := normalise(path);
              var score := StoredScore(DictGet(result, "score", Integer(0)));
              if score.None? || !old(isOpen) || exists v :: v in BoundValues(result) && !Bindable(v) then
                r.Raised? && files == old(files) && nextFileId == old(nextFileId)
              else if Find(old(files), p).Some? then
                r == Returned(old(files)[Find(old(files), p).value].id)
                && files == old(files) && nextFileId == old(nextFileId)
              else if !Admits(FileStatuses, DictGet(result, "status", Str("unknown"))) || sessionId !in sessions then
                r.Raised? && files == old(files) && nextFileId == old(nextFileId)
              else
                r == Returned(old(nextFileId)) && nextFileId == old(nextFileId) + 1
                && files == old(files) + [RowOf(old(nextFileId), p, hash, size, now, result, score.value, sessionId)]
    {
      var p := normalise(path);
      var score := StoredScore(DictGet(result, "score", Integer(0)));
      if score.None? {
        return Raised("TypeError");
      }
      if !isOpen {
        return Raised("ProgrammingError");
      }
      if exists v :: v in BoundValues(result) && !Bindable(v) {
        return Raised("InterfaceError");
      }
      var existing := Find(files, p);
      if existing.Some? {
        return Returned(files[existing.value].id);
      }
      if !Admits(FileStatuses, DictGet(result, "status", Str("unknown"))) || sessionId !in sessions {
        return Raised("IntegrityError");
      }
      var row := RowOf(nextFileId, p, hash, size, now, result, score.value, sessionId);
      files := files + [row];
      r := Returned(nextFileId);
      nextFileId := nextFileId + 1;
    }

    /** `start_session(...)`: a new `running` session under a fresh id. */
    method StartSession(directory: string, batchMode: bool, strictMode: bool, numWorkers: int, pattern: string,
                        now: int)
      returns (r: Outcome<int>)
      requires Valid()
      modifies this
      ensures Valid() && isOpen == old(isOpen) && files == old(files) && nextFileId == old(nextFileId)
      ensures !old(isOpen) ==> r.Raised? && sessions == old(sessions) && nextSessionId == old(nextSessionId)
      ensures old(isOpen) ==>
                r == Returned(old(nextSessionId)) && old(nextSessionId) !in old(sessions)
                && nextSessionId == old(nextSessionId) + 1
                && sessions == old(sessions)[old(nextSessionId) := NewSession(directory, batchMode, strictMode, numWorkers, pattern, now)]
    {
      if !isOpen {
        return Raised("ProgrammingError");
      }
      var id := nextSessionId;
      sessions := sessions[id := NewSession(directory, batchMode, strictMode, numWorkers, pattern, now)];
      nextSessionId := nextSessionId + 1;
      r := Returned(id);
    }

    /**
     * `update_session(session_id, **kwargs)`: only the counter keys and
     * `status` are applied; with none of them nothing happens at all. A
     * status the CHECK refuses raises; status `completed` also sets the
     * end time.
     */
    method UpdateSession(sessionId: int, kwargs: map<string, Cell>, now: int) returns (r: Outcome<()>)
      requires Valid()
      modifies this
      ensures Valid() && isOpen == old(isOpen) && files == old(files)
      ensures nextFileId == old(nextFileId) && nextSessionId == old(nextSessionId)
      ensures var updates := map k | k in kwargs && k in UpdatableFields :: kwargs[k];
              if updates == map[] then
                r.Returned? && sessions == old(sessions)
              else if !old(isOpen) || exists k :: k in updates && !Bindable(updates[k]) then
                r.Raised? && sessions == old(sessions)
              else if sessionId in old(sessions) && "status" in updates && !Admits(SessionStatuses, updates["status"]) then
                r.Raised? && sessions == old(sessions)
              else
                r.Returned?
                && sessions == if sessionId in old(sessions)
                               then old(sessions)[sessionId := Updated(old(sessions)[sessionId], updates, now)]
                               else old(sessions)
    {
      var updates := map k | k in kwargs && k in UpdatableFields :: kwargs[k];
      if updates == map[] {
        return Returned(());
      }
      if !isOpen {
        return Raised("ProgrammingError");
      }
      if exists k :: k in updates && !Bindable(updates[k]) {
        return Raised("InterfaceError");
      }
      if sessionId in sessions {
        if "status" in updates && !Admits(SessionStatuses, updates["status"]) {
          return Raised("IntegrityError");
        }
        var s' := Updated(sessions[sessionId], updates, now);
        assert Admits(SessionStatuses, s'.status);
        sessions := sessions[sessionId := s'];
      }
      r := Returned(());
    }

    /** `get_session_stats(session_id)`: the session's row, or an empty answer. */
    method GetSessionStats(sessionId: int) returns (r: Outcome<Option<Session>>)
      ensures !isOpen ==> r.Raised?
      ensures isOpen ==> r.Returned? && (r.value.Some? <==> sessionId in sessions)
      ensures isOpen && sessionId in sessions ==> r.value.value == sessions[sessionId]
    {
      if !isOpen {
        return Raised("ProgrammingError");
      }
      if sessionId in sessions {
        return Returned(Some(sessions[sessionId]));
      }
      return Returned(None);
    }

    /** `get_processed_files(status, series, session_id, limit)`. */
    method GetProcessedFiles(status: Option<string>, series: Option<string>, sessionId: Option<int>, limit: int)
      returns (r: Outcome<seq<FileRow>>)
      ensures !isOpen ==> r.Raised?
      ensures isOpen ==> r == Returned(ProcessedFiles(files, status, series, sessionId, limit))
    {
      if !isOpen {
        return Raised("ProgrammingError");
      }
      return Returned(ProcessedFiles(files, status, series, sessionId, limit));
    }

    /**
     * `resume_session(session_id)`: a new `running` session with the
     * directory, modes, worker count and pattern of the given one, whatever
     * its status; the original is left as it was.
     */
    method ResumeSession(sessionId: int, now: int) returns (r: Outcome<int>)
      requires Valid()
      modifies this
      ensures Valid() && isOpen == old(isOpen) && files == old(files) && nextFileId == old(nextFileId)
      ensures !old(isOpen) || sessionId !in old(sessions) ==>
                r.Raised? && sessions == old(sessions) && nextSessionId == old(nextSessionId)
      ensures old(isOpen) && sessionId in old(sessions) ==>
                var o := old(sessions)[sessionId];
                r == Returned(old(nextSessionId)) && r.value != sessionId && r.value !in old(sessions)
                && nextSessionId == old(nextSessionId) + 1
                && sessions == old(sessions)[r.value := NewSession(o.directory, o.batchMode, o.strictMode, o.numWorkers, o.pattern, now)]
    {
      if !isOpen {
        return Raised("ProgrammingError");
      }
      if sessionId !in sessions {
        return Raised("ValueError");
      }
      var o := sessions[sessionId];
      var id := nextSessionId;
      sessions := sessions[id := NewSession(o.directory, o.batchMode, o.strictMode, o.numWorkers, o.pattern, now)];
      nextSessionId := nextSessionId + 1;
      r := Returned(id);
    }

    /** `get_session_files(session_id)`. */
    method GetSessionFiles(sessionId: int) returns (r: Outcome<seq<SessionFile>>)
      ensures !isOpen ==> r.Raised?
      ensures isOpen ==> r == Returned(SessionFiles(files, sessionId))
    {
      if !isOpen {
        return Raised("ProgrammingError");
      }
      return Returned(SessionFiles(files, sessionId));
    }

    /**
     * `mark_as_processed(file_path, session_id)`: status `success` on the
     * row of that session whose stored path equals the argument as given,
     * without normalising it.
     */
    method MarkAsProcessed(path: string, sessionId: int) returns (r: Outcome<()>)
      requires Valid()
      modifies this
      ensures Valid() && isOpen == old(isOpen) && sessions == old(sessions)
      ensures nextFileId == old(nextFileId) && nextSessionId == old(nextSessionId)
      ensures !old(isOpen) ==> r.Raised? && files == old(files)
      ensures old(isOpen) ==> r.Returned? && |files| == |old(files)|
                              && forall i :: 0 <= i < |files| ==> files[i] == Marked(old(files)[i], path, sessionId)
    {
      if !isOpen {
        return Raised("ProgrammingError");
      }
      files := Map((row: FileRow) => Marked(row, path, sessionId), files);
      r := Returned(());
    }

    /** `close()`: every later use of the store raises. */
    method Close()
      modifies this
      ensures !isOpen && files == old(files) && sessions == old(sessions)
      ensures nextFileId == old(nextFileId) && nextSessionId == old(nextSessionId)
    {
      isOpen := false;
    }
  }

  /** Recording a path a second time returns the first id, and the path has exactly that row. */
  method RecordTwice(db: Store, path: string, sessionId: int, result: map<string, Cell>, hash: string,
                     size: Option<int>, now: int)
    returns (first: Outcome<int>, second: Outcome<int>)
    requires db.Valid()
    modifies db
    ensures first.Returned? ==> second == first
    ensures first.Returned? ==>
              var i := Find(db.files, db.normalise(path));
              i.Some? && db.files[i.value].id == first.value
              && forall j :: 0 <= j < |db.files| && j != i.value ==> db.files[j].path != db.normalise(path)
  {
    first := db.RecordProcessing(path, sessionId, result, hash, size, now);
    second := db.RecordProcessing(path, sessionId, result, hash, size, now);
  }
}
