/**
 The audit log ingester: files that grow while they are open, passes that read
 them idempotently into the event table, and deletion of closed files.
 */
module Ingest {
  import opened Wrappers
  import opened Lines

  type Path = string
  type Octets = seq<int>

  const NEWLINE := 10

  /** A parsed audit record: its request id, if it has one, and the stored text. */
  datatype Record = Record(requestId: Option<string>, raw: string)

  /** The primary key of a row: the request id, or else the file and line. */
  datatype Key = ById(id: string) | ByLine(path: Path, lineno: nat)

  type Rows = map<Key, string>

  /**
   How one line reads: whether it is blank, whether it is valid UTF-8, and the record
   it parses to once decoded (with invalid octets replaced when it is not).
   */
  datatype Codec = Codec(blank: Octets -> bool, utf8: Octets -> bool, record: Octets -> Option<Record>)

  function KeyOf(path: Path, lineno: nat, r: Record): Key {
    match r.requestId
    case Some(id) => ById(id)
    case None => ByLine(path, lineno)
  }

  /** Records have the same key exactly when they have the same id, or neither has one and they are the same line of the same file. */
  lemma KeysApart(p: Path, n: nat, r: Record, q: Path, m: nat, t: Record)
    ensures KeyOf(p, n, r) == KeyOf(q, m, t) <==> r.requestId == t.requestId && (r.requestId.None? ==> p == q && n == m)
  {
  }

  /** The row of one line: a line that is not valid UTF-8 waits until the file is closed. */
  function RowAt(codec: Codec, path: Path, lines: seq<Octets>, n: nat, closed: bool): Option<(Key, string)>
    requires n < |lines|
  {
    if codec.blank(lines[n]) || (!closed && !codec.utf8(lines[n])) then None
    else match codec.record(lines[n])
      case Some(r) => Some((KeyOf(path, n, r), r.raw))
      case None => None
  }

  /** A line that counts as bad: not blank, and damaged or not a record. */
  predicate BadAt(codec: Codec, lines: seq<Octets>, n: nat, closed: bool)
    requires n < |lines|
  {
    !codec.blank(lines[n]) && (!codec.utf8(lines[n]) || codec.record(lines[n]).None?)
  }

  /** INSERT OR IGNORE: the first row of a key stays. */
  function Insert(rows: Rows, row: Option<(Key, string)>): Rows {
    if row.None? || row.value.0 in rows then rows else rows[row.value.0 := row.value.1]
  }

  /** The rows after the first `n` lines of a file. */
  function InsertLines(codec: Codec, rows: Rows, path: Path, lines: seq<Octets>, n: nat, closed: bool): Rows
    requires n <= |lines|
  {
    if n == 0 then rows
    else Insert(InsertLines(codec, rows, path, lines, n - 1, closed), RowAt(codec, path, lines, n - 1, closed))
  }

  /** The table after reading a file: it only grows, and rows it had stay as they were. */
  function Ingested(codec: Codec, rows: Rows, path: Path, content: Octets, closed: bool): (r: Rows)
    ensures |rows| <= |r| && rows.Keys <= r.Keys
    ensures forall k :: k in rows ==> r[k] == rows[k]
  {
    var lines := Pieces(content, NEWLINE);
    InsertLinesGrow(codec, rows, path, lines, |lines|, closed);
    InsertLines(codec, rows, path, lines, |lines|, closed)
  }

  /** The keys of the valid records of a complete file. */
  ghost function FileKeys(codec: Codec, path: Path, content: Octets): iset<Key> {
    var lines := Pieces(content, NEWLINE);
    iset n: nat | n < |lines| && RowAt(codec, path, lines, n, true).Some? :: RowAt(codec, path, lines, n, true).value.0
  }

  /** The rows, key and text, of the valid records of a complete file. */
  ghost function FileRows(codec: Codec, path: Path, content: Octets): iset<(Key, string)> {
    var lines := Pieces(content, NEWLINE);
    iset n: nat | n < |lines| && RowAt(codec, path, lines, n, true).Some? :: RowAt(codec, path, lines, n, true).value
  }

  lemma {:induction false} InsertLinesKeys(codec: Codec, rows: Rows, path: Path, lines: seq<Octets>, n: nat, closed: bool)
    requires n <= |lines|
    ensures forall k :: k in InsertLines(codec, rows, path, lines, n, closed) <==>
      k in rows || exists i :: 0 <= i < n && RowAt(codec, path, lines, i, closed).Some? && RowAt(codec, path, lines, i, closed).value.0 == k
  {
    if n > 0 {
      InsertLinesKeys(codec, rows, path, lines, n - 1, closed);
      var row := RowAt(codec, path, lines, n - 1, closed);
      var before, after := InsertLines(codec, rows, path, lines, n - 1, closed), InsertLines(codec, rows, path, lines, n, closed);
      assert forall k :: k in after <==> k in before || (row.Some? && row.value.0 == k);
    }
  }

  /** A row that was not there before comes, key and text, from some line. */
  lemma {:induction false} InsertLinesFrom(codec: Codec, rows: Rows, path: Path, lines: seq<Octets>, n: nat, closed: bool, k: Key)
    requires n <= |lines| && k in InsertLines(codec, rows, path, lines, n, closed)
    ensures var text := InsertLines(codec, rows, path, lines, n, closed)[k];
      || (k in rows && rows[k] == text)
      || exists i :: 0 <= i < n && RowAt(codec, path, lines, i, closed) == Some((k, text))
  {
    if n > 0 && k in InsertLines(codec, rows, path, lines, n - 1, closed) {
      InsertLinesFrom(codec, rows, path, lines, n - 1, closed, k);
    }
  }

  // ---- records, line by line ----

  /** Line `n` of the content is a record: not blank, and it parses. */
  predicate RecordAt(codec: Codec, content: Octets, n: nat, r: Record) {
    var lines := Pieces(content, NEWLINE);
    n < |lines| && !codec.blank(lines[n]) && codec.record(lines[n]) == Some(r)
  }

  /** A record's row: under its id, or else under its file and line. */
  predicate HasRow(rows: Rows, path: Path, n: nat, r: Record) {
    match r.requestId
    case Some(x) => ById(x) in rows
    case None => ByLine(path, n) in rows
  }

  /** Text stored under an id is that of some record with the id; under a line, that of the record there. */
  ghost predicate RowFrom(codec: Codec, files: map<Path, Octets>, k: Key, text: string) {
    match k
    case ById(x) =>
      exists p, n, r :: p in files && RecordAt(codec, files[p], n, r) && r == Record(Some(x), text)
    case ByLine(p, n) => p in files && RecordAt(codec, files[p], n, Record(None, text))
  }

  /** What reading a file stores: every record, but those that are not valid UTF-8 while the file is open. */
  lemma ReadingStores(codec: Codec, rows: Rows, path: Path, content: Octets, closed: bool, n: nat, r: Record)
    requires RecordAt(codec, content, n, r) && (closed || codec.utf8(Pieces(content, NEWLINE)[n]))
    ensures HasRow(Ingested(codec, rows, path, content, closed), path, n, r)
  {
    var lines := Pieces(content, NEWLINE);
    InsertLinesKeys(codec, rows, path, lines, |lines|, closed);
    assert RowAt(codec, path, lines, n, closed) == Some((KeyOf(path, n, r), r.raw));
    assert KeyOf(path, n, r) in InsertLines(codec, rows, path, lines, |lines|, closed);
  }

  // ---- the schedule ----

  /** Where a pass is with the current file. */
  datatype Cursor =
    | Between
    | Looked(path: Path, closed: bool)               // decided whether it is closed, not read yet
    | Stored(path: Path, closed: bool, bad: bool)    // its rows are committed

  datatype Pass = Idle | Running(ingested: nat, deleted: nat, skipped: nat, cursor: Cursor)

  /**
   `written` is everything ever appended to each file, deleted or not; `closed` the
   files that get no further writes; `returned` the sum of the counts passes have
   returned, and `lost` the counts of passes that died before returning.
   */
  datatype State = State(files: map<Path, Octets>, written: map<Path, Octets>, closed: set<Path>,
                         rows: Rows, pass: Pass, returned: nat, lost: nat)

  datatype Outcome = Good | Missing | Failed

  datatype Event =
    | Append(path: Path, data: Octets)
    | Close(path: Path)
    | Start
    | Look(path: Path)
    | Store(outcome: Outcome)
    | Remove(ok: bool)
    | Return
    | Crash

  const INIT := State(map[], map[], {}, map[], Idle, 0, 0)

  function Step(codec: Codec, s: State, e: Event): State {
    match e
    case Append(path, data) =>
      if path in s.closed then s
      else
        var content := (if path in s.written then s.written[path] else []) + data;
        s.(files := s.files[path := content], written := s.written[path := content])
    case Close(path) => s.(closed := s.closed + {path})
    case Start => if s.pass.Idle? then s.(pass := Running(0, 0, 0, Between)) else s
    case Look(path) =>
      if s.pass.Running? && s.pass.cursor.Between? then s.(pass := s.pass.(cursor := Looked(path, path in s.closed))) else s
    case Store(outcome) =>
      if s.pass.Idle? || !s.pass.cursor.Looked? then s
      else
        var Looked(path, closed) := s.pass.cursor;
        if outcome == Failed then s.(pass := s.pass.(skipped := s.pass.skipped + 1, cursor := Between))
        else if outcome == Missing || path !in s.files then s.(pass := s.pass.(cursor := Between))
        else
          var rows := Ingested(codec, s.rows, path, s.files[path], closed);
          s.(rows := rows,
             pass := s.pass.(ingested := s.pass.ingested + (|rows| - |s.rows|),
                             cursor := Stored(path, closed, HasBad(codec, s.files[path], closed))))
    case Remove(ok) =>
      if s.pass.Idle? || !s.pass.cursor.Stored? then s
      else
        var Stored(path, closed, bad) := s.pass.cursor;
        if closed && ok then
          s.(files := s.files - {path}, pass := s.pass.(deleted := s.pass.deleted + 1, cursor := Between))
        else if !closed && bad then s.(pass := s.pass.(skipped := s.pass.skipped + 1, cursor := Between))
        else s.(pass := s.pass.(cursor := Between))
    case Return =>
      if s.pass.Running? && s.pass.cursor.Between? then s.(returned := s.returned + s.pass.ingested, pass := Idle) else s
    case Crash =>
      if s.pass.Running? then s.(lost := s.lost + s.pass.ingested, pass := Idle) else s
  }

  predicate HasBad(codec: Codec, content: Octets, closed: bool) {
    var lines := Pieces(content, NEWLINE);
    exists n :: 0 <= n < |lines| && BadAt(codec, lines, n, closed)
  }

  /** A bad line: damaged, or not a record. */
  predicate Bad(codec: Codec, line: Octets) {
    !codec.blank(line) && (!codec.utf8(line) || codec.record(line).None?)
  }

  lemma HasBadLine(codec: Codec, content: Octets, closed: bool)
    ensures HasBad(codec, content, closed) <==> exists line :: line in Pieces(content, NEWLINE) && Bad(codec, line)
  {
    var lines := Pieces(content, NEWLINE);
    if HasBad(codec, content, closed) {
      var n :| 0 <= n < |lines| && BadAt(codec, lines, n, closed);
      assert lines[n] in lines && Bad(codec, lines[n]);
    }
    if exists line :: line in lines && Bad(codec, line) {
      var line :| line in lines && Bad(codec, line);
      var n :| 0 <= n < |lines| && lines[n] == line;
      assert BadAt(codec, lines, n, closed);
    }
  }

  lemma {:induction false} InsertLinesGrow(codec: Codec, rows: Rows, path: Path, lines: seq<Octets>, n: nat, closed: bool)
    requires n <= |lines|
    ensures |rows| <= |InsertLines(codec, rows, path, lines, n, closed)|
    ensures rows.Keys <= InsertLines(codec, rows, path, lines, n, closed).Keys
    ensures forall k :: k in rows ==> InsertLines(codec, rows, path, lines, n, closed)[k] == rows[k]
  {
    if n > 0 {
      InsertLinesGrow(codec, rows, path, lines, n - 1, closed);
    }
  }

  function Run(codec: Codec, s: State, events: seq<Event>): State
    decreases |events|
  {
    if events == [] then s else Run(codec, Step(codec, s, events[0]), events[1..])
  }

  // ---- what the writer promises ----

  /** A line being written never reads as a record other than the one it ends up being. */
  ghost predicate Unambiguous(codec: Codec, line: Octets) {
    forall t :: t <= line && !codec.blank(t) && codec.record(t).Some? ==>
      !codec.blank(line) && codec.record(line) == codec.record(t)
  }

  ghost predicate CleanFile(codec: Codec, content: Octets) {
    forall n :: 0 <= n < |Pieces(content, NEWLINE)| ==> Unambiguous(codec, Pieces(content, NEWLINE)[n])
  }

  ghost predicate Clean(codec: Codec, files: map<Path, Octets>) {
    forall p :: p in files ==> CleanFile(codec, files[p])
  }

  /** Reading a file early stores only rows of the complete file. */
  lemma EarlyKeys(codec: Codec, rows: Rows, path: Path, content: Octets, whole: Octets, closed: bool, k: Key)
    requires content <= whole && CleanFile(codec, whole)
    requires k in Ingested(codec, rows, path, content, closed)
    ensures var text := Ingested(codec, rows, path, content, closed)[k];
      (k in rows && rows[k] == text) || (k, text) in FileRows(codec, path, whole)
  {
    var lines, all := Pieces(content, NEWLINE), Pieces(whole, NEWLINE);
    InsertLinesFrom(codec, rows, path, lines, |lines|, closed, k);
    var text := Ingested(codec, rows, path, content, closed)[k];
    if !(k in rows && rows[k] == text) {
      var n :| 0 <= n < |lines| && RowAt(codec, path, lines, n, closed) == Some((k, text));
      PiecesOfPrefix(content, whole, NEWLINE, n);
      assert Unambiguous(codec, all[n]);
      assert RowAt(codec, path, all, n, true) == RowAt(codec, path, lines, n, closed);
    }
  }

  /** Reading a closed file stores all its keys. */
  lemma ClosedKeys(codec: Codec, rows: Rows, path: Path, content: Octets, k: Key)
    requires k in FileKeys(codec, path, content)
    ensures k in Ingested(codec, rows, path, content, true)
  {
    var lines := Pieces(content, NEWLINE);
    InsertLinesKeys(codec, rows, path, lines, |lines|, true);
  }

  // ---- what every step keeps ----

  ghost predicate Within(a: map<Path, Octets>, b: map<Path, Octets>) {
    forall p :: p in a ==> p in b && a[p] <= b[p]
  }

  ghost predicate AllStored(codec: Codec, rows: Rows, path: Path, content: Octets) {
    forall k :: k in FileKeys(codec, path, content) ==> k in rows
  }

  ghost function AllKeys(codec: Codec, files: map<Path, Octets>): iset<Key> {
    iset p, k | p in files && k in FileKeys(codec, p, files[p]) :: k
  }

  ghost function AllRows(codec: Codec, files: map<Path, Octets>): iset<(Key, string)> {
    iset p, row | p in files && row in FileRows(codec, p, files[p]) :: row
  }

  ghost predicate FilesOk(s: State) {
    s.files.Keys <= s.written.Keys && forall p :: p in s.files ==> s.files[p] == s.written[p]
  }

  /** A file is gone only once it is closed and every record in it is stored. */
  ghost predicate GoneOk(codec: Codec, s: State) {
    forall p :: p in s.written && p !in s.files ==> p in s.closed && AllStored(codec, s.rows, p, s.written[p])
  }

  ghost predicate CursorOk(codec: Codec, s: State) {
    s.pass.Running? ==>
      match s.pass.cursor
      case Between => true
      case Looked(path, closed) => closed ==> path in s.closed
      case Stored(path, closed, bad) =>
        closed ==> path in s.closed && path in s.written && AllStored(codec, s.rows, path, s.written[path])
  }

  function InProgress(s: State): nat {
    if s.pass.Running? then s.pass.ingested else 0
  }

  /** The invariant; `all` are the rows of everything that will ever have been written. */
  ghost predicate Inv(codec: Codec, s: State, all: iset<(Key, string)>) {
    && FilesOk(s)
    && GoneOk(codec, s)
    && CursorOk(codec, s)
    && (forall k :: k in s.rows ==> (k, s.rows[k]) in all)
    && |s.rows| == s.returned + s.lost + InProgress(s)
  }

  lemma AllStoredMonotone(codec: Codec, rows: Rows, rows': Rows)
    requires rows.Keys <= rows'.Keys
    ensures forall p, c :: AllStored(codec, rows, p, c) ==> AllStored(codec, rows', p, c)
  {
  }

  lemma StoreKeepsInv(codec: Codec, s: State, outcome: Outcome, total: map<Path, Octets>)
    requires Inv(codec, s, AllRows(codec, total)) && Clean(codec, total) && Within(s.written, total)
    ensures Inv(codec, Step(codec, s, Store(outcome)), AllRows(codec, total))
  {
    if s.pass.Running? && s.pass.cursor.Looked? && outcome == Good && s.pass.cursor.path in s.files {
      StoredKeepsInv(codec, s, total);
    } else {
      SkippedKeepsInv(codec, s, outcome, AllRows(codec, total));
    }
  }

  lemma SkippedKeepsInv(codec: Codec, s: State, outcome: Outcome, all: iset<(Key, string)>)
    requires Inv(codec, s, all)
    requires s.pass.Running? && s.pass.cursor.Looked? ==> outcome != Good || s.pass.cursor.path !in s.files
    ensures Inv(codec, Step(codec, s, Store(outcome)), all)
  {
  }

  lemma StoredKeepsInv(codec: Codec, s: State, total: map<Path, Octets>)
    requires Inv(codec, s, AllRows(codec, total)) && Clean(codec, total) && Within(s.written, total)
    requires s.pass.Running? && s.pass.cursor.Looked? && s.pass.cursor.path in s.files
    ensures Inv(codec, Step(codec, s, Store(Good)), AllRows(codec, total))
  {
    var path, closed := s.pass.cursor.path, s.pass.cursor.closed;
    StoredAreWritten(codec, s, path, closed, total);
    StoredPass(codec, s);
    RowsGrow(codec, s, Ingested(codec, s.rows, path, s.files[path], closed), Step(codec, s, Store(Good)).pass, AllRows(codec, total));
  }

  /** What storing a file makes of the rows and of the pass. */
  lemma StoredPass(codec: Codec, s: State)
    requires FilesOk(s) && CursorOk(codec, s) && s.pass.Running? && s.pass.cursor.Looked? && s.pass.cursor.path in s.files
    ensures var path, closed := s.pass.cursor.path, s.pass.cursor.closed;
      var rows, s' := Ingested(codec, s.rows, path, s.files[path], closed), Step(codec, s, Store(Good));
      && s' == s.(rows := rows, pass := s'.pass) && CursorOk(codec, s')
      && |rows| == |s.rows| - InProgress(s) + InProgress(s')
  {
    if s.pass.cursor.closed {
      ClosedAllStored(codec, s.rows, s.pass.cursor.path, s.files[s.pass.cursor.path]);
    }
  }

  /** More rows, of keys that are written, and counted by the pass. */
  lemma RowsGrow(codec: Codec, s: State, rows: Rows, pass: Pass, all: iset<(Key, string)>)
    requires Inv(codec, s, all) && s.rows.Keys <= rows.Keys && forall k :: k in rows ==> (k, rows[k]) in all
    requires CursorOk(codec, s.(rows := rows, pass := pass))
    requires |rows| == s.returned + s.lost + InProgress(s.(rows := rows, pass := pass))
    ensures Inv(codec, s.(rows := rows, pass := pass), all)
  {
    GoneStays(codec, s, rows);
  }

  lemma GoneStays(codec: Codec, s: State, rows: Rows)
    requires GoneOk(codec, s) && s.rows.Keys <= rows.Keys
    ensures forall p :: p in s.written && p !in s.files ==> p in s.closed && AllStored(codec, rows, p, s.written[p])
  {
    AllStoredMonotone(codec, s.rows, rows);
  }

  lemma StoredAreWritten(codec: Codec, s: State, path: Path, closed: bool, total: map<Path, Octets>)
    requires Inv(codec, s, AllRows(codec, total)) && Clean(codec, total) && Within(s.written, total) && path in s.files
    ensures var rows := Ingested(codec, s.rows, path, s.files[path], closed);
      forall k :: k in rows ==> (k, rows[k]) in AllRows(codec, total)
  {
    var rows := Ingested(codec, s.rows, path, s.files[path], closed);
    forall k | k in rows ensures (k, rows[k]) in AllRows(codec, total) {
      EarlyKeys(codec, s.rows, path, s.files[path], total[path], closed, k);
    }
  }

  lemma ClosedAllStored(codec: Codec, rows: Rows, path: Path, content: Octets)
    ensures AllStored(codec, Ingested(codec, rows, path, content, true), path, content)
  {
    forall k | k in FileKeys(codec, path, content) ensures k in Ingested(codec, rows, path, content, true) {
      ClosedKeys(codec, rows, path, content, k);
    }
  }

  lemma AppendKeepsInv(codec: Codec, s: State, path: Path, data: Octets, all: iset<(Key, string)>)
    requires Inv(codec, s, all)
    ensures Inv(codec, Step(codec, s, Append(path, data)), all)
  {
  }

  lemma RemoveKeepsInv(codec: Codec, s: State, ok: bool, all: iset<(Key, string)>)
    requires Inv(codec, s, all)
    ensures Inv(codec, Step(codec, s, Remove(ok)), all)
  {
  }

  /** What is neither writing, storing nor removing leaves files and rows alone. */
  lemma OtherKeepsInv(codec: Codec, s: State, e: Event, all: iset<(Key, string)>)
    requires Inv(codec, s, all) && !e.Append? && !e.Store? && !e.Remove?
    ensures Inv(codec, Step(codec, s, e), all)
  {
  }

  lemma StepKeepsInv(codec: Codec, s: State, e: Event, total: map<Path, Octets>)
    requires Inv(codec, s, AllRows(codec, total)) && Clean(codec, total) && Within(s.written, total)
    ensures Inv(codec, Step(codec, s, e), AllRows(codec, total))
  {
    match e
    case Append(path, data) => AppendKeepsInv(codec, s, path, data, AllRows(codec, total));
    case Store(outcome) => StoreKeepsInv(codec, s, outcome, total);
    case Remove(ok) => RemoveKeepsInv(codec, s, ok, AllRows(codec, total));
    case _ => OtherKeepsInv(codec, s, e, AllRows(codec, total));
  }

  lemma StepWrites(codec: Codec, s: State, e: Event)
    requires FilesOk(s)
    ensures FilesOk(Step(codec, s, e)) && Within(s.written, Step(codec, s, e).written)
  {
  }

  lemma {:induction false} WrittenGrows(codec: Codec, s: State, events: seq<Event>)
    requires FilesOk(s)
    ensures Within(s.written, Run(codec, s, events).written)
    decreases |events|
  {
    if events != [] {
      StepWrites(codec, s, events[0]);
      WrittenGrows(codec, Step(codec, s, events[0]), events[1..]);
    }
  }

  lemma {:induction false} RunKeepsInv(codec: Codec, s: State, events: seq<Event>)
    requires var total := Run(codec, s, events).written;
      Clean(codec, total) && Inv(codec, s, AllRows(codec, total))
    ensures var s' := Run(codec, s, events);
      Inv(codec, s', AllRows(codec, s'.written))
    decreases |events|
  {
    if events != [] {
      WrittenGrows(codec, s, events);
      StepKeepsInv(codec, s, events[0], Run(codec, s, events).written);
      RunKeepsInv(codec, Step(codec, s, events[0]), events[1..]);
    }
  }

  /**
   For every schedule of appends, passes, failures and crashes: a file that is gone has every
   record of it stored, nothing but records is ever stored, under their own keys and with
   their own text, and the counts add up.
   */
  lemma NothingLost(codec: Codec, events: seq<Event>)
    requires Clean(codec, Run(codec, INIT, events).written)
    ensures var s := Run(codec, INIT, events);
      && (forall p, n, r :: p in s.written && p !in s.files && RecordAt(codec, s.written[p], n, r) ==> HasRow(s.rows, p, n, r))
      && (forall k :: k in s.rows ==> RowFrom(codec, s.written, k, s.rows[k]))
      && |s.rows| == s.returned + s.lost + InProgress(s)
  {
    RunKeepsInv(codec, INIT, events);
    var s := Run(codec, INIT, events);
    forall p, n, r | p in s.written && p !in s.files && RecordAt(codec, s.written[p], n, r) ensures HasRow(s.rows, p, n, r) {
      GoneHasRow(codec, s, p, n, r);
    }
    forall k | k in s.rows ensures RowFrom(codec, s.written, k, s.rows[k]) {
      RowIsFrom(codec, s.written, k, s.rows[k]);
    }
  }

  lemma GoneHasRow(codec: Codec, s: State, p: Path, n: nat, r: Record)
    requires GoneOk(codec, s) && p in s.written && p !in s.files && RecordAt(codec, s.written[p], n, r)
    ensures HasRow(s.rows, p, n, r)
  {
    assert AllStored(codec, s.rows, p, s.written[p]);
    assert RowAt(codec, p, Pieces(s.written[p], NEWLINE), n, true) == Some((KeyOf(p, n, r), r.raw));
    assert KeyOf(p, n, r) in FileKeys(codec, p, s.written[p]);
  }

  lemma RowIsFrom(codec: Codec, files: map<Path, Octets>, k: Key, text: string)
    requires (k, text) in AllRows(codec, files)
    ensures RowFrom(codec, files, k, text)
  {
    var p :| p in files && (k, text) in FileRows(codec, p, files[p]);
    var lines := Pieces(files[p], NEWLINE);
    var n: nat :| n < |lines| && RowAt(codec, p, lines, n, true) == Some((k, text));
    var r := codec.record(lines[n]).value;
    assert RecordAt(codec, files[p], n, r);
  }

  /** What has been stored stays, under its key and with its text. */
  lemma {:induction false} RowsStay(codec: Codec, s: State, events: seq<Event>, k: Key)
    requires k in s.rows
    ensures k in Run(codec, s, events).rows && Run(codec, s, events).rows[k] == s.rows[k]
    decreases |events|
  {
    if events != [] {
      RowStays(codec, s, events[0], k);
      RowsStay(codec, Step(codec, s, events[0]), events[1..], k);
    }
  }

  lemma RowStays(codec: Codec, s: State, e: Event, k: Key)
    requires k in s.rows
    ensures k in Step(codec, s, e).rows && Step(codec, s, e).rows[k] == s.rows[k]
  {
  }

  /** The same by keys: those of a file that is gone are stored, and no others ever are. */
  lemma KeysStored(codec: Codec, events: seq<Event>)
    requires Clean(codec, Run(codec, INIT, events).written)
    ensures var s := Run(codec, INIT, events);
      && (forall p, k :: p in s.written && p !in s.files && k in FileKeys(codec, p, s.written[p]) ==> k in s.rows)
      && (forall k :: k in s.rows ==> k in AllKeys(codec, s.written))
  {
    RunKeepsInv(codec, INIT, events);
    var s := Run(codec, INIT, events);
    assert forall p :: p in s.written && p !in s.files ==> AllStored(codec, s.rows, p, s.written[p]);
    forall k | k in s.rows ensures k in AllKeys(codec, s.written) {
      RowHasKey(codec, s.written, k, s.rows[k]);
    }
  }

  lemma RowHasKey(codec: Codec, files: map<Path, Octets>, k: Key, text: string)
    requires (k, text) in AllRows(codec, files)
    ensures k in AllKeys(codec, files)
  {
    var p :| p in files && (k, text) in FileRows(codec, p, files[p]);
    assert k in FileKeys(codec, p, files[p]);
  }

  // ---- the reference: one pass over the complete files ----

  /** One pass over files that are complete and closed, into an empty table, in the given order. */
  function OnePass(codec: Codec, files: map<Path, Octets>, paths: seq<Path>): Rows
    requires forall p :: p in paths ==> p in files
  {
    if paths == [] then map[]
    else Ingested(codec, OnePass(codec, files, paths[..|paths| - 1]), Last(paths), files[Last(paths)], true)
  }

  lemma {:induction false} OnePassKeys(codec: Codec, files: map<Path, Octets>, paths: seq<Path>)
    requires forall p :: p in paths ==> p in files
    ensures forall k :: k in OnePass(codec, files, paths) <==> exists p :: p in paths && k in FileKeys(codec, p, files[p])
  {
    if paths != [] {
      var init, p := paths[..|paths| - 1], Last(paths);
      OnePassKeys(codec, files, init);
      var lines := Pieces(files[p], NEWLINE);
      InsertLinesKeys(codec, OnePass(codec, files, init), p, lines, |lines|, true);
      assert paths == init + [p];
      forall k ensures k in OnePass(codec, files, paths) <==> k in OnePass(codec, files, init) || k in FileKeys(codec, p, files[p]) {
      }
    }
  }

  /**
   Once every file has been ingested and removed, the stored ids are those of a single
   pass over the complete files, whatever the schedule was.
   */
  lemma SameAsOnePass(codec: Codec, events: seq<Event>, paths: seq<Path>)
    requires var s := Run(codec, INIT, events);
      Clean(codec, s.written) && s.files == map[] && forall p :: p in paths <==> p in s.written
    ensures var s := Run(codec, INIT, events);
      s.rows.Keys == OnePass(codec, s.written, paths).Keys
  {
    KeysStored(codec, events);
    var s := Run(codec, INIT, events);
    OnePassKeys(codec, s.written, paths);
    forall k ensures k in s.rows <==> k in OnePass(codec, s.written, paths) {
    }
  }

  /** The `i`-th event kills a pass that has stored rows. */
  predicate KillsCount(codec: Codec, events: seq<Event>, i: nat)
    requires i < |events|
  {
    events[i].Crash? && InProgress(Run(codec, INIT, events[..i])) > 0
  }

  lemma StepLoses(codec: Codec, s: State, e: Event)
    ensures Step(codec, s, e).lost == s.lost + if e.Crash? then InProgress(s) else 0
  {
  }

  /** A count is lost exactly when some pass died with one. */
  lemma {:induction false} LostByCrash(codec: Codec, events: seq<Event>)
    ensures Run(codec, INIT, events).lost > 0 <==> exists i :: 0 <= i < |events| && KillsCount(codec, events, i)
  {
    if events != [] {
      var n := |events| - 1;
      var init := events[..n];
      LostByCrash(codec, init);
      assert events == init + [events[n]];
      RunSnoc(codec, INIT, init, events[n]);
      StepLoses(codec, Run(codec, INIT, init), events[n]);
      forall i | 0 <= i < n ensures KillsCount(codec, events, i) <==> KillsCount(codec, init, i) {
        assert events[..i] == init[..i];
      }
      if Run(codec, INIT, init).lost > 0 {
        var i :| 0 <= i < |init| && KillsCount(codec, init, i);
        assert KillsCount(codec, events, i);
      }
      if events[n].Crash? && InProgress(Run(codec, INIT, init)) > 0 {
        assert KillsCount(codec, events, n);
      }
    }
  }

  /**
   With no pass running, the counts passes have returned add up to the rows stored exactly
   when no crash found a pass that had stored some: such a crash loses its count, not its rows.
   */
  lemma CountsAddUp(codec: Codec, events: seq<Event>)
    requires Clean(codec, Run(codec, INIT, events).written) && Run(codec, INIT, events).pass.Idle?
    ensures var s := Run(codec, INIT, events);
      |s.rows| == s.returned <==> forall i :: 0 <= i < |events| ==> !KillsCount(codec, events, i)
  {
    NothingLost(codec, events);
    LostByCrash(codec, events);
  }

  lemma OneLine(codec: Codec, path: Path, line: Octets, r: Record)
    requires NEWLINE !in line && !codec.blank(line) && codec.record(line) == Some(r)
    ensures Ingested(codec, map[], path, line, true) == map[KeyOf(path, 0, r) := r.raw]
  {
    PiecesWhole(line, NEWLINE);
    assert InsertLines(codec, map[], path, [line], 0, true) == map[];
    assert InsertLines(codec, map[], path, [line], 1, true) == map[KeyOf(path, 0, r) := r.raw];
  }

  lemma ReadyToStore(codec: Codec, path: Path, line: Octets)
    ensures Run(codec, INIT, [Append(path, line), Close(path), Start, Look(path)]) ==
      State(map[path := line], map[path := line], {path}, map[], Running(0, 0, 0, Looked(path, true)), 0, 0)
  {
    assert [] + line == line;
    var s2 := Step(codec, Step(codec, INIT, Append(path, line)), Close(path));
    Run2(codec, INIT, [Append(path, line), Close(path), Start, Look(path)]);
    Run2(codec, s2, [Start, Look(path)]);
  }

  /** For instance a pass that stored one record, then died before returning. */
  lemma CrashLosesCount(codec: Codec, path: Path, line: Octets, r: Record)
    requires NEWLINE !in line && !codec.blank(line) && codec.record(line) == Some(r)
    ensures var s := Run(codec, Run(codec, INIT, [Append(path, line), Close(path), Start, Look(path)]), [Store(Good), Crash]);
      |s.rows| == 1 && s.returned == 0 && s.lost == 1
  {
    ReadyToStore(codec, path, line);
    OneLine(codec, path, line, r);
    var s4 := Run(codec, INIT, [Append(path, line), Close(path), Start, Look(path)]);
    Run2(codec, s4, [Store(Good), Crash]);
    assert Step(codec, s4, Store(Good)).rows == map[KeyOf(path, 0, r) := r.raw];
  }

  lemma Run2(codec: Codec, s: State, events: seq<Event>)
    requires |events| >= 2
    ensures Run(codec, s, events) == Run(codec, Step(codec, Step(codec, s, events[0]), events[1]), events[2..])
  {
    assert events[1..][1..] == events[2..];
    assert Run(codec, s, events) == Run(codec, Step(codec, s, events[0]), events[1..]);
  }

  lemma RunSnoc(codec: Codec, s: State, events: seq<Event>, e: Event)
    ensures Run(codec, s, events + [e]) == Step(codec, Run(codec, s, events), e)
  {
    RunConcat(codec, s, events, [e]);
    var s' := Run(codec, s, events);
    assert Run(codec, s', [e]) == Run(codec, Step(codec, s', e), []);
  }

  lemma {:induction false} RunConcat(codec: Codec, s: State, a: seq<Event>, b: seq<Event>)
    ensures Run(codec, s, a + b) == Run(codec, Run(codec, s, a), b)
    decreases |a|
  {
    if a == [] {
      assert a + b == b;
    } else {
      assert (a + b)[1..] == a[1..] + b;
      RunConcat(codec, Step(codec, s, a[0]), a[1..], b);
    }
  }
}
