/** One ingestion pass, line by line and file by file, updating the table in place. */
module Ingester {
  import opened Lines
  import opened Ingest

  class EventStore {
    const codec: Codec
    var rows: Rows
    var files: map<Path, Octets>
    var closed: set<Path>
    ghost var written: map<Path, Octets>
    ghost var returned: nat
    ghost var lost: nat

    constructor (codec: Codec)
      ensures this.codec == codec && View(Idle) == INIT
    {
      this.codec := codec;
      rows, files, closed, written, returned, lost := map[], map[], {}, map[], 0, 0;
    }

    ghost function View(pass: Pass): State
      reads this
    {
      State(files, written, closed, rows, pass, returned, lost)
    }

    /** The transaction of one file: inserts its records and counts the rows added. */
    method StoreFile(path: Path, content: Octets, isClosed: bool) returns (inserts: nat, bad: bool)
      modifies this`rows
      ensures rows == Ingested(codec, old(rows), path, content, isClosed)
      ensures inserts == |rows| - |old(rows)|
      ensures bad == HasBad(codec, content, isClosed)
      ensures bad <==> exists line :: line in Pieces(content, NEWLINE) && Bad(codec, line)
    {
      HasBadLine(codec, content, isClosed);
      var lines := Pieces(content, NEWLINE);
      inserts, bad := 0, false;
      for n := 0 to |lines|
        invariant rows == InsertLines(codec, old(rows), path, lines, n, isClosed)
        invariant inserts == |rows| - |old(rows)|
        invariant bad <==> exists k :: 0 <= k < n && BadAt(codec, lines, k, isClosed)
      {
        var line := lines[n];
        if codec.blank(line) {
          continue;
        }
        if !codec.utf8(line) {
          assert BadAt(codec, lines, n, isClosed);
          bad := true;
          if !isClosed {
            continue;
          }
        }
        var parsed := codec.record(line);
        if parsed.None? {
          assert BadAt(codec, lines, n, isClosed);
          bad := true;
          continue;
        }
        var key := KeyOf(path, n, parsed.value);
        if key !in rows {
          rows := rows[key := parsed.value.raw];
          inserts := inserts + 1;
        }
      }
    }

    /** A file counts as skipped when it could not be read, or is still open and has a bad line. */
    predicate Skips(files: map<Path, Octets>, path: Path, outcome: Outcome)
      reads this
    {
      outcome == Failed || (outcome == Good && path in files && path !in closed && HasBad(codec, files[path], false))
    }

    /** Reads one file and, when it is closed, removes it: what this adds to each counter. */
    method ReadFile(path: Path, outcome: Outcome, removal: bool) returns (inserts: nat, removed: nat, skips: nat)
      modifies this`rows, this`files
      ensures inserts == |rows| - |old(rows)|
      ensures rows == if outcome == Good && path in old(files) then Ingested(codec, old(rows), path, old(files)[path], path in closed)
                      else old(rows)
      ensures files == if outcome == Good && path in closed && removal then old(files) - {path} else old(files)
      ensures removed == |old(files)| - |files|
      ensures skips == if old(Skips(files, path, outcome)) then 1 else 0
    {
      inserts, removed, skips := 0, 0, 0;
      var isClosed := path in closed;
      if outcome == Failed {
        skips := 1;
      } else if outcome == Good && path in files {
        var bad;
        inserts, bad := StoreFile(path, files[path], isClosed);
        if isClosed {
          if removal {
            files := files - {path};
            removed := 1;
          }
        } else if bad {
          skips := 1;
        }
      }
    }

    /** One file of a pass: the counters after it. */
    method IngestFile(path: Path, outcome: Outcome, removal: bool, ingestedIn: nat, deletedIn: nat, skippedIn: nat)
      returns (ingested: nat, deleted: nat, skipped: nat)
      modifies this`rows, this`files
      ensures Dealt(codec, old(View(Running(ingestedIn, deletedIn, skippedIn, Between))),
                    View(Running(ingested, deleted, skipped, Between)), path, outcome, removal)
    {
      var inserts, removed, skips := ReadFile(path, outcome, removal);
      ingested, deleted, skipped := ingestedIn + inserts, deletedIn + removed, skippedIn + skips;
    }

    /**
     A pass over `paths` is the run of its files' steps, for any outcome of reading and
     of removing each file; it returns the counts that run arrives at.
     */
    method IngestDir(paths: seq<Path>, outcomes: seq<Outcome>, removals: seq<bool>)
      returns (ingested: nat, deleted: nat, skipped: nat)
      requires |outcomes| == |removals| == |paths|
      modifies this
      ensures View(Idle) == Run(codec, old(View(Idle)), PassEvents(paths, outcomes, removals))
      ensures ingested == |rows| - |old(rows)| && returned == old(returned) + ingested
      ensures deleted == |old(files)| - |files|
      ensures closed == old(closed) && Removed(old(files), files, closed, paths, outcomes, removals)
    {
      ingested, deleted, skipped := 0, 0, 0;
      ghost var start := View(Idle);
      DirStart(codec, start, paths, outcomes, removals);
      for i := 0 to |paths|
        invariant DirInv(codec, start, View(Running(ingested, deleted, skipped, Between)), paths, outcomes, removals, i)
      {
        ghost var before := View(Running(ingested, deleted, skipped, Between));
        ingested, deleted, skipped := IngestFile(paths[i], outcomes[i], removals[i], ingested, deleted, skipped);
        DirStep(codec, start, before, View(Running(ingested, deleted, skipped, Between)), paths, outcomes, removals, i);
      }
      DirEnd(codec, start, View(Running(ingested, deleted, skipped, Between)), paths, outcomes, removals);
      returned := returned + ingested;
    }
  }

  /** What dealing with one file does to rows, files and counters. */
  ghost predicate Dealt(codec: Codec, s: State, s': State, path: Path, outcome: Outcome, removal: bool) {
    && s.pass.Running? && s.pass.cursor.Between? && s'.pass.Running? && s'.pass.cursor.Between?
    && s' == s.(rows := s'.rows, files := s'.files, pass := s'.pass)
    && s'.rows == (if outcome == Good && path in s.files then Ingested(codec, s.rows, path, s.files[path], path in s.closed) else s.rows)
    && s'.files == (if outcome == Good && path in s.closed && removal then s.files - {path} else s.files)
    && s'.pass.ingested - s.pass.ingested == |s'.rows| - |s.rows|
    && s'.pass.deleted - s.pass.deleted == |s.files| - |s'.files|
    && s'.pass.skipped - s.pass.skipped ==
         if outcome == Failed || (outcome == Good && path in s.files && path !in s.closed && HasBad(codec, s.files[path], false))
         then 1 else 0
  }

  /** After `i` files of a pass. */
  ghost predicate DirInv(codec: Codec, start: State, s: State, paths: seq<Path>, outcomes: seq<Outcome>, removals: seq<bool>, i: nat)
    requires |outcomes| == |removals| == |paths| && i <= |paths|
  {
    && s == Run(codec, start, [Start] + FileEvents(paths[..i], outcomes[..i], removals[..i]))
    && s.pass.Running? && s.pass.cursor.Between?
    && s.pass.ingested == |s.rows| - |start.rows| && s.pass.deleted == |start.files| - |s.files|
    && s.closed == start.closed && s.returned == start.returned
    && Removed(start.files, s.files, s.closed, paths[..i], outcomes[..i], removals[..i])
  }

  lemma DirStart(codec: Codec, start: State, paths: seq<Path>, outcomes: seq<Outcome>, removals: seq<bool>)
    requires |outcomes| == |removals| == |paths| && start.pass.Idle?
    ensures DirInv(codec, start, start.(pass := Running(0, 0, 0, Between)), paths, outcomes, removals, 0)
  {
    assert [Start] + FileEvents([], [], []) == [Start];
    assert Run(codec, start, [Start]) == Run(codec, Step(codec, start, Start), []);
  }

  lemma DirStep(codec: Codec, start: State, s: State, s': State, paths: seq<Path>, outcomes: seq<Outcome>, removals: seq<bool>, i: nat)
    requires |outcomes| == |removals| == |paths| && i < |paths|
    requires DirInv(codec, start, s, paths, outcomes, removals, i) && Dealt(codec, s, s', paths[i], outcomes[i], removals[i])
    ensures DirInv(codec, start, s', paths, outcomes, removals, i + 1)
  {
    var events := [Start] + FileEvents(paths[..i], outcomes[..i], removals[..i]);
    var more := [Look(paths[i]), Store(outcomes[i]), Remove(removals[i])];
    FileNext(codec, start, events, s, s', paths[i], outcomes[i], removals[i]);
    FileEventsSnoc(paths, outcomes, removals, i);
    Reassociate([Start], FileEvents(paths[..i], outcomes[..i], removals[..i]), more);
    RemovedStep(start.files, s.files, s'.files, s.closed, paths, outcomes, removals, i);
  }

  lemma DirEnd(codec: Codec, start: State, s: State, paths: seq<Path>, outcomes: seq<Outcome>, removals: seq<bool>)
    requires |outcomes| == |removals| == |paths| && DirInv(codec, start, s, paths, outcomes, removals, |paths|)
    ensures s.(returned := s.returned + s.pass.ingested, pass := Idle) == Run(codec, start, PassEvents(paths, outcomes, removals))
    ensures Removed(start.files, s.files, s.closed, paths, outcomes, removals)
  {
    assert paths[..|paths|] == paths && outcomes[..|paths|] == outcomes && removals[..|paths|] == removals;
    RunSnoc(codec, start, [Start] + FileEvents(paths, outcomes, removals), Return);
  }

  /** The run of the three steps of a file. */
  ghost function FileSteps(codec: Codec, s: State, path: Path, outcome: Outcome, removal: bool): State {
    Run(codec, s, [Look(path), Store(outcome), Remove(removal)])
  }

  lemma ThreeSteps(codec: Codec, s: State, path: Path, outcome: Outcome, removal: bool)
    ensures FileSteps(codec, s, path, outcome, removal) ==
      Step(codec, Step(codec, Step(codec, s, Look(path)), Store(outcome)), Remove(removal))
  {
    var events := [Look(path), Store(outcome), Remove(removal)];
    Run2(codec, s, events);
    var s2 := Step(codec, Step(codec, s, events[0]), events[1]);
    assert events[2..] == [Remove(removal)];
    assert Run(codec, s2, [Remove(removal)]) == Run(codec, Step(codec, s2, Remove(removal)), []);
  }

  lemma FileSkipped(codec: Codec, s: State, path: Path, outcome: Outcome, removal: bool)
    requires s.pass.Running? && s.pass.cursor.Between? && (outcome == Good ==> path !in s.files)
    ensures FileSteps(codec, s, path, outcome, removal) ==
      s.(pass := s.pass.(skipped := s.pass.skipped + if outcome == Failed then 1 else 0))
  {
    ThreeSteps(codec, s, path, outcome, removal);
  }

  /** The pass after a file that is read. */
  function PassAfter(pass: Pass, inserts: nat, removed: nat, skips: nat): Pass
    requires pass.Running?
  {
    Running(pass.ingested + inserts, pass.deleted + removed, pass.skipped + skips, Between)
  }

  lemma FileRead(codec: Codec, s: State, path: Path, removal: bool)
    requires s.pass.Running? && s.pass.cursor.Between? && path in s.files
    ensures var closed, content := path in s.closed, s.files[path];
      var rows, gone := Ingested(codec, s.rows, path, content, closed), closed && removal;
      FileSteps(codec, s, path, Good, removal) ==
        s.(rows := rows, files := if gone then s.files - {path} else s.files,
           pass := PassAfter(s.pass, |rows| - |s.rows|, if gone then 1 else 0,
                             if !closed && HasBad(codec, content, false) then 1 else 0))
  {
    ThreeSteps(codec, s, path, Good, removal);
  }

  lemma Removing(files: map<Path, Octets>, path: Path)
    ensures if path in files then |files - {path}| == |files| - 1 else files - {path} == files
  {
    var fewer := files - {path};
    if path in files {
      assert fewer.Keys == files.Keys - {path};
      assert |fewer| == |fewer.Keys| && |files| == |files.Keys|;
    } else {
      assert fewer == files;
    }
  }

  lemma ReadParts(codec: Codec, s: State, path: Path, removal: bool, removed: nat, skips: nat)
    requires s.pass.Running? && s.pass.cursor.Between? && path in s.files
    requires removed == if path in s.closed && removal then 1 else 0
    requires skips == if path !in s.closed && HasBad(codec, s.files[path], false) then 1 else 0
    ensures var rows := Ingested(codec, s.rows, path, s.files[path], path in s.closed);
      s.(rows := rows, files := if path in s.closed && removal then s.files - {path} else s.files,
         pass := PassAfter(s.pass, |rows| - |s.rows|, removed, skips)) ==
      FileSteps(codec, s, path, Good, removal)
  {
    FileRead(codec, s, path, removal);
  }

  lemma DealtParts(codec: Codec, s: State, s': State, path: Path, outcome: Outcome, removal: bool) returns (inserts: nat, removed: nat, skips: nat)
    requires Dealt(codec, s, s', path, outcome, removal)
    ensures inserts == |s'.rows| - |s.rows| && removed == |s.files| - |s'.files|
    ensures skips == if outcome == Failed || (outcome == Good && path in s.files && path !in s.closed
                                              && HasBad(codec, s.files[path], false)) then 1 else 0
    ensures s' == s.(rows := s'.rows, files := s'.files, pass := PassAfter(s.pass, inserts, removed, skips))
  {
    Removing(s.files, path);
    inserts, removed := |s'.rows| - |s.rows|, |s.files| - |s'.files|;
    skips := s'.pass.skipped - s.pass.skipped;
  }

  /** Dealing with a file is taking its steps. */
  lemma FileDone(codec: Codec, s: State, s': State, path: Path, outcome: Outcome, removal: bool)
    requires Dealt(codec, s, s', path, outcome, removal)
    ensures s' == FileSteps(codec, s, path, outcome, removal)
  {
    if outcome == Good && path in s.files {
      ReadDone(codec, s, s', path, removal);
    } else {
      SkippedDone(codec, s, s', path, outcome, removal);
    }
  }

  lemma ReadDone(codec: Codec, s: State, s': State, path: Path, removal: bool)
    requires Dealt(codec, s, s', path, Good, removal) && path in s.files
    ensures s' == FileSteps(codec, s, path, Good, removal)
  {
    var inserts, removed, skips := DealtParts(codec, s, s', path, Good, removal);
    Removing(s.files, path);
    ReadParts(codec, s, path, removal, removed, skips);
  }

  lemma SkippedDone(codec: Codec, s: State, s': State, path: Path, outcome: Outcome, removal: bool)
    requires Dealt(codec, s, s', path, outcome, removal) && (outcome == Good ==> path !in s.files)
    ensures s' == FileSteps(codec, s, path, outcome, removal)
  {
    Removing(s.files, path);
    FileSkipped(codec, s, path, outcome, removal);
    assert s'.files == s.files;
  }

  /** What a pass over some files has removed: only closed ones among them, and each that it read and could remove. */
  ghost predicate Removed(before: map<Path, Octets>, after: map<Path, Octets>, closed: set<Path>,
                          paths: seq<Path>, outcomes: seq<Outcome>, removals: seq<bool>)
    requires |outcomes| == |removals| == |paths|
  {
    && after.Keys <= before.Keys
    && (forall q :: q in before && q !in after ==> q in closed && q in paths)
    && forall i :: 0 <= i < |paths| && outcomes[i] == Good && removals[i] && paths[i] in closed ==> paths[i] !in after
  }

  lemma RemovedStep(before: map<Path, Octets>, mid: map<Path, Octets>, after: map<Path, Octets>, closed: set<Path>,
                    paths: seq<Path>, outcomes: seq<Outcome>, removals: seq<bool>, i: nat)
    requires |outcomes| == |removals| == |paths| && i < |paths|
    requires Removed(before, mid, closed, paths[..i], outcomes[..i], removals[..i])
    requires after == if outcomes[i] == Good && paths[i] in closed && removals[i] then mid - {paths[i]} else mid
    ensures Removed(before, after, closed, paths[..i + 1], outcomes[..i + 1], removals[..i + 1])
  {
    assert paths[..i + 1] == paths[..i] + [paths[i]];
    assert outcomes[..i + 1] == outcomes[..i] + [outcomes[i]] && removals[..i + 1] == removals[..i] + [removals[i]];
  }

  function FileEvents(paths: seq<Path>, outcomes: seq<Outcome>, removals: seq<bool>): seq<Event>
    requires |outcomes| == |removals| == |paths|
  {
    if paths == [] then []
    else
      var n := |paths| - 1;
      FileEvents(paths[..n], outcomes[..n], removals[..n]) + [Look(paths[n]), Store(outcomes[n]), Remove(removals[n])]
  }

  function PassEvents(paths: seq<Path>, outcomes: seq<Outcome>, removals: seq<bool>): seq<Event>
    requires |outcomes| == |removals| == |paths|
  {
    [Start] + FileEvents(paths, outcomes, removals) + [Return]
  }

  lemma FileEventsSnoc(paths: seq<Path>, outcomes: seq<Outcome>, removals: seq<bool>, i: nat)
    requires |outcomes| == |removals| == |paths| && i < |paths|
    ensures FileEvents(paths[..i + 1], outcomes[..i + 1], removals[..i + 1]) ==
      FileEvents(paths[..i], outcomes[..i], removals[..i]) + [Look(paths[i]), Store(outcomes[i]), Remove(removals[i])]
  {
    assert paths[..i + 1][..i] == paths[..i] && outcomes[..i + 1][..i] == outcomes[..i] && removals[..i + 1][..i] == removals[..i];
  }

  /** Dealing with one more file takes the run three steps further. */
  lemma FileNext(codec: Codec, start: State, events: seq<Event>, s: State, s': State, path: Path, outcome: Outcome, removal: bool)
    requires s == Run(codec, start, events) && Dealt(codec, s, s', path, outcome, removal)
    ensures s' == Run(codec, start, events + [Look(path), Store(outcome), Remove(removal)])
  {
    FileDone(codec, s, s', path, outcome, removal);
    RunConcat(codec, start, events, [Look(path), Store(outcome), Remove(removal)]);
  }
}
