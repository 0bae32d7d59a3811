/**
 Writes proposed by the model: rows moved by compare-and-set, and the handlers
 that move them, as interleaved atomic steps.
 */
module Actions {
  import opened Wrappers
  import Text

  type Id = nat
  type Request = nat

  datatype Status = Pending | Executing | Executed | Failed | Rejected | Expired

  /** One row of assistant_actions; `args`, `result` and digests are the stored texts. */
  datatype Action = Action(
    conversation: nat, tool: string, args: string, argsHash: string,
    risks: seq<string>, confirmText: Option<string>, beforeHash: Option<string>, expiresAt: int,
    status: Status, result: Option<string>, error: Option<string>)

  type Rows = map<Id, Action>

  /** UPDATE ... SET status, result = COALESCE(?, result), error WHERE id = ? AND status = ?. */
  function CompareAndSet(rows: Rows, id: Id, expected: Status, status: Status,
                         result: Option<string>, error: Option<string>): Rows
  {
    if id in rows && rows[id].status == expected then
      rows[id := rows[id].(status := status,
                           result := if result.Some? then result else rows[id].result,
                           error := error)]
    else rows
  }

  function ExpireConversation(rows: Rows, conversation: nat): Rows {
    map id | id in rows ::
      if rows[id].conversation == conversation && rows[id].status == Pending then rows[id].(status := Expired) else rows[id]
  }

  function DeleteConversation(rows: Rows, conversation: nat): Rows {
    map id | id in rows && rows[id].conversation != conversation :: rows[id]
  }

  // ---- handlers in flight ----

  /** What an authorize request holds between two of its steps. */
  datatype Phase =
    | Ready(id: Id, reviewed: Action, readAt: int, typed: Option<string>)  // checks passed, nothing claimed yet
    | Holding(id: Id, claimed: Action)                                     // claimed, not yet carried out
    | Returned(id: Id, outcome: Result<string, string>)                    // carried out or refused, not yet recorded

  /** What happened to one action. */
  datatype Entry =
    | Claimed(reviewed: Action, readAt: int, typed: Option<string>, claimedAt: int)
    | Ran(tool: string, args: string, digest: Option<string>, outcome: Result<string, string>)
    | Stopped(seen: Option<Option<string>>)                                // claimed, but not carried out for what was read
    | Recorded                                                             // its outcome was stored
    | Refused(how: Status)                                                 // rejected, or expired while pending

  /** `history` has an entry for every action ever proposed, deleted ones included. */
  datatype State = State(clock: int, rows: Rows, inflight: map<Request, Phase>, history: map<Id, seq<Entry>>)

  datatype Event =
    | Propose(id: Id, action: Action)
    | Authorize(req: Request, id: Id, typed: Option<string>)
    | Claim(req: Request)
    | Execute(req: Request, seen: Option<Option<string>>, outcome: Result<string, string>)    // None: Kong unreachable
    | Record(req: Request)
    | Crash(req: Request)
    | Reject(id: Id)
    | NewMessage(conversation: nat)
    | Delete(conversation: nat)
    | Tick(ms: nat)

  function Init(now: int): State {
    State(now, map[], map[], map[])
  }

  type Hash = (string, string) -> string

  /** A risky action needs its confirmation text typed back. */
  predicate Confirmed(a: Action, typed: Option<string>) {
    a.risks != [] ==> typed.Some? && a.confirmText == Some(Text.Strip(typed.value))
  }

  /** The three checks made before an action can be claimed. */
  predicate Reviewed(hash: Hash, a: Action, now: int, typed: Option<string>) {
    now <= a.expiresAt && Confirmed(a, typed) && hash(a.tool, a.args) == a.argsHash
  }

  /** The entity still has the digest it had when the change was reviewed. */
  predicate Unchanged(a: Action, digest: Option<string>) {
    a.beforeHash.Some? ==> digest == a.beforeHash
  }

  /** The digest read back, when one was. */
  function Digest(seen: Option<Option<string>>): Option<string> {
    if seen.Some? then seen.value else None
  }

  /** Why a claimed action is not carried out. */
  function Obstacle(a: Action, seen: Option<Option<string>>): string {
    if seen.None? then UNREACHABLE else Changed(a.tool)
  }

  const UNREACHABLE := "Kong is unreachable."

  const KONG_REQUEST := "kong_request"
  const ENTITY_CHANGED := "The entity changed after this action was proposed. Ask the assistant to propose it again."
  const CONFIG_CHANGED :=
    "The Karna configuration changed after this action was proposed. Ask the assistant to propose it again."

  function Changed(tool: string): string {
    if tool == KONG_REQUEST then ENTITY_CHANGED else CONFIG_CHANGED
  }

  predicate IsPending(rows: Rows, id: Id) {
    id in rows && rows[id].status == Pending
  }

  predicate IsExecuting(rows: Rows, id: Id) {
    id in rows && rows[id].status == Executing
  }

  function Noted(history: map<Id, seq<Entry>>, id: Id, e: Entry): map<Id, seq<Entry>> {
    if id in history then history[id := history[id] + [e]] else history
  }

  function Step(hash: Hash, s: State, e: Event): State {
    match e
    case Propose(id, action) =>
      if id in s.history then s
      else s.(rows := s.rows[id := action.(status := Pending, result := None, error := None)],
              history := s.history[id := []])
    case Authorize(req, id, typed) =>
      if req in s.inflight || !IsPending(s.rows, id) then s
      else if s.clock > s.rows[id].expiresAt then Refuse(s, id, Expired)
      else if !Reviewed(hash, s.rows[id], s.clock, typed) then s
      else s.(inflight := s.inflight[req := Ready(id, s.rows[id], s.clock, typed)])
    case Claim(req) =>
      if req !in s.inflight || !s.inflight[req].Ready? then s
      else
        var Ready(id, reviewed, readAt, typed) := s.inflight[req];
        if !IsPending(s.rows, id) then s.(inflight := s.inflight - {req})
        else
          var rows := CompareAndSet(s.rows, id, Pending, Executing, None, None);
          State(s.clock, rows, s.inflight[req := Holding(id, rows[id])],
                Noted(s.history, id, Claimed(reviewed, readAt, typed, s.clock)))
    case Execute(req, seen, outcome) =>
      if req !in s.inflight || !s.inflight[req].Holding? then s
      else
        var Holding(id, a) := s.inflight[req];
        if Unchanged(a, Digest(seen)) then
          s.(inflight := s.inflight[req := Returned(id, outcome)],
             history := Noted(s.history, id, Ran(a.tool, a.args, Digest(seen), outcome)))
        else
          s.(inflight := s.inflight[req := Returned(id, Err(Obstacle(a, seen)))],
             history := Noted(s.history, id, Stopped(seen)))
    case Record(req) =>
      if req !in s.inflight || !s.inflight[req].Returned? then s
      else
        var Returned(id, outcome) := s.inflight[req];
        s.(inflight := s.inflight - {req},
           rows := match outcome
             case Ok(text) => CompareAndSet(s.rows, id, Executing, Executed, Some(text), None)
             case Err(detail) => CompareAndSet(s.rows, id, Executing, Failed, None, Some(Text.Short(detail))),
           history := if IsExecuting(s.rows, id) then Noted(s.history, id, Recorded) else s.history)
    case Crash(req) => s.(inflight := s.inflight - {req})
    case Reject(id) => if IsPending(s.rows, id) then Refuse(s, id, Rejected) else s
    case NewMessage(c) =>
      s.(rows := ExpireConversation(s.rows, c),
         history := map id | id in s.history ::
           if IsPending(s.rows, id) && s.rows[id].conversation == c then s.history[id] + [Refused(Expired)] else s.history[id])
    case Delete(c) => s.(rows := DeleteConversation(s.rows, c))
    case Tick(ms) => s.(clock := s.clock + ms)
  }

  function Refuse(s: State, id: Id, status: Status): State {
    s.(rows := CompareAndSet(s.rows, id, Pending, status, None, None), history := Noted(s.history, id, Refused(status)))
  }

  function Run(hash: Hash, s: State, events: seq<Event>): State
    decreases |events|
  {
    if events == [] then s else Run(hash, Step(hash, s, events[0]), events[1..])
  }

  // ---- what every step keeps ----

  /** Everything about an action but what the compare-and-set writes. */
  predicate SameProposal(a: Action, b: Action) {
    a == b.(status := a.status, result := a.result, error := a.error)
  }

  ghost predicate GoodClaim(hash: Hash, e: Entry) {
    e.Claimed? && Reviewed(hash, e.reviewed, e.readAt, e.typed) && e.readAt <= e.claimedAt
  }

  /** Carried out as reviewed, or stopped for what was read. */
  ghost predicate GoodEnd(a: Action, e: Entry) {
    || (e.Ran? && e.tool == a.tool && e.args == a.args && Unchanged(a, e.digest))
    || (e.Stopped? && !Unchanged(a, Digest(e.seen)))
  }

  /** The only histories there are: nothing yet, refused, or claimed, then ended, then recorded. */
  ghost predicate Lifecycle(hash: Hash, h: seq<Entry>) {
    || h == []
    || (|h| == 1 && h[0].Refused? && h[0].how in {Rejected, Expired})
    || (1 <= |h| <= 3 && GoodClaim(hash, h[0]) && (|h| > 1 ==> GoodEnd(h[0].reviewed, h[1])) && (|h| > 2 ==> h[2].Recorded?))
  }

  /** What came of a claimed action that ended. */
  function Came(a: Action, e: Entry): Result<string, string>
    requires e.Ran? || e.Stopped?
  {
    if e.Ran? then e.outcome else Err(Obstacle(a, e.seen))
  }

  /** Status, result and error after such a history. */
  predicate Fits(a: Action, h: seq<Entry>) {
    if h == [] then a.status == Pending && a.result == None && a.error == None
    else if h[0].Refused? then a.status == h[0].how && a.result == None && a.error == None
    else if |h| <= 2 then a.status == Executing && a.result == None && a.error == None
    else (h[1].Ran? || h[1].Stopped?) && h[0].Claimed? && match Came(h[0].reviewed, h[1])
      case Ok(text) => a.status == Executed && a.result == Some(text) && a.error == None
      case Err(detail) => a.status == Failed && a.result == None && a.error == Some(Text.Short(detail))
  }

  function RowOf(rows: Rows, id: Id): Option<Action> {
    if id in rows then Some(rows[id]) else None
  }

  /** The stored row, if it still exists, tells the same story as the history. */
  ghost predicate RowOk(hash: Hash, row: Option<Action>, h: seq<Entry>) {
    && Lifecycle(hash, h)
    && (row.Some? ==> Fits(row.value, h))
    && (row.Some? && h != [] && h[0].Claimed? ==> SameProposal(row.value, h[0].reviewed))
  }

  ghost predicate PhaseOk(hash: Hash, clock: int, row: Option<Action>, h: seq<Entry>, p: Phase) {
    match p
    case Ready(id, reviewed, readAt, typed) =>
      Reviewed(hash, reviewed, readAt, typed) && readAt <= clock && (row.Some? ==> SameProposal(row.value, reviewed))
    case Holding(id, claimed) =>
      && |h| == 1 && h[0].Claimed? && SameProposal(claimed, h[0].reviewed)
      && (row.Some? ==> row.value.status == Executing)
    case Returned(id, outcome) =>
      && |h| == 2 && h[0].Claimed? && (h[1].Ran? || h[1].Stopped?) && outcome == Came(h[0].reviewed, h[1])
      && (row.Some? ==> row.value.status == Executing)
  }

  ghost predicate RowsOk(hash: Hash, s: State) {
    && s.rows.Keys <= s.history.Keys
    && forall id :: id in s.history ==> RowOk(hash, RowOf(s.rows, id), s.history[id])
  }

  ghost predicate PhasesOk(hash: Hash, s: State) {
    forall r :: r in s.inflight ==>
      var p := s.inflight[r];
      p.id in s.history && PhaseOk(hash, s.clock, RowOf(s.rows, p.id), s.history[p.id], p)
  }

  /** At most one request is past the claim of any one action. */
  ghost predicate OneHolder(inflight: map<Request, Phase>) {
    forall r1, r2 ::
      (r1 in inflight && r2 in inflight && r1 != r2 && !inflight[r1].Ready? && !inflight[r2].Ready?) ==>
        inflight[r1].id != inflight[r2].id
  }

  ghost predicate Inv(hash: Hash, s: State) {
    RowsOk(hash, s) && PhasesOk(hash, s) && OneHolder(s.inflight)
  }

  /** Past the claim, a request is the only one with its action. */
  lemma Sole(hash: Hash, s: State, req: Request, r: Request)
    requires Inv(hash, s) && req in s.inflight && r in s.inflight && r != req
    requires !s.inflight[req].Ready? && s.inflight[r].id == s.inflight[req].id
    ensures s.inflight[r].Ready?
  {
  }

  /** A step that touches one action needs checking at that action only. */
  lemma TouchOne(hash: Hash, s: State, s': State, id: Id)
    requires Inv(hash, s)
    requires id in s.history && s'.history.Keys == s.history.Keys && s'.rows.Keys <= s'.history.Keys
    requires s'.clock == s.clock
    requires forall i :: i in s.history && i != id ==>
      RowOf(s'.rows, i) == RowOf(s.rows, i) && s'.history[i] == s.history[i]
    requires RowOk(hash, RowOf(s'.rows, id), s'.history[id])
    requires OneHolder(s'.inflight)
    requires forall r :: r in s'.inflight ==>
      if s'.inflight[r].id == id then PhaseOk(hash, s'.clock, RowOf(s'.rows, id), s'.history[id], s'.inflight[r])
      else r in s.inflight && s'.inflight[r] == s.inflight[r]
    ensures Inv(hash, s')
  {
  }

  lemma RefuseKeepsInv(hash: Hash, s: State, id: Id, status: Status)
    requires Inv(hash, s) && IsPending(s.rows, id) && status in {Rejected, Expired}
    ensures Inv(hash, Refuse(s, id, status))
  {
    assert RowOk(hash, RowOf(s.rows, id), s.history[id]);
    TouchOne(hash, s, Refuse(s, id, status), id);
  }

  lemma ProposeKeepsInv(hash: Hash, s: State, id: Id, action: Action)
    requires Inv(hash, s)
    ensures Inv(hash, Step(hash, s, Propose(id, action)))
  {
    var s' := Step(hash, s, Propose(id, action));
    assert forall i :: i in s.history ==> RowOf(s'.rows, i) == RowOf(s.rows, i) && s'.history[i] == s.history[i];
  }

  lemma AuthorizeKeepsInv(hash: Hash, s: State, req: Request, id: Id, typed: Option<string>)
    requires Inv(hash, s)
    ensures Inv(hash, Step(hash, s, Authorize(req, id, typed)))
  {
    if req !in s.inflight && IsPending(s.rows, id) && s.clock > s.rows[id].expiresAt {
      RefuseKeepsInv(hash, s, id, Expired);
    }
  }

  /** Nobody holds a pending action. */
  lemma PendingUnheld(hash: Hash, s: State, id: Id, r: Request)
    requires Inv(hash, s) && IsPending(s.rows, id) && r in s.inflight && s.inflight[r].id == id
    ensures s.inflight[r].Ready? && PhaseOk(hash, s.clock, RowOf(s.rows, id), s.history[id], s.inflight[r])
  {
    assert PhaseOk(hash, s.clock, RowOf(s.rows, id), s.history[id], s.inflight[r]);
  }

  /** The row of a pending action once it is claimed. */
  lemma ClaimedRow(hash: Hash, a: Action, h: seq<Entry>, a': Action, e: Entry)
    requires RowOk(hash, Some(a), h) && a.status == Pending && GoodClaim(hash, e) && SameProposal(a, e.reviewed)
    requires a'.status == Executing && SameProposal(a', a) && a'.result == a.result && a'.error == None
    ensures h + [e] == [e] && RowOk(hash, Some(a'), h + [e])
  {
  }

  /** Requests on a pending action stay what they are, still reading, when it is claimed. */
  lemma ReadersStay(hash: Hash, s: State, s': State, id: Id)
    requires Inv(hash, s) && IsPending(s.rows, id) && s'.clock == s.clock && id in s'.history
    requires id in s'.rows && SameProposal(s'.rows[id], s.rows[id])
    ensures forall r :: r in s.inflight && s.inflight[r].id == id ==>
      s.inflight[r].Ready? && PhaseOk(hash, s'.clock, RowOf(s'.rows, id), s'.history[id], s.inflight[r])
  {
    forall r | r in s.inflight && s.inflight[r].id == id
      ensures s.inflight[r].Ready? && PhaseOk(hash, s'.clock, RowOf(s'.rows, id), s'.history[id], s.inflight[r])
    {
      PendingUnheld(hash, s, id, r);
    }
  }

  lemma ClaimKeepsInv(hash: Hash, s: State, req: Request)
    requires Inv(hash, s)
    ensures Inv(hash, Step(hash, s, Claim(req)))
  {
    if req in s.inflight && s.inflight[req].Ready? && IsPending(s.rows, s.inflight[req].id) {
      ClaimedKeepsInv(hash, s, req);
    }
  }

  lemma ClaimedKeepsInv(hash: Hash, s: State, req: Request)
    requires Inv(hash, s) && req in s.inflight && s.inflight[req].Ready? && IsPending(s.rows, s.inflight[req].id)
    ensures Inv(hash, Step(hash, s, Claim(req)))
  {
    var Ready(id, reviewed, readAt, typed) := s.inflight[req];
    var s' := Step(hash, s, Claim(req));
    PendingUnheld(hash, s, id, req);
    assert RowOk(hash, RowOf(s.rows, id), s.history[id]);
    ClaimedRow(hash, s.rows[id], s.history[id], s'.rows[id], Claimed(reviewed, readAt, typed, s.clock));
    ReadersStay(hash, s, s', id);
    TouchOne(hash, s, s', id);
  }

  /** The row and the request of a claimed action that ends. */
  lemma Ended(hash: Hash, clock: int, row: Option<Action>, h: seq<Entry>, p: Phase, e: Entry)
    requires RowOk(hash, row, h) && p.Holding? && PhaseOk(hash, clock, row, h, p) && GoodEnd(p.claimed, e)
    ensures RowOk(hash, row, h + [e]) && PhaseOk(hash, clock, row, h + [e], Returned(p.id, Came(p.claimed, e)))
  {
  }

  /** However a claimed action ends. */
  lemma EndKeepsInv(hash: Hash, s: State, req: Request, e: Entry, outcome: Result<string, string>)
    requires Inv(hash, s) && req in s.inflight && s.inflight[req].Holding?
    requires GoodEnd(s.inflight[req].claimed, e) && outcome == Came(s.inflight[req].claimed, e)
    ensures var id := s.inflight[req].id;
      Inv(hash, s.(inflight := s.inflight[req := Returned(id, outcome)], history := Noted(s.history, id, e)))
  {
    var id := s.inflight[req].id;
    var s' := s.(inflight := s.inflight[req := Returned(id, outcome)], history := Noted(s.history, id, e));
    Ended(hash, s.clock, RowOf(s.rows, id), s.history[id], s.inflight[req], e);
    HolderSteps(hash, s, s', req);
    TouchOne(hash, s, s', id);
  }

  lemma ExecuteKeepsInv(hash: Hash, s: State, req: Request, seen: Option<Option<string>>, outcome: Result<string, string>)
    requires Inv(hash, s)
    ensures Inv(hash, Step(hash, s, Execute(req, seen, outcome)))
  {
    if req in s.inflight && s.inflight[req].Holding? {
      var a := s.inflight[req].claimed;
      if Unchanged(a, Digest(seen)) {
        EndKeepsInv(hash, s, req, Ran(a.tool, a.args, Digest(seen), outcome), outcome);
      } else {
        EndKeepsInv(hash, s, req, Stopped(seen), Err(Obstacle(a, seen)));
      }
    }
  }

  /** Past its claim, a request leaves the others on its action where they were: still reading. */
  lemma HolderSteps(hash: Hash, s: State, s': State, req: Request)
    requires Inv(hash, s) && req in s.inflight && !s.inflight[req].Ready? && s'.clock == s.clock
    requires var id := s.inflight[req].id;
      id in s.history && id in s'.history && (id in s'.rows ==> id in s.rows && SameProposal(s'.rows[id], s.rows[id]))
    ensures forall r :: r in s.inflight && r != req && s.inflight[r].id == s.inflight[req].id ==>
      PhaseOk(hash, s'.clock, RowOf(s'.rows, s.inflight[r].id), s'.history[s.inflight[r].id], s.inflight[r])
  {
    var id := s.inflight[req].id;
    forall r | r in s.inflight && r != req && s.inflight[r].id == id
      ensures PhaseOk(hash, s'.clock, RowOf(s'.rows, id), s'.history[id], s.inflight[r])
    {
      Sole(hash, s, req, r);
      assert PhaseOk(hash, s.clock, RowOf(s.rows, id), s.history[id], s.inflight[r]);
    }
  }

  /** The row of an action that ended, once that is recorded. */
  lemma RecordedRow(hash: Hash, a: Action, h: seq<Entry>, outcome: Result<string, string>, a': Action)
    requires RowOk(hash, Some(a), h) && |h| == 2 && h[0].Claimed? && outcome == Came(h[0].reviewed, h[1])
    requires SameProposal(a', a)
    requires match outcome
      case Ok(text) => a'.status == Executed && a'.result == Some(text) && a'.error == None
      case Err(detail) => a'.status == Failed && a'.result == a.result && a'.error == Some(Text.Short(detail))
    ensures RowOk(hash, Some(a'), h + [Recorded])
  {
  }

  lemma RecordKeepsInv(hash: Hash, s: State, req: Request)
    requires Inv(hash, s)
    ensures Inv(hash, Step(hash, s, Record(req)))
  {
    if req in s.inflight && s.inflight[req].Returned? {
      var Returned(id, outcome) := s.inflight[req];
      var s' := Step(hash, s, Record(req));
      assert PhaseOk(hash, s.clock, RowOf(s.rows, id), s.history[id], s.inflight[req]);
      assert RowOk(hash, RowOf(s.rows, id), s.history[id]);
      if id in s.rows {
        RecordedRow(hash, s.rows[id], s.history[id], outcome, s'.rows[id]);
      }
      HolderSteps(hash, s, s', req);
      TouchOne(hash, s, s', id);
    }
  }

  /** What a new message or a deletion does to one action. */
  ghost predicate Swept(row: Option<Action>, h: seq<Entry>, row': Option<Action>, h': seq<Entry>) {
    || ((row' == row || row' == None) && h' == h)
    || (row.Some? && row.value.status == Pending && row' == Some(row.value.(status := Expired)) && h' == h + [Refused(Expired)])
  }

  lemma SweptOne(hash: Hash, row: Option<Action>, h: seq<Entry>, row': Option<Action>, h': seq<Entry>)
    requires RowOk(hash, row, h) && Swept(row, h, row', h')
    ensures RowOk(hash, row', h')
    ensures forall clock, p :: PhaseOk(hash, clock, row, h, p) ==> PhaseOk(hash, clock, row', h', p)
  {
  }

  lemma SweepKeepsInv(hash: Hash, s: State, s': State)
    requires Inv(hash, s)
    requires s'.clock == s.clock && s'.inflight == s.inflight && s'.history.Keys == s.history.Keys && s'.rows.Keys <= s.rows.Keys
    requires forall id :: id in s.history ==>
      Swept(RowOf(s.rows, id), s.history[id], RowOf(s'.rows, id), s'.history[id])
    ensures Inv(hash, s')
  {
    forall id | id in s.history
      ensures RowOk(hash, RowOf(s'.rows, id), s'.history[id])
      ensures forall p :: PhaseOk(hash, s.clock, RowOf(s.rows, id), s.history[id], p) ==> PhaseOk(hash, s'.clock, RowOf(s'.rows, id), s'.history[id], p)
    {
      SweptOne(hash, RowOf(s.rows, id), s.history[id], RowOf(s'.rows, id), s'.history[id]);
    }
  }

  lemma TickKeepsInv(hash: Hash, s: State, ms: nat)
    requires Inv(hash, s)
    ensures Inv(hash, Step(hash, s, Tick(ms)))
  {
    var s' := Step(hash, s, Tick(ms));
    forall r | r in s'.inflight
      ensures s'.inflight[r].id in s'.history
      ensures PhaseOk(hash, s'.clock, RowOf(s'.rows, s'.inflight[r].id), s'.history[s'.inflight[r].id], s'.inflight[r])
    {
      var p := s.inflight[r];
      assert PhaseOk(hash, s.clock, RowOf(s.rows, p.id), s.history[p.id], p);
    }
  }

  /** The invariant of the whole protocol. */
  lemma StepKeepsInv(hash: Hash, s: State, e: Event)
    requires Inv(hash, s)
    ensures Inv(hash, Step(hash, s, e))
  {
    match e
    case Propose(id, action) => ProposeKeepsInv(hash, s, id, action);
    case Authorize(req, id, typed) => AuthorizeKeepsInv(hash, s, req, id, typed);
    case Claim(req) => ClaimKeepsInv(hash, s, req);
    case Execute(req, seen, outcome) => ExecuteKeepsInv(hash, s, req, seen, outcome);
    case Record(req) => RecordKeepsInv(hash, s, req);
    case Crash(req) =>
    case Tick(ms) => TickKeepsInv(hash, s, ms);
    case Reject(id) => if IsPending(s.rows, id) { RefuseKeepsInv(hash, s, id, Rejected); }
    case NewMessage(c) => SweepKeepsInv(hash, s, Step(hash, s, e));
    case Delete(c) => SweepKeepsInv(hash, s, Step(hash, s, e));
  }

  lemma {:induction false} RunKeepsInv(hash: Hash, s: State, events: seq<Event>)
    requires Inv(hash, s)
    ensures Inv(hash, Run(hash, s, events))
    decreases |events|
  {
    if events != [] {
      StepKeepsInv(hash, s, events[0]);
      RunKeepsInv(hash, Step(hash, s, events[0]), events[1..]);
    }
  }

  /**
   An action that was carried out: once, never refused, and only for a request that had read it no later
   than its limit, with the confirmation typed back if it has risks, its arguments still those that were
   reviewed, and what it changes still as it was then.
   */
  ghost predicate RanAsReviewed(hash: Hash, h: seq<Entry>, k: nat)
    requires k < |h| && h[k].Ran?
  {
    && (forall j :: 0 <= j < |h| && j != k ==> !h[j].Ran? && !h[j].Refused? && !h[j].Stopped?)
    && h[0].Claimed?
    && var (a, typed) := (h[0].reviewed, h[0].typed);
      && h[0].readAt <= a.expiresAt
      && (a.risks != [] ==> typed.Some? && a.confirmText == Some(Text.Strip(typed.value)))
      && h[k].tool == a.tool && h[k].args == a.args && hash(h[k].tool, h[k].args) == a.argsHash
      && (a.beforeHash.Some? ==> h[k].digest == a.beforeHash)
  }

  /** Over every interleaving, that is how an action is carried out, if it is. */
  lemma RunsAtMostOnceAsReviewed(hash: Hash, now: int, events: seq<Event>, id: Id)
    requires id in Run(hash, Init(now), events).history
    ensures var h := Run(hash, Init(now), events).history[id];
      forall k :: 0 <= k < |h| && h[k].Ran? ==> RanAsReviewed(hash, h, k)
  {
    RunKeepsInv(hash, Init(now), events);
    var s := Run(hash, Init(now), events);
    var h := s.history[id];
    assert RowOk(hash, RowOf(s.rows, id), h);
    forall k | 0 <= k < |h| && h[k].Ran? ensures RanAsReviewed(hash, h, k) {
      LifecycleRan(hash, h, k);
    }
  }

  lemma LifecycleRan(hash: Hash, h: seq<Entry>, k: nat)
    requires Lifecycle(hash, h) && k < |h| && h[k].Ran?
    ensures RanAsReviewed(hash, h, k)
  {
  }

  /** What a stored action says of its history, and nothing else: its status, its result and its error. */
  ghost predicate TellsOutcome(a: Action, h: seq<Entry>) {
    && (a.status == Pending <==> h == [])
    && (a.status == Rejected <==> Refused(Rejected) in h)
    && (a.status == Expired <==> Refused(Expired) in h)
    && (a.status == Executing <==> h != [] && h[0].Claimed? && Recorded !in h)
    && (a.status == Executed <==> Recorded in h && exists k :: 0 <= k < |h| && h[k].Ran? && h[k].outcome.Ok?)
    && (a.status == Failed <==>
         Recorded in h && exists k :: 0 <= k < |h| && (h[k].Stopped? || (h[k].Ran? && h[k].outcome.Err?)))
    && (Recorded !in h ==> a.result == None && a.error == None)
    && forall k :: 0 <= k < |h| && Recorded in h ==> TellsEnd(a, h[k])
  }

  /** The result is what the call returned; the error is its detail, or what stopped it, up to 500 characters. */
  ghost predicate TellsEnd(a: Action, e: Entry) {
    match e
    case Ran(_, _, _, Ok(text)) => a.result == Some(text) && a.error == None
    case Ran(_, _, _, Err(detail)) => a.result == None && a.error == Some(Text.Short(detail))
    case Stopped(None) => a.result == None && a.beforeHash.Some? && a.error == Some(Text.Short(UNREACHABLE))
    case Stopped(Some(digest)) =>
      && a.result == None && a.beforeHash.Some? && digest != a.beforeHash
      && a.error == Some(Text.Short(if a.tool == KONG_REQUEST then ENTITY_CHANGED else CONFIG_CHANGED))
    case _ => true
  }

  lemma EndTold(hash: Hash, a: Action, h: seq<Entry>, k: nat)
    requires RowOk(hash, Some(a), h) && |h| == 3 && h[0].Claimed? && k < 3
    ensures TellsEnd(a, h[k])
  {
  }

  lemma RecordedTold(hash: Hash, a: Action, h: seq<Entry>)
    requires RowOk(hash, Some(a), h)
    ensures Recorded in h <==> |h| == 3
    ensures |h| == 3 ==> h[0].Claimed? && h[2] == Recorded
  {
    if |h| == 3 {
      assert h[2] in h;
    }
  }

  /** Over every interleaving, for every action still stored. */
  lemma OutcomeIsTold(hash: Hash, now: int, events: seq<Event>, id: Id)
    requires id in Run(hash, Init(now), events).rows
    ensures id in Run(hash, Init(now), events).history
    ensures TellsOutcome(Run(hash, Init(now), events).rows[id], Run(hash, Init(now), events).history[id])
  {
    RunKeepsInv(hash, Init(now), events);
    var s := Run(hash, Init(now), events);
    RowTold(hash, s.rows[id], s.history[id]);
  }

  /** Before anything is recorded. */
  lemma UnrecordedTold(hash: Hash, a: Action, h: seq<Entry>)
    requires RowOk(hash, Some(a), h) && |h| < 3
    ensures TellsOutcome(a, h)
  {
    if h != [] {
      assert h[0] in h;
    }
  }

  lemma RowTold(hash: Hash, a: Action, h: seq<Entry>)
    requires RowOk(hash, Some(a), h)
    ensures TellsOutcome(a, h)
  {
    if |h| < 3 {
      UnrecordedTold(hash, a, h);
    } else {
      RecordedTold(hash, a, h);
      EndTold(hash, a, h, 0);
      EndTold(hash, a, h, 1);
      EndTold(hash, a, h, 2);
    }
  }

  // ---- the ten-minute limit ----

  /** How much time a schedule lets pass. */
  function Elapsed(events: seq<Event>): nat {
    if events == [] then 0
    else
      var last := events[|events| - 1];
      Elapsed(events[..|events| - 1]) + if last.Tick? then last.ms else 0
  }

  lemma ElapsedSnoc(events: seq<Event>, n: nat)
    requires n < |events|
    ensures Elapsed(events[..n + 1]) == Elapsed(events[..n]) + if events[n].Tick? then events[n].ms else 0
  {
    assert events[..n + 1][..n] == events[..n];
  }

  lemma {:induction false} ElapsedBetween(events: seq<Event>, i: nat, j: nat)
    requires i <= j <= |events|
    ensures Elapsed(events[..j]) == Elapsed(events[..i]) + Elapsed(events[i..j])
  {
    if i < j {
      ElapsedBetween(events, i, j - 1);
      ElapsedSnoc(events, j - 1);
      assert events[i..j][..j - i - 1] == events[i..j - 1];
    }
  }

  lemma {:induction false} RunSnoc(hash: Hash, s: State, events: seq<Event>, e: Event)
    ensures Run(hash, s, events + [e]) == Step(hash, Run(hash, s, events), e)
    decreases |events|
  {
    if events == [] {
      assert [e][1..] == [] && events + [e] == [e];
    } else {
      assert (events + [e])[1..] == events[1..] + [e];
      RunSnoc(hash, Step(hash, s, events[0]), events[1..], e);
    }
  }

  /** The state after the first `n` events. */
  function After(hash: Hash, now: int, events: seq<Event>, n: nat): State
    requires n <= |events|
  {
    Run(hash, Init(now), events[..n])
  }

  lemma AfterStep(hash: Hash, now: int, events: seq<Event>, n: nat)
    requires n < |events|
    ensures After(hash, now, events, n + 1) == Step(hash, After(hash, now, events, n), events[n])
  {
    assert events[..n + 1] == events[..n] + [events[n]];
    RunSnoc(hash, Init(now), events[..n], events[n]);
  }

  /** Event `i` is the check that let `req` through, with the row it read. */
  ghost predicate ChecksAt(hash: Hash, now: int, events: seq<Event>, i: nat, req: Request, id: Id,
                           reviewed: Action, readAt: int, typed: Option<string>)
    requires i < |events|
  {
    && events[i] == Authorize(req, id, typed) && readAt == now + Elapsed(events[..i])
    && RowOf(After(hash, now, events, i).rows, id) == Some(reviewed)
  }

  /** Event `j` is the claim noted as `e`, and event `i` before it the check it rests on. */
  ghost predicate ClaimsAt(hash: Hash, now: int, events: seq<Event>, i: nat, j: nat, id: Id, e: Entry)
    requires i < j < |events| && e.Claimed?
  {
    && events[j].Claim? && e.claimedAt == now + Elapsed(events[..j])
    && ChecksAt(hash, now, events, i, events[j].req, id, e.reviewed, e.readAt, e.typed)
  }

  ghost predicate ReadyTraced(hash: Hash, now: int, events: seq<Event>, n: nat, req: Request, p: Phase)
    requires n <= |events|
  {
    p.Ready? ==> exists i :: 0 <= i < n && ChecksAt(hash, now, events, i, req, p.id, p.reviewed, p.readAt, p.typed)
  }

  ghost predicate EntryTraced(hash: Hash, now: int, events: seq<Event>, n: nat, id: Id, e: Entry)
    requires n <= |events|
  {
    e.Claimed? ==> exists i, j :: 0 <= i < j < n && ClaimsAt(hash, now, events, i, j, id, e)
  }

  ghost predicate Traced(hash: Hash, now: int, events: seq<Event>, n: nat)
    requires n <= |events|
  {
    var s := After(hash, now, events, n);
    && s.clock == now + Elapsed(events[..n])
    && (forall r :: r in s.inflight ==> ReadyTraced(hash, now, events, n, r, s.inflight[r]))
    && forall id, k :: id in s.history && 0 <= k < |s.history[id]| ==> EntryTraced(hash, now, events, n, id, s.history[id][k])
  }

  /** What a step may put in flight or note that was not there before. */
  lemma NewReady(hash: Hash, s: State, e: Event, r: Request)
    requires r in Step(hash, s, e).inflight && Step(hash, s, e).inflight[r].Ready?
    ensures var p := Step(hash, s, e).inflight[r];
      || (r in s.inflight && s.inflight[r] == p)
      || (e == Authorize(r, p.id, p.typed) && p.readAt == s.clock && RowOf(s.rows, p.id) == Some(p.reviewed))
  {
  }

  lemma NewEntry(hash: Hash, s: State, e: Event, id: Id, k: nat)
    requires id in Step(hash, s, e).history && k < |Step(hash, s, e).history[id]| && Step(hash, s, e).history[id][k].Claimed?
    ensures var entry := Step(hash, s, e).history[id][k];
      || (id in s.history && k < |s.history[id]| && s.history[id][k] == entry)
      || (e.Claim? && e.req in s.inflight && s.inflight[e.req] == Ready(id, entry.reviewed, entry.readAt, entry.typed)
          && entry.claimedAt == s.clock)
  {
    match e
    case Claim(req) =>
    case Execute(req, seen, outcome) =>
    case NewMessage(c) =>
    case _ =>
  }

  lemma ClockStep(hash: Hash, s: State, e: Event)
    ensures Step(hash, s, e).clock == s.clock + if e.Tick? then e.ms else 0
  {
  }

  lemma ReadyStep(hash: Hash, now: int, events: seq<Event>, n: nat, r: Request)
    requires n < |events| && Traced(hash, now, events, n)
    requires r in After(hash, now, events, n + 1).inflight
    ensures ReadyTraced(hash, now, events, n + 1, r, After(hash, now, events, n + 1).inflight[r])
  {
    AfterStep(hash, now, events, n);
    var s, p := After(hash, now, events, n), After(hash, now, events, n + 1).inflight[r];
    if p.Ready? {
      NewReady(hash, s, events[n], r);
      if r in s.inflight && s.inflight[r] == p {
        assert ReadyTraced(hash, now, events, n, r, p);
        var i :| 0 <= i < n && ChecksAt(hash, now, events, i, r, p.id, p.reviewed, p.readAt, p.typed);
      } else {
        assert ChecksAt(hash, now, events, n, r, p.id, p.reviewed, p.readAt, p.typed);
      }
    }
  }

  lemma EntryStep(hash: Hash, now: int, events: seq<Event>, n: nat, id: Id, k: nat)
    requires n < |events| && Traced(hash, now, events, n)
    requires id in After(hash, now, events, n + 1).history && k < |After(hash, now, events, n + 1).history[id]|
    ensures EntryTraced(hash, now, events, n + 1, id, After(hash, now, events, n + 1).history[id][k])
  {
    AfterStep(hash, now, events, n);
    var s, e := After(hash, now, events, n), After(hash, now, events, n + 1).history[id][k];
    if e.Claimed? {
      NewEntry(hash, s, events[n], id, k);
      if id in s.history && k < |s.history[id]| && s.history[id][k] == e {
        assert EntryTraced(hash, now, events, n, id, e);
        var i, j :| 0 <= i < j < n && ClaimsAt(hash, now, events, i, j, id, e);
      } else {
        var req := events[n].req;
        assert ReadyTraced(hash, now, events, n, req, s.inflight[req]);
        var i :| 0 <= i < n && ChecksAt(hash, now, events, i, req, id, e.reviewed, e.readAt, e.typed);
        assert ClaimsAt(hash, now, events, i, n, id, e);
      }
    }
  }

  lemma {:induction false} EveryStepTraced(hash: Hash, now: int, events: seq<Event>, n: nat)
    requires n <= |events|
    ensures Traced(hash, now, events, n)
  {
    if n == 0 {
      assert events[..0] == [];
    } else {
      EveryStepTraced(hash, now, events, n - 1);
      AfterStep(hash, now, events, n - 1);
      ElapsedSnoc(events, n - 1);
      ClockStep(hash, After(hash, now, events, n - 1), events[n - 1]);
      var s := After(hash, now, events, n);
      forall r | r in s.inflight ensures ReadyTraced(hash, now, events, n, r, s.inflight[r]) {
        ReadyStep(hash, now, events, n - 1, r);
      }
      forall id, k | id in s.history && 0 <= k < |s.history[id]| ensures EntryTraced(hash, now, events, n, id, s.history[id][k]) {
        EntryStep(hash, now, events, n - 1, id, k);
      }
    }
  }

  lemma ClaimsAreGood(hash: Hash, now: int, events: seq<Event>, id: Id, k: nat)
    requires id in Run(hash, Init(now), events).history
    requires k < |Run(hash, Init(now), events).history[id]| && Run(hash, Init(now), events).history[id][k].Claimed?
    ensures GoodClaim(hash, Run(hash, Init(now), events).history[id][k])
  {
    RunKeepsInv(hash, Init(now), events);
    var s := Run(hash, Init(now), events);
    assert RowOk(hash, RowOf(s.rows, id), s.history[id]);
    LifecycleClaim(hash, s.history[id], k);
  }

  lemma LifecycleClaim(hash: Hash, h: seq<Entry>, k: nat)
    requires Lifecycle(hash, h) && k < |h| && h[k].Claimed?
    ensures GoodClaim(hash, h[k])
  {
  }

  /**
   Over every schedule: a claim rests on an earlier check of the same request, made in time, and is
   late exactly when the time let pass between the two exceeds what the check had left.
   */
  lemma LateOnlyAfterCheck(hash: Hash, now: int, events: seq<Event>, id: Id, k: nat) returns (i: nat, j: nat)
    requires id in Run(hash, Init(now), events).history
    requires k < |Run(hash, Init(now), events).history[id]| && Run(hash, Init(now), events).history[id][k].Claimed?
    ensures var e := Run(hash, Init(now), events).history[id][k];
      && i < j < |events| && events[j].Claim? && events[i] == Authorize(events[j].req, id, e.typed)
      && e.readAt == now + Elapsed(events[..i]) <= e.reviewed.expiresAt && e.readAt <= e.claimedAt
      && (e.claimedAt > e.reviewed.expiresAt <==> Elapsed(events[i..j]) > e.reviewed.expiresAt - (now + Elapsed(events[..i])))
  {
    ClaimsAreGood(hash, now, events, id, k);
    EveryStepTraced(hash, now, events, |events|);
    assert events[..|events|] == events;
    var e := Run(hash, Init(now), events).history[id][k];
    assert EntryTraced(hash, now, events, |events|, id, e);
    i, j :| 0 <= i < j < |events| && ClaimsAt(hash, now, events, i, j, id, e);
    ElapsedBetween(events, i, j);
  }

  /** An action without risks that is what was reviewed, and can be claimed for `left` more milliseconds. */
  predicate Simple(hash: Hash, a: Action, now: int, left: nat) {
    a.risks == [] && a.beforeHash == None && hash(a.tool, a.args) == a.argsHash && a.expiresAt == now + left
  }

  /** For instance a request that is held up longer than that before its claim: the action is run after its limit. */
  lemma LateAfterCheck(hash: Hash, a: Action, now: int, left: nat, wait: nat) returns (events: seq<Event>)
    requires Simple(hash, a, now, left) && wait > left
    ensures var h := Run(hash, Init(now), events).history;
      && 0 in h && |h[0]| == 2 && h[0][0].Claimed? && h[0][1].Ran?
      && h[0][0].reviewed.expiresAt == a.expiresAt && h[0][0].claimedAt == now + wait > a.expiresAt
  {
    events := [Propose(0, a), Authorize(1, 0, None), Tick(wait), Claim(1), Execute(1, None, Ok("done"))];
    var s2 := CheckedInTime(hash, a, now, left, events);
    HeldUp(hash, s2, wait, events[2..]);
  }

  lemma CheckedInTime(hash: Hash, a: Action, now: int, left: nat, events: seq<Event>) returns (s: State)
    requires Simple(hash, a, now, left) && |events| >= 2 && events[0] == Propose(0, a) && events[1] == Authorize(1, 0, None)
    ensures var pending := a.(status := Pending, result := None, error := None);
      && s.inflight == map[1 := Ready(0, pending, now, None)] && 0 in s.rows && s.rows[0] == pending
      && 0 in s.history && s.history[0] == [] && s.clock == now
    ensures Run(hash, Init(now), events) == Run(hash, s, events[2..])
  {
    var s1 := Step(hash, Init(now), events[0]);
    s := Step(hash, s1, events[1]);
    Unfold(hash, Init(now), events);
    Unfold(hash, s1, events[1..]);
    assert events[1..][1..] == events[2..];
  }

  lemma HeldUp(hash: Hash, s: State, wait: nat, events: seq<Event>)
    requires 1 in s.inflight && s.inflight[1].Ready? && s.inflight[1].id == 0
    requires 0 in s.rows && s.rows[0].status == Pending && s.rows[0].beforeHash == None && 0 in s.history && s.history[0] == []
    requires |events| == 3 && events[0] == Tick(wait) && events[1] == Claim(1) && events[2].Execute? && events[2].req == 1
    ensures var h := Run(hash, s, events).history;
      && 0 in h && |h[0]| == 2 && h[0][0].Claimed? && h[0][1].Ran?
      && h[0][0].reviewed == s.inflight[1].reviewed && h[0][0].claimedAt == s.clock + wait
  {
    var s1 := Step(hash, s, events[0]);
    var s2 := Step(hash, s1, events[1]);
    assert s2.inflight[1].Holding? && |s2.history[0]| == 1;
    Unfold(hash, s, events);
    Unfold(hash, s1, events[1..]);
    Unfold(hash, s2, events[1..][1..]);
    assert events[1..][1..][1..] == [];
  }

  lemma Unfold(hash: Hash, s: State, events: seq<Event>)
    requires events != []
    ensures Run(hash, s, events) == Run(hash, Step(hash, s, events[0]), events[1..])
  {
  }

  /** A schedule that lets no time pass while a request stands between its checks and its claim. */
  ghost predicate Prompt(hash: Hash, s: State, events: seq<Event>)
    decreases |events|
  {
    events != [] ==>
      && (events[0].Tick? ==> forall r :: r in s.inflight ==> !s.inflight[r].Ready?)
      && Prompt(hash, Step(hash, s, events[0]), events[1..])
  }

  ghost predicate PromptHistory(h: seq<Entry>) {
    forall k :: 0 <= k < |h| && h[k].Claimed? ==> h[k].claimedAt == h[k].readAt
  }

  ghost predicate PromptState(s: State) {
    && (forall r :: r in s.inflight && s.inflight[r].Ready? ==> s.inflight[r].readAt == s.clock)
    && forall id :: id in s.history ==> PromptHistory(s.history[id])
  }

  lemma {:induction false} PromptRun(hash: Hash, s: State, events: seq<Event>)
    requires PromptState(s) && Prompt(hash, s, events)
    ensures PromptState(Run(hash, s, events))
    decreases |events|
  {
    if events != [] {
      PromptStep(hash, s, events[0]);
      PromptRun(hash, Step(hash, s, events[0]), events[1..]);
    }
  }

  lemma PromptStep(hash: Hash, s: State, e: Event)
    requires PromptState(s) && (e.Tick? ==> forall r :: r in s.inflight ==> !s.inflight[r].Ready?)
    ensures PromptState(Step(hash, s, e))
  {
    var s' := Step(hash, s, e);
    forall id | id in s'.history ensures PromptHistory(s'.history[id]) {
      assert id in s.history ==> PromptHistory(s.history[id]);
    }
  }

  /** So when no time passes there, nothing is ever claimed after its limit. */
  lemma ClaimedInTime(hash: Hash, now: int, events: seq<Event>, id: Id, k: nat)
    requires Prompt(hash, Init(now), events) && id in Run(hash, Init(now), events).history
    requires k < |Run(hash, Init(now), events).history[id]| && Run(hash, Init(now), events).history[id][k].Claimed?
    ensures var e := Run(hash, Init(now), events).history[id][k]; e.claimedAt <= e.reviewed.expiresAt
  {
    PromptRun(hash, Init(now), events);
    ClaimsAreGood(hash, now, events, id, k);
    assert PromptHistory(Run(hash, Init(now), events).history[id]);
  }

  /** Pending goes to executing, rejected or expired; executing to executed or failed; nothing else moves. */
  predicate Moves(a: Status, b: Status) {
    || a == b
    || (a == Pending && b in {Executing, Rejected, Expired})
    || (a == Executing && b in {Executed, Failed})
  }

  /** What is left of an action is the same proposal, its status moved as allowed. */
  ghost predicate MovesAt(s: State, s': State, id: Id) {
    id in s.rows && id in s'.rows ==> Moves(s.rows[id].status, s'.rows[id].status) && SameProposal(s.rows[id], s'.rows[id])
  }

  lemma RefuseMoves(s: State, i: Id, status: Status, id: Id)
    requires status in {Rejected, Expired}
    ensures MovesAt(s, Refuse(s, i, status), id)
  {
  }

  lemma ClaimMoves(hash: Hash, s: State, req: Request, id: Id)
    ensures MovesAt(s, Step(hash, s, Claim(req)), id)
  {
  }

  lemma ExecuteMoves(hash: Hash, s: State, req: Request, seen: Option<Option<string>>, outcome: Result<string, string>, id: Id)
    ensures MovesAt(s, Step(hash, s, Execute(req, seen, outcome)), id)
  {
  }

  lemma SweepMoves(hash: Hash, s: State, e: Event, id: Id)
    requires e.NewMessage? || e.Delete?
    ensures MovesAt(s, Step(hash, s, e), id)
  {
  }

  lemma RecordMoves(hash: Hash, s: State, req: Request, id: Id)
    ensures MovesAt(s, Step(hash, s, Record(req)), id)
  {
    if req in s.inflight && s.inflight[req].Returned? {
      var Returned(i, outcome) := s.inflight[req];
      match outcome
      case Ok(text) =>
      case Err(detail) =>
    }
  }

  lemma AuthorizeMoves(hash: Hash, s: State, req: Request, i: Id, typed: Option<string>, id: Id)
    ensures MovesAt(s, Step(hash, s, Authorize(req, i, typed)), id)
  {
    RefuseMoves(s, i, Expired, id);
  }

  lemma StepMovesStatus(hash: Hash, s: State, e: Event, id: Id)
    requires Inv(hash, s)
    ensures MovesAt(s, Step(hash, s, e), id)
  {
    match e
    case Authorize(req, i, typed) => AuthorizeMoves(hash, s, req, i, typed, id);
    case Reject(i) => RefuseMoves(s, i, Rejected, id);
    case Claim(req) => ClaimMoves(hash, s, req, id);
    case Record(req) => RecordMoves(hash, s, req, id);
    case Execute(req, seen, outcome) => ExecuteMoves(hash, s, req, seen, outcome, id);
    case NewMessage(c) => SweepMoves(hash, s, e, id);
    case Delete(c) => SweepMoves(hash, s, e, id);
    case _ =>
  }

  predicate Final(status: Status) {
    status in {Executed, Failed, Rejected, Expired}
  }

  /** Nothing more can happen to an action: its row is final or gone, and no request is past its claim. */
  ghost predicate Closed(s: State, id: Id) {
    && id in s.history
    && (id in s.rows ==> Final(s.rows[id].status))
    && forall r :: r in s.inflight && s.inflight[r].id == id ==> s.inflight[r].Ready?
  }

  lemma FinalIsClosed(hash: Hash, s: State, id: Id)
    requires Inv(hash, s) && id in s.rows && Final(s.rows[id].status)
    ensures Closed(s, id)
  {
  }

  /** What a step may do to a closed action: nothing, or delete its row. */
  ghost predicate StaysClosed(s: State, s': State, id: Id)
    requires id in s.history
  {
    && Closed(s', id) && s'.history[id] == s.history[id]
    && (RowOf(s'.rows, id) == RowOf(s.rows, id) || RowOf(s'.rows, id) == None)
  }

  lemma HolderKeepsClosed(hash: Hash, s: State, e: Event, id: Id)
    requires Closed(s, id) && (e.Execute? || e.Record?)
    ensures StaysClosed(s, Step(hash, s, e), id)
  {
    if e.req in s.inflight && !s.inflight[e.req].Ready? {
      assert s.inflight[e.req].id != id;
    }
  }

  lemma StepKeepsClosed(hash: Hash, s: State, e: Event, id: Id)
    requires Closed(s, id)
    ensures StaysClosed(s, Step(hash, s, e), id)
  {
    if e.Execute? || e.Record? {
      HolderKeepsClosed(hash, s, e, id);
    }
  }

  /** A final status never changes again, whatever follows: the action is never run or refused later. */
  lemma {:induction false} ClosedForGood(hash: Hash, s: State, events: seq<Event>, id: Id)
    requires Closed(s, id)
    ensures StaysClosed(s, Run(hash, s, events), id)
    decreases |events|
  {
    if events != [] {
      StepKeepsClosed(hash, s, events[0], id);
      ClosedForGood(hash, Step(hash, s, events[0]), events[1..], id);
    }
  }
}
