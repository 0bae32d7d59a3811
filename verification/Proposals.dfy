/**
 Typed proposals: unlike actions they go back to pending when applying fails, so
 the same row can be claimed again and again until one attempt succeeds.
 */
module Proposals {
  import opened Wrappers
  import Text

  type Id = nat
  type Request = nat

  datatype Status = Pending | Applying | Applied | Rejected | Expired

  datatype Proposal = Proposal(
    operation: string, beforeHash: Option<string>, createdAt: int, status: Status, error: Option<string>)

  type Rows = map<Id, Proposal>

  const TTL_MS := 600_000

  const UNREACHABLE := "Kong is unreachable."
  const CHANGED := "The Karna configuration changed after this proposal was made. Ask the assistant to propose it again."

  function CompareAndSet(rows: Rows, id: Id, expected: Status, status: Status, error: Option<string>): Rows {
    if Is(rows, id, expected) then rows[id := rows[id].(status := status, error := error)] else rows
  }

  predicate Is(rows: Rows, id: Id, status: Status) {
    id in rows && rows[id].status == status
  }

  /** What an apply request holds between two of its steps. */
  datatype Phase =
    | Ready(id: Id, reviewed: Proposal, readAt: int, service: Option<string>, typed: Option<string>)
                                            // its checks passed, nothing claimed yet
    | Holding(id: Id, claimed: Proposal)    // claimed, the entity not checked yet
    | Checked(id: Id, claimed: Proposal, digest: Option<string>)
                                            // the entity is as it was
    | Done(id: Id)                          // Kong accepted the change, not yet recorded

  /** What happened to one proposal; a claim also says how much had happened when its request read the row. */
  datatype Entry =
    | Claimed(reviewed: Proposal, readAt: int, past: nat, service: Option<string>, typed: Option<string>, claimedAt: int)
    | Released(detail: string)                              // given back, for this reason
    | Succeeded(operation: string, digest: Option<string>)  // Kong accepted it, the entity having this digest
    | Recorded                                              // and that was stored
    | Refused(how: Status, error: Option<string>)         // rejected, or expired

  /** `seenAt` says how much had happened to its proposal when a request read it. */
  datatype State = State(
    clock: int, rows: Rows, inflight: map<Request, Phase>, history: map<Id, seq<Entry>>, seenAt: map<Request, nat>)

  datatype Event =
    | Propose(id: Id, proposal: Proposal)
    | Read(id: Id)
    | Apply(req: Request, id: Id, service: Option<string>, typed: Option<string>)
    | Claim(req: Request)
    | Check(req: Request, seen: Option<Option<string>>)      // None: Kong unreachable
    | Execute(req: Request, failure: Option<string>)
    | Record(req: Request)
    | Crash(req: Request)
    | Reject(id: Id)
    | Delete(ids: set<Id>)
    | Tick(ms: nat)

  function Init(now: int): State {
    State(now, map[], map[], map[], map[])
  }

  /** The server's own review: whether an operation carries risks. */
  type Review = string -> bool

  predicate Overdue(p: Proposal, now: int) {
    now > p.createdAt + TTL_MS
  }

  /** A risky change needs the name of a service that can be resolved, typed back. */
  predicate Confirmed(risky: Review, p: Proposal, service: Option<string>, typed: Option<string>) {
    risky(p.operation) ==>
      && service.Some? && service.value != ""
      && typed.Some? && Text.Strip(typed.value) == service.value
  }

  function Noted(history: map<Id, seq<Entry>>, id: Id, e: Entry): map<Id, seq<Entry>> {
    if id in history then history[id := history[id] + [e]] else history
  }

  /** Moves a row and notes why. */
  function Move(s: State, id: Id, expected: Status, status: Status, error: Option<string>, e: Entry): State {
    if Is(s.rows, id, expected) then
      s.(rows := CompareAndSet(s.rows, id, expected, status, error), history := Noted(s.history, id, e))
    else s
  }

  /** An overdue pending proposal expires the first time it is read. */
  function ExpireIfOverdue(s: State, id: Id): State {
    if Is(s.rows, id, Pending) && Overdue(s.rows[id], s.clock) then Move(s, id, Pending, Expired, None, Refused(Expired, None)) else s
  }

  /** The holder gives the proposal up: back to pending, or expired for good. */
  function GiveUp(s: State, req: Request, id: Id, status: Status, detail: string, e: Entry): State {
    s.(inflight := s.inflight - {req},
       rows := CompareAndSet(s.rows, id, Applying, status, Some(detail)),
       history := Noted(s.history, id, e))
  }

  function Step(risky: Review, s: State, e: Event): State {
    match e
    case Propose(id, proposal) =>
      if id in s.history then s
      else s.(rows := s.rows[id := proposal.(status := Pending, error := None)], history := s.history[id := []])
    case Read(id) => ExpireIfOverdue(s, id)
    case Apply(req, id, service, typed) =>
      if req in s.inflight || id !in s.rows then s
      else
        var s' := ExpireIfOverdue(s, id);
        if s'.rows[id].status == Expired || !Confirmed(risky, s'.rows[id], service, typed) then s'
        else s'.(inflight := s'.inflight[req := Ready(id, s'.rows[id], s.clock, service, typed)],
                 seenAt := s'.seenAt[req := Past(s', id)])
    case Claim(req) =>
      if req !in s.inflight || !s.inflight[req].Ready? then s
      else
        var Ready(id, reviewed, readAt, service, typed) := s.inflight[req];
        if !Is(s.rows, id, Pending) then s.(inflight := s.inflight - {req})
        else
          var s' := Move(s, id, Pending, Applying, None, Claimed(reviewed, readAt, ReadPast(s, req), service, typed, s.clock));
          s'.(inflight := s.inflight[req := Holding(id, s'.rows[id])])
    case Check(req, seen) =>
      if req !in s.inflight || !s.inflight[req].Holding? then s
      else
        var Holding(id, p) := s.inflight[req];
        if p.beforeHash.None? then s.(inflight := s.inflight[req := Checked(id, p, None)])
        else if seen.None? then GiveUp(s, req, id, Pending, UNREACHABLE, Released(UNREACHABLE))
        else if seen.value != p.beforeHash then GiveUp(s, req, id, Expired, CHANGED, Refused(Expired, Some(CHANGED)))
        else s.(inflight := s.inflight[req := Checked(id, p, seen.value)])
    case Execute(req, failure) =>
      if req !in s.inflight || !s.inflight[req].Checked? then s
      else
        var Checked(id, p, digest) := s.inflight[req];
        if failure.Some? then
          GiveUp(s, req, id, Pending, Text.Short(failure.value), Released(Text.Short(failure.value)))
        else s.(inflight := s.inflight[req := Done(id)], history := Noted(s.history, id, Succeeded(p.operation, digest)))
    case Record(req) =>
      if req !in s.inflight || !s.inflight[req].Done? then s
      else Move(s, s.inflight[req].id, Applying, Applied, None, Recorded).(inflight := s.inflight - {req})
    case Crash(req) => s.(inflight := s.inflight - {req})
    case Reject(id) => Move(s, id, Pending, Rejected, None, Refused(Rejected, None))
    case Delete(ids) => s.(rows := s.rows - ids)
    case Tick(ms) => s.(clock := s.clock + ms)
  }

  function ReadPast(s: State, req: Request): nat {
    if req in s.seenAt then s.seenAt[req] else 0
  }

  /** How much has happened to a proposal. */
  function Past(s: State, id: Id): nat {
    if id in s.history then |s.history[id]| else 0
  }

  function Run(risky: Review, s: State, events: seq<Event>): State
    decreases |events|
  {
    if events == [] then s else Run(risky, Step(risky, s, events[0]), events[1..])
  }

  // ---- what every step keeps ----

  /** Where a history leaves a proposal; Wrong is the mark of an impossible history. */
  datatype Standing = Free | Held | Made | Shut | Wrong

  function After(st: Standing, e: Entry): Standing {
    match (st, e)
    case (Free, Claimed(_, _, _, _, _, _)) => Held
    case (Free, Refused(how, error)) => if (how == Rejected || how == Expired) && error.None? then Shut else Wrong
    case (Held, Released(_)) => Free
    case (Held, Succeeded(_, _)) => Made
    case (Held, Refused(how, error)) => if how == Expired && error.Some? then Shut else Wrong
    case (Made, Recorded) => Shut
    case _ => Wrong
  }

  function StandingOf(h: seq<Entry>): Standing {
    if h == [] then Free else After(StandingOf(h[..|h| - 1]), h[|h| - 1])
  }

  lemma StandingStep(h: seq<Entry>, e: Entry)
    ensures StandingOf(h + [e]) == After(StandingOf(h), e)
  {
    assert (h + [e])[..|h|] == h;
  }

  predicate SameProposal(a: Proposal, b: Proposal) {
    a == b.(status := a.status, error := a.error)
  }

  /** What a request had verified of the row it read. */
  ghost predicate GoodRead(risky: Review, p: Proposal, now: int, service: Option<string>, typed: Option<string>) {
    && p.status != Expired
    && (p.status == Pending ==> !Overdue(p, now))
    && Confirmed(risky, p, service, typed)
  }

  /** A success carries out what was reviewed, with the entity as it was then. */
  predicate Carries(p: Proposal, e: Entry)
    requires e.Succeeded?
  {
    e.operation == p.operation && (p.beforeHash.Some? ==> e.digest == p.beforeHash)
  }

  /** A claim rests on a good read, and a success carries out what the claim before it reviewed. */
  ghost predicate GoodEntry(risky: Review, h: seq<Entry>, k: nat)
    requires k < |h|
  {
    && (h[k].Claimed? ==>
          && GoodRead(risky, h[k].reviewed, h[k].readAt, h[k].service, h[k].typed)
          && h[k].readAt <= h[k].claimedAt
          && h[k].past <= k && StatusFits(h[k].reviewed.status, StandingOf(h[..h[k].past])))
    && (h[k].Succeeded? ==> k > 0 && h[k - 1].Claimed? && Carries(h[k - 1].reviewed, h[k]))
    && (h[k].Refused? && h[k].error.Some? ==> h[k].error.value == CHANGED)
  }

  ghost predicate GoodEntries(risky: Review, h: seq<Entry>) {
    forall k :: 0 <= k < |h| ==> GoodEntry(risky, h, k)
  }

  predicate StatusFits(status: Status, st: Standing) {
    match status
    case Pending => st == Free
    case Applying => st == Held || st == Made
    case Applied => st == Shut
    case Rejected => st == Shut
    case Expired => st == Shut
  }

  /** Status and error of a proposal to which this happened last. */
  predicate Told(p: Proposal, e: Entry) {
    match e
    case Claimed(_, _, _, _, _, _) => p.status == Applying && p.error == None
    case Released(detail) => p.status == Pending && p.error == Some(detail)
    case Succeeded(_, _) => p.status == Applying && p.error == None
    case Recorded => p.status == Applied && p.error == None
    case Refused(how, detail) => p.status == how && p.error == detail
  }

  predicate Fits(p: Proposal, h: seq<Entry>) {
    if h == [] then p.status == Pending && p.error == None else Told(p, h[|h| - 1])
  }

  function RowOf(rows: Rows, id: Id): Option<Proposal> {
    if id in rows then Some(rows[id]) else None
  }

  ghost predicate RowOk(risky: Review, row: Option<Proposal>, h: seq<Entry>) {
    && StandingOf(h) != Wrong
    && GoodEntries(risky, h)
    && (row.Some? ==> Fits(row.value, h))
    && (row.Some? ==> StatusFits(row.value.status, StandingOf(h)))
  }

  ghost predicate HeldFor(row: Option<Proposal>, h: seq<Entry>, claimed: Proposal) {
    && StandingOf(h) == Held
    && |h| > 0 && h[|h| - 1].Claimed? && SameProposal(claimed, h[|h| - 1].reviewed)
    && (row.Some? ==> row.value.status == Applying)
  }

  ghost predicate PhaseOk(risky: Review, clock: int, row: Option<Proposal>, h: seq<Entry>, p: Phase, past: nat) {
    match p
    case Ready(id, reviewed, readAt, service, typed) =>
      && GoodRead(risky, reviewed, readAt, service, typed) && readAt <= clock
      && past <= |h| && StatusFits(reviewed.status, StandingOf(h[..past]))
      && (row.Some? ==> SameProposal(row.value, reviewed))
    case Holding(id, claimed) => HeldFor(row, h, claimed)
    case Checked(id, claimed, digest) => HeldFor(row, h, claimed) && (claimed.beforeHash.Some? ==> digest == claimed.beforeHash)
    case Done(id) => StandingOf(h) == Made && (row.Some? ==> row.value.status == Applying)
  }

  ghost predicate RowsOk(risky: Review, s: State) {
    && s.rows.Keys <= s.history.Keys
    && forall id :: id in s.history ==> RowOk(risky, RowOf(s.rows, id), s.history[id])
  }

  ghost predicate RequestOk(risky: Review, s: State, r: Request)
    requires r in s.inflight
  {
    var p := s.inflight[r];
    p.id in s.history && PhaseOk(risky, s.clock, RowOf(s.rows, p.id), s.history[p.id], p, ReadPast(s, r))
  }

  ghost predicate PhasesOk(risky: Review, s: State) {
    forall r :: r in s.inflight ==> RequestOk(risky, s, r)
  }

  /** At most one request is past the claim of any one proposal. */
  ghost predicate OneHolder(inflight: map<Request, Phase>) {
    forall r1, r2 ::
      (r1 in inflight && r2 in inflight && r1 != r2 && !inflight[r1].Ready? && !inflight[r2].Ready?) ==>
        inflight[r1].id != inflight[r2].id
  }

  ghost predicate Inv(risky: Review, s: State) {
    RowsOk(risky, s) && PhasesOk(risky, s) && OneHolder(s.inflight)
  }

  /** What may be noted next in a history. */
  ghost predicate GoodNext(risky: Review, h: seq<Entry>, e: Entry) {
    && After(StandingOf(h), e) != Wrong
    && (e.Claimed? ==>
          && GoodRead(risky, e.reviewed, e.readAt, e.service, e.typed) && e.readAt <= e.claimedAt
          && e.past <= |h| && StatusFits(e.reviewed.status, StandingOf(h[..e.past])))
    && (e.Succeeded? ==> |h| > 0 && h[|h| - 1].Claimed? && Carries(h[|h| - 1].reviewed, e))
    && (e.Refused? && e.error.Some? ==> e.error.value == CHANGED)
  }

  lemma RowMoves(risky: Review, row: Option<Proposal>, h: seq<Entry>, row': Option<Proposal>, e: Entry)
    requires RowOk(risky, row, h)
    requires GoodNext(risky, h, e)
    requires row'.Some? ==> Told(row'.value, e) && StatusFits(row'.value.status, After(StandingOf(h), e))
    ensures RowOk(risky, row', h + [e])
    ensures StandingOf(h + [e]) == After(StandingOf(h), e)
  {
    StandingStep(h, e);
    var h' := h + [e];
    forall k | 0 <= k < |h'| ensures GoodEntry(risky, h', k) {
      assert k < |h| ==> GoodEntry(risky, h, k);
      if h'[k].Claimed? {
        assert h'[..h'[k].past] == h[..h'[k].past];
      }
    }
  }

  /** A request that is still reading stays right when more happens. */
  lemma ReadyStays(risky: Review, clock: int, row: Option<Proposal>, h: seq<Entry>, row': Option<Proposal>, h': seq<Entry>,
                   p: Phase, past: nat)
    requires p.Ready? && PhaseOk(risky, clock, row, h, p, past) && SameRow(row, row') && h <= h'
    ensures PhaseOk(risky, clock, row', h', p, past)
  {
    assert h'[..past] == h[..past];
  }

  predicate SameRow(row: Option<Proposal>, row': Option<Proposal>) {
    row'.Some? ==> row.Some? && SameProposal(row'.value, row.value)
  }

  /** Requests on a proposal, but for one, have claimed nothing. */
  ghost predicate OthersReady(inflight: map<Request, Phase>, id: Id, but: Option<Request>) {
    forall r :: r in inflight && Some(r) != but && inflight[r].id == id ==> inflight[r].Ready?
  }

  lemma HolderAlone(risky: Review, s: State, req: Request)
    requires Inv(risky, s) && req in s.inflight && !s.inflight[req].Ready?
    ensures OthersReady(s.inflight, s.inflight[req].id, Some(req))
  {
  }

  lemma PendingUnheld(risky: Review, s: State, id: Id)
    requires Inv(risky, s) && Is(s.rows, id, Pending)
    ensures OthersReady(s.inflight, id, None)
  {
    forall r | r in s.inflight && s.inflight[r].id == id ensures s.inflight[r].Ready? {
      assert RequestOk(risky, s, r);
    }
  }

  /** Other requests are as they were, this one as its new phase demands. */
  ghost predicate Advances(risky: Review, s: State, s': State, id: Id, but: Option<Request>) {
    && (forall r :: r in s'.inflight && Some(r) != but ==>
          r in s.inflight && s'.inflight[r] == s.inflight[r] && ReadPast(s', r) == ReadPast(s, r))
    && (but.Some? && but.value in s'.inflight ==> s'.inflight[but.value].id == id && RequestOk(risky, s', but.value))
  }

  /** A request to which nothing happens stays right. */
  lemma Unmoved(risky: Review, s: State, s': State, r: Request)
    requires PhasesOk(risky, s) && r in s.inflight && r in s'.inflight && s'.inflight[r] == s.inflight[r]
    requires s'.clock == s.clock && ReadPast(s', r) == ReadPast(s, r)
    requires var id := s.inflight[r].id;
      id in s.history ==> id in s'.history && s'.history[id] == s.history[id] && RowOf(s'.rows, id) == RowOf(s.rows, id)
    ensures RequestOk(risky, s', r)
  {
    assert RequestOk(risky, s, r);
  }

  /** A step that touches one proposal. */
  ghost predicate Touches(s: State, s': State, id: Id) {
    && id in s.history && s'.history.Keys == s.history.Keys && s'.rows.Keys <= s'.history.Keys && s'.clock == s.clock
    && s.history[id] <= s'.history[id] && SameRow(RowOf(s.rows, id), RowOf(s'.rows, id))
    && forall i :: i in s.history && i != id ==> RowOf(s'.rows, i) == RowOf(s.rows, i) && s'.history[i] == s.history[i]
  }

  lemma TouchHolders(risky: Review, s: State, s': State, id: Id, but: Option<Request>)
    requires OneHolder(s.inflight) && OthersReady(s.inflight, id, but) && Advances(risky, s, s', id, but)
    ensures OneHolder(s'.inflight)
  {
  }

  lemma TouchRequest(risky: Review, s: State, s': State, id: Id, but: Option<Request>, r: Request)
    requires PhasesOk(risky, s) && Touches(s, s', id)
    requires OthersReady(s.inflight, id, but) && Advances(risky, s, s', id, but)
    requires r in s'.inflight
    ensures RequestOk(risky, s', r)
  {
    if Some(r) != but {
      var p := s.inflight[r];
      if p.id != id {
        Unmoved(risky, s, s', r);
      } else {
        assert RequestOk(risky, s, r);
        ReadyStays(risky, s.clock, RowOf(s.rows, id), s.history[id], RowOf(s'.rows, id), s'.history[id], p, ReadPast(s, r));
      }
    }
  }

  /** Such a step needs checking at that proposal and its holder only. */
  lemma TouchOne(risky: Review, s: State, s': State, id: Id, but: Option<Request>)
    requires Inv(risky, s) && Touches(s, s', id) && RowOk(risky, RowOf(s'.rows, id), s'.history[id])
    requires OthersReady(s.inflight, id, but) && Advances(risky, s, s', id, but)
    ensures Inv(risky, s')
  {
    TouchHolders(risky, s, s', id, but);
    forall r | r in s'.inflight ensures RequestOk(risky, s', r) {
      TouchRequest(risky, s, s', id, but, r);
    }
    forall i | i in s'.history ensures RowOk(risky, RowOf(s'.rows, i), s'.history[i]) {
      assert RowOk(risky, RowOf(s.rows, i), s.history[i]);
    }
  }

  lemma LocalFacts(risky: Review, s: State, id: Id)
    requires Inv(risky, s) && id in s.history
    ensures RowOk(risky, RowOf(s.rows, id), s.history[id])
    ensures forall r :: r in s.inflight ==> RequestOk(risky, s, r)
  {
  }

  /** The rows but for one, and what was proposed in that one, stay; one more thing has happened to it. */
  ghost predicate Notes(s: State, s': State, id: Id, e: Entry) {
    && s'.clock == s.clock && id in s.history && s'.history == s.history[id := s.history[id] + [e]]
    && s'.rows.Keys == s.rows.Keys
    && (forall i :: i in s.rows && i != id ==> s'.rows[i] == s.rows[i])
    && (id in s.rows ==> SameProposal(s'.rows[id], s.rows[id]))
  }

  lemma NotesTouches(s: State, s': State, id: Id, e: Entry)
    requires s.rows.Keys <= s.history.Keys && Notes(s, s', id, e)
    ensures Touches(s, s', id)
  {
  }

  lemma NoteOne(risky: Review, s: State, s': State, id: Id, e: Entry, but: Option<Request>)
    requires Inv(risky, s) && Notes(s, s', id, e) && GoodNext(risky, s.history[id], e)
    requires id in s'.rows ==> Told(s'.rows[id], e) && StatusFits(s'.rows[id].status, After(StandingOf(s.history[id]), e))
    requires OthersReady(s.inflight, id, but) && Advances(risky, s, s', id, but)
    ensures Inv(risky, s')
  {
    assert RowOk(risky, RowOf(s.rows, id), s.history[id]);
    RowMoves(risky, RowOf(s.rows, id), s.history[id], RowOf(s'.rows, id), e);
    NotesTouches(s, s', id, e);
    TouchOne(risky, s, s', id, but);
  }

  /** The row of a free, a held or a made proposal. */
  lemma StandingFacts(risky: Review, s: State, id: Id)
    requires Inv(risky, s) && id in s.history
    ensures StandingOf(s.history[id]) != Wrong
    ensures id in s.rows ==> Fits(s.rows[id], s.history[id]) && StatusFits(s.rows[id].status, StandingOf(s.history[id]))
  {
    assert RowOk(risky, RowOf(s.rows, id), s.history[id]);
  }

  lemma MoveKeepsInv(risky: Review, s: State, id: Id, status: Status)
    requires Inv(risky, s) && status in {Rejected, Expired}
    ensures Inv(risky, Move(s, id, Pending, status, None, Refused(status, None)))
  {
    if Is(s.rows, id, Pending) {
      StandingFacts(risky, s, id);
      PendingUnheld(risky, s, id);
      NoteOne(risky, s, Move(s, id, Pending, status, None, Refused(status, None)), id, Refused(status, None), None);
    }
  }

  /** A request whose checks have passed joins. */
  lemma BeginKeepsInv(risky: Review, s: State, req: Request, id: Id, service: Option<string>, typed: Option<string>)
    requires Inv(risky, s) && req !in s.inflight && id in s.rows
    requires GoodRead(risky, s.rows[id], s.clock, service, typed)
    ensures Inv(risky, s.(inflight := s.inflight[req := Ready(id, s.rows[id], s.clock, service, typed)],
                          seenAt := s.seenAt[req := Past(s, id)]))
  {
    var s' := s.(inflight := s.inflight[req := Ready(id, s.rows[id], s.clock, service, typed)],
                 seenAt := s.seenAt[req := Past(s, id)]);
    forall r | r in s'.inflight ensures RequestOk(risky, s', r) {
      if r == req {
        assert RowOk(risky, RowOf(s.rows, id), s.history[id]);
        assert s.history[id][..|s.history[id]|] == s.history[id];
      } else {
        Unmoved(risky, s, s', r);
      }
    }
  }

  lemma ApplyKeepsInv(risky: Review, s: State, req: Request, id: Id, service: Option<string>, typed: Option<string>)
    requires Inv(risky, s)
    ensures Inv(risky, Step(risky, s, Apply(req, id, service, typed)))
  {
    MoveKeepsInv(risky, s, id, Expired);
    if req !in s.inflight && id in s.rows {
      var s' := ExpireIfOverdue(s, id);
      if s'.rows[id].status != Expired && Confirmed(risky, s'.rows[id], service, typed) {
        BeginKeepsInv(risky, s', req, id, service, typed);
      }
    }
  }

  lemma ClaimKeepsInv(risky: Review, s: State, req: Request)
    requires Inv(risky, s)
    ensures Inv(risky, Step(risky, s, Claim(req)))
  {
    if req in s.inflight && s.inflight[req].Ready? && Is(s.rows, s.inflight[req].id, Pending) {
      ClaimedNext(risky, s, req);
    }
  }

  lemma ClaimedNext(risky: Review, s: State, req: Request)
    requires Inv(risky, s) && req in s.inflight && s.inflight[req].Ready? && Is(s.rows, s.inflight[req].id, Pending)
    ensures Inv(risky, Step(risky, s, Claim(req)))
  {
    var s' := Step(risky, s, Claim(req));
    var Ready(id, reviewed, readAt, service, typed) := s.inflight[req];
    var e := Claimed(reviewed, readAt, ReadPast(s, req), service, typed, s.clock);
    StandingFacts(risky, s, id);
    ReadyFacts(risky, s, req);
    PendingUnheld(risky, s, id);
    ClaimHolds(risky, s, req);
    ClaimNotes(risky, s, req);
    NoteOne(risky, s, s', id, e, Some(req));
  }

  lemma ClaimNotes(risky: Review, s: State, req: Request)
    requires req in s.inflight && s.inflight[req].Ready? && Is(s.rows, s.inflight[req].id, Pending) && s.inflight[req].id in s.history
    requires RequestOk(risky, Step(risky, s, Claim(req)), req)
    ensures var Ready(id, reviewed, readAt, service, typed) := s.inflight[req];
      var s' := Step(risky, s, Claim(req));
      var e := Claimed(reviewed, readAt, ReadPast(s, req), service, typed, s.clock);
      Notes(s, s', id, e) && Advances(risky, s, s', id, Some(req)) && Told(s'.rows[id], e)
  {
  }

  /** The request that has claimed the proposal is its holder. */
  lemma ClaimHolds(risky: Review, s: State, req: Request)
    requires Inv(risky, s) && req in s.inflight && s.inflight[req].Ready? && Is(s.rows, s.inflight[req].id, Pending)
    ensures RequestOk(risky, Step(risky, s, Claim(req)), req)
  {
    var s' := Step(risky, s, Claim(req));
    var Ready(id, reviewed, readAt, service, typed) := s.inflight[req];
    var e := Claimed(reviewed, readAt, ReadPast(s, req), service, typed, s.clock);
    StandingFacts(risky, s, id);
    ReadyFacts(risky, s, req);
    assert s'.history[id] == s.history[id] + [e];
    StandingStep(s.history[id], e);
  }

  lemma ReadyFacts(risky: Review, s: State, req: Request)
    requires Inv(risky, s) && req in s.inflight && s.inflight[req].Ready?
    ensures var Ready(id, reviewed, readAt, service, typed) := s.inflight[req];
      && id in s.history && GoodRead(risky, reviewed, readAt, service, typed) && readAt <= s.clock
      && ReadPast(s, req) <= |s.history[id]| && StatusFits(reviewed.status, StandingOf(s.history[id][..ReadPast(s, req)]))
      && (id in s.rows ==> SameProposal(s.rows[id], reviewed))
  {
    assert RequestOk(risky, s, req);
  }

  /** What a request past its claim stands for. */
  lemma HolderFacts(risky: Review, s: State, req: Request)
    requires Inv(risky, s) && req in s.inflight && (s.inflight[req].Holding? || s.inflight[req].Checked?)
    ensures s.inflight[req].id in s.history
    ensures HeldFor(RowOf(s.rows, s.inflight[req].id), s.history[s.inflight[req].id], s.inflight[req].claimed)
  {
    assert RequestOk(risky, s, req);
  }

  lemma GiveUpKeepsInv(risky: Review, s: State, req: Request, id: Id, status: Status, detail: string, e: Entry)
    requires Inv(risky, s) && req in s.inflight && id == s.inflight[req].id
    requires s.inflight[req].Holding? || s.inflight[req].Checked?
    requires (status == Pending && e == Released(detail)) || (status == Expired && detail == CHANGED && e == Refused(Expired, Some(detail)))
    ensures Inv(risky, GiveUp(s, req, id, status, detail, e))
  {
    HolderFacts(risky, s, req);
    HolderAlone(risky, s, req);
    NoteOne(risky, s, GiveUp(s, req, id, status, detail, e), id, e, Some(req));
  }

  lemma CheckKeepsInv(risky: Review, s: State, req: Request, seen: Option<Option<string>>)
    requires Inv(risky, s)
    ensures Inv(risky, Step(risky, s, Check(req, seen)))
  {
    if req in s.inflight && s.inflight[req].Holding? {
      var Holding(id, p) := s.inflight[req];
      if p.beforeHash.Some? && seen.None? {
        GiveUpKeepsInv(risky, s, req, id, Pending, UNREACHABLE, Released(UNREACHABLE));
      } else if p.beforeHash.Some? && seen.value != p.beforeHash {
        GiveUpKeepsInv(risky, s, req, id, Expired, CHANGED, Refused(Expired, Some(CHANGED)));
      } else {
        LocalFacts(risky, s, id);
        HolderAlone(risky, s, req);
        TouchOne(risky, s, Step(risky, s, Check(req, seen)), id, Some(req));
      }
    }
  }

  lemma ExecuteKeepsInv(risky: Review, s: State, req: Request, failure: Option<string>)
    requires Inv(risky, s)
    ensures Inv(risky, Step(risky, s, Execute(req, failure)))
  {
    if req in s.inflight && s.inflight[req].Checked? {
      var Checked(id, p, digest) := s.inflight[req];
      if failure.Some? {
        var detail := Text.Short(failure.value);
        GiveUpKeepsInv(risky, s, req, id, Pending, detail, Released(detail));
      } else {
        SuccessKeepsInv(risky, s, req);
      }
    }
  }

  lemma SuccessKeepsInv(risky: Review, s: State, req: Request)
    requires Inv(risky, s) && req in s.inflight && s.inflight[req].Checked?
    ensures Inv(risky, Step(risky, s, Execute(req, None)))
  {
    var Checked(id, p, digest) := s.inflight[req];
    var e := Succeeded(p.operation, digest);
    var s' := Step(risky, s, Execute(req, None));
    HolderFacts(risky, s, req);
    HolderAlone(risky, s, req);
    StandingFacts(risky, s, id);
    StandingStep(s.history[id], e);
    assert RequestOk(risky, s', req);
    NoteOne(risky, s, s', id, e, Some(req));
  }

  lemma MadeFacts(risky: Review, s: State, req: Request)
    requires Inv(risky, s) && req in s.inflight && s.inflight[req].Done?
    ensures var id := s.inflight[req].id;
      id in s.history && StandingOf(s.history[id]) == Made && (id in s.rows ==> s.rows[id].status == Applying)
  {
    assert RequestOk(risky, s, req);
  }

  lemma RecordedNext(risky: Review, s: State, req: Request)
    requires Inv(risky, s) && req in s.inflight && s.inflight[req].Done? && s.inflight[req].id in s.rows
    ensures Inv(risky, Step(risky, s, Record(req)))
  {
    MadeFacts(risky, s, req);
    HolderAlone(risky, s, req);
    RecordNotes(risky, s, req);
    NoteOne(risky, s, Step(risky, s, Record(req)), s.inflight[req].id, Recorded, Some(req));
  }

  lemma RecordNotes(risky: Review, s: State, req: Request)
    requires req in s.inflight && s.inflight[req].Done? && s.inflight[req].id in s.history && Is(s.rows, s.inflight[req].id, Applying)
    ensures var id, s' := s.inflight[req].id, Step(risky, s, Record(req));
      Notes(s, s', id, Recorded) && Advances(risky, s, s', id, Some(req)) && Told(s'.rows[id], Recorded)
  {
  }

  lemma RecordKeepsInv(risky: Review, s: State, req: Request)
    requires Inv(risky, s)
    ensures Inv(risky, Step(risky, s, Record(req)))
  {
    if req in s.inflight && s.inflight[req].Done? {
      var id := s.inflight[req].id;
      if id in s.rows {
        RecordedNext(risky, s, req);
      } else {
        LocalFacts(risky, s, id);
        HolderAlone(risky, s, req);
        TouchOne(risky, s, Step(risky, s, Record(req)), id, Some(req));
      }
    }
  }

  lemma DeleteKeepsInv(risky: Review, s: State, ids: set<Id>)
    requires Inv(risky, s)
    ensures Inv(risky, Step(risky, s, Delete(ids)))
  {
    var s' := Step(risky, s, Delete(ids));
    forall id | id in s'.history ensures RowOk(risky, RowOf(s'.rows, id), s'.history[id]) {
      assert RowOk(risky, RowOf(s.rows, id), s.history[id]);
    }
  }

  lemma ProposeKeepsInv(risky: Review, s: State, id: Id, proposal: Proposal)
    requires Inv(risky, s)
    ensures Inv(risky, Step(risky, s, Propose(id, proposal)))
  {
    var s' := Step(risky, s, Propose(id, proposal));
    forall r | r in s'.inflight ensures RequestOk(risky, s', r) {
      assert RequestOk(risky, s, r);
    }
    forall i | i in s'.history ensures RowOk(risky, RowOf(s'.rows, i), s'.history[i]) {
      assert i in s.history ==> RowOk(risky, RowOf(s.rows, i), s.history[i]);
    }
  }

  lemma CrashKeepsInv(risky: Review, s: State, req: Request)
    requires Inv(risky, s)
    ensures Inv(risky, Step(risky, s, Crash(req)))
  {
    var s' := Step(risky, s, Crash(req));
    forall r | r in s'.inflight ensures RequestOk(risky, s', r) {
      assert RequestOk(risky, s, r);
    }
  }

  lemma TickKeepsInv(risky: Review, s: State, ms: nat)
    requires Inv(risky, s)
    ensures Inv(risky, Step(risky, s, Tick(ms)))
  {
    var s' := Step(risky, s, Tick(ms));
    forall r | r in s'.inflight ensures RequestOk(risky, s', r) {
      assert RequestOk(risky, s, r);
    }
  }

  /** The invariant of the whole protocol. */
  lemma StepKeepsInv(risky: Review, s: State, e: Event)
    requires Inv(risky, s)
    ensures Inv(risky, Step(risky, s, e))
  {
    match e
    case Propose(id, proposal) => ProposeKeepsInv(risky, s, id, proposal);
    case Read(id) => MoveKeepsInv(risky, s, id, Expired);
    case Apply(req, id, service, typed) => ApplyKeepsInv(risky, s, req, id, service, typed);
    case Claim(req) => ClaimKeepsInv(risky, s, req);
    case Check(req, seen) => CheckKeepsInv(risky, s, req, seen);
    case Execute(req, failure) => ExecuteKeepsInv(risky, s, req, failure);
    case Record(req) => RecordKeepsInv(risky, s, req);
    case Crash(req) => CrashKeepsInv(risky, s, req);
    case Reject(id) => MoveKeepsInv(risky, s, id, Rejected);
    case Delete(ids) => DeleteKeepsInv(risky, s, ids);
    case Tick(ms) => TickKeepsInv(risky, s, ms);
  }

  lemma {:induction false} RunKeepsInv(risky: Review, s: State, events: seq<Event>)
    requires Inv(risky, s)
    ensures Inv(risky, Run(risky, s, events))
    decreases |events|
  {
    if events != [] {
      StepKeepsInv(risky, s, events[0]);
      RunKeepsInv(risky, Step(risky, s, events[0]), events[1..]);
    }
  }

  /**
   Kong accepted the change only once, from the request that claimed it just before, for the operation that was
   reviewed, with its service's name typed back if it is risky and the entity as it was then, and nothing came
   after it but its record.
   */
  ghost predicate AppliedAsReviewed(risky: Review, h: seq<Entry>, k: nat)
    requires k < |h| && h[k].Succeeded?
  {
    && (forall j :: 0 <= j < |h| && j != k ==> !h[j].Succeeded?)
    && (forall j :: k < j < |h| ==> h[j] == Recorded)
    && k > 0 && h[k - 1].Claimed?
    && var p, service, typed := h[k - 1].reviewed, h[k - 1].service, h[k - 1].typed;
      && h[k].operation == p.operation && (p.beforeHash.Some? ==> h[k].digest == p.beforeHash)
      && (risky(p.operation) ==> typed.Some? && service == Some(Text.Strip(typed.value)) && service.value != "")
  }

  /**
   Over every interleaving: a proposal succeeds at most once, only as reviewed by the
   request that claimed it, and at any time at most one request holds it.
   */
  lemma AppliesAtMostOnce(risky: Review, now: int, events: seq<Event>, id: Id)
    requires id in Run(risky, Init(now), events).history
    ensures var s := Run(risky, Init(now), events); var h := s.history[id];
      && (forall k :: 0 <= k < |h| && h[k].Succeeded? ==> AppliedAsReviewed(risky, h, k))
      && GoodEntries(risky, h)
      && OneHolder(s.inflight)
      && (forall r :: r in s.inflight && s.inflight[r].id == id && !s.inflight[r].Ready? && id in s.rows ==>
            s.rows[id].status == Applying)
  {
    RunKeepsInv(risky, Init(now), events);
    var s := Run(risky, Init(now), events);
    var h := s.history[id];
    assert RowOk(risky, RowOf(s.rows, id), h);
    forall k | 0 <= k < |h| && h[k].Succeeded? ensures AppliedAsReviewed(risky, h, k) {
      SucceededOnce(risky, h, k);
    }
  }

  lemma SuccessFacts(risky: Review, h: seq<Entry>, k: nat)
    requires GoodEntries(risky, h) && k < |h| && h[k].Succeeded?
    ensures k > 0 && h[k - 1].Claimed? && Carries(h[k - 1].reviewed, h[k])
    ensures Confirmed(risky, h[k - 1].reviewed, h[k - 1].service, h[k - 1].typed)
  {
    assert GoodEntry(risky, h, k) && GoodEntry(risky, h, k - 1);
  }

  lemma SucceededOnce(risky: Review, h: seq<Entry>, k: nat)
    requires StandingOf(h) != Wrong && GoodEntries(risky, h) && k < |h| && h[k].Succeeded?
    ensures AppliedAsReviewed(risky, h, k)
  {
    SuccessFacts(risky, h, k);
    OnlySuccess(h, k);
  }

  lemma OnlySuccess(h: seq<Entry>, k: nat)
    requires StandingOf(h) != Wrong && k < |h| && h[k].Succeeded?
    ensures forall j :: 0 <= j < |h| && j != k ==> !h[j].Succeeded?
    ensures forall j :: k < j < |h| ==> h[j] == Recorded
  {
    MadeIsLast(h, k);
    forall j | 0 <= j < |h| && j != k ensures !h[j].Succeeded? {
      if h[j].Succeeded? {
        MadeIsLast(h, j);
      }
    }
  }

  /** Nothing follows a success but its record. */
  lemma {:induction false} MadeIsLast(h: seq<Entry>, k: nat)
    requires StandingOf(h) != Wrong && k < |h| && h[k].Succeeded?
    ensures if k == |h| - 1 then StandingOf(h) == Made else k == |h| - 2 && h[k + 1] == Recorded && StandingOf(h) == Shut
  {
    var init := h[..|h| - 1];
    if k < |h| - 1 {
      MadeIsLast(init, k);
    }
  }

  /** What a stored proposal says of its history: its status and its error, by what happened last. */
  ghost predicate TellsLast(p: Proposal, h: seq<Entry>) {
    var last := if h == [] then None else Some(h[|h| - 1]);
    && (p.status == Pending <==> last.None? || last.value.Released?)
    && (p.status == Applying <==> last.Some? && (last.value.Claimed? || last.value.Succeeded?))
    && (p.status == Applied <==> last == Some(Recorded))
    && (p.status == Rejected <==> last == Some(Refused(Rejected, None)))
    && (p.status == Expired <==> last in {Some(Refused(Expired, None)), Some(Refused(Expired, Some(CHANGED)))})
    && p.error ==
      if last.Some? && last.value.Released? then Some(last.value.detail)
      else if last.Some? && last.value.Refused? then last.value.error else None
  }

  /** Over every interleaving, for every proposal still stored: it is applied exactly when Kong accepted it and that was recorded. */
  lemma OutcomeIsTold(risky: Review, now: int, events: seq<Event>, id: Id)
    requires id in Run(risky, Init(now), events).rows
    ensures id in Run(risky, Init(now), events).history
    ensures var s := Run(risky, Init(now), events); var p, h := s.rows[id], s.history[id];
      && TellsLast(p, h)
      && (p.status == Applied ==> |h| > 1 && h[|h| - 2].Succeeded?)
      && (forall k :: 0 <= k < |h| && h[k].Succeeded? ==> p.status == if h[|h| - 1] == Recorded then Applied else Applying)
  {
    RunKeepsInv(risky, Init(now), events);
    var s := Run(risky, Init(now), events);
    RowTells(risky, s.rows[id], s.history[id]);
  }

  lemma RowTells(risky: Review, p: Proposal, h: seq<Entry>)
    requires RowOk(risky, Some(p), h)
    ensures TellsLast(p, h)
    ensures p.status == Applied ==> |h| > 1 && h[|h| - 2].Succeeded?
    ensures forall k :: 0 <= k < |h| && h[k].Succeeded? ==> p.status == if h[|h| - 1] == Recorded then Applied else Applying
  {
    if h != [] {
      LastTold(risky, p, h);
    }
    if p.status == Applied {
      RecordedWasMade(h);
    }
    forall k | 0 <= k < |h| && h[k].Succeeded? ensures p.status == if h[|h| - 1] == Recorded then Applied else Applying {
      MadeIsLast(h, k);
    }
  }

  lemma LastTold(risky: Review, p: Proposal, h: seq<Entry>)
    requires RowOk(risky, Some(p), h) && h != []
    ensures var e := h[|h| - 1];
      Told(p, e) && (e.Refused? ==> e == Refused(Rejected, None) || e == Refused(Expired, None) || e == Refused(Expired, Some(CHANGED)))
  {
    assert GoodEntry(risky, h, |h| - 1);
  }

  lemma RecordedWasMade(h: seq<Entry>)
    requires StandingOf(h) != Wrong && h != [] && h[|h| - 1] == Recorded
    ensures |h| > 1 && h[|h| - 2].Succeeded?
  {
    var init := h[..|h| - 1];
    assert StandingOf(init) == Made;
  }

  /** Nothing more can happen: the row is final or gone, and no request is past its claim. */
  ghost predicate Closed(s: State, id: Id) {
    && id in s.history
    && (id in s.rows ==> s.rows[id].status in {Applied, Rejected, Expired})
    && forall r :: r in s.inflight && s.inflight[r].id == id ==> s.inflight[r].Ready?
  }

  lemma FinalIsClosed(risky: Review, s: State, id: Id)
    requires Inv(risky, s) && id in s.rows && s.rows[id].status in {Applied, Rejected, Expired}
    ensures Closed(s, id)
  {
  }

  /** What a step may do to a closed proposal: nothing, or delete its row. */
  ghost predicate StaysClosed(s: State, s': State, id: Id)
    requires id in s.history
  {
    && Closed(s', id) && s'.history[id] == s.history[id]
    && (RowOf(s'.rows, id) == RowOf(s.rows, id) || RowOf(s'.rows, id) == None)
  }

  /** Requests past their claim hold other proposals. */
  lemma CheckKeepsClosed(risky: Review, s: State, e: Event, id: Id)
    requires Closed(s, id) && e.Check?
    ensures StaysClosed(s, Step(risky, s, e), id)
  {
    if e.req in s.inflight && s.inflight[e.req].Holding? {
      var Holding(i, p) := s.inflight[e.req];
      assert i != id;
      if p.beforeHash.Some? && e.seen.None? {
        GiveUpKeepsClosed(s, e.req, i, Pending, UNREACHABLE, Released(UNREACHABLE), id);
      } else if p.beforeHash.Some? && e.seen.value != p.beforeHash {
        GiveUpKeepsClosed(s, e.req, i, Expired, CHANGED, Refused(Expired, Some(CHANGED)), id);
      }
    }
  }

  lemma GiveUpKeepsClosed(s: State, req: Request, i: Id, status: Status, detail: string, e: Entry, id: Id)
    requires Closed(s, id) && i != id
    ensures StaysClosed(s, GiveUp(s, req, i, status, detail, e), id)
  {
  }

  lemma ExecuteKeepsClosed(risky: Review, s: State, e: Event, id: Id)
    requires Closed(s, id) && e.Execute?
    ensures StaysClosed(s, Step(risky, s, e), id)
  {
    if e.req in s.inflight && s.inflight[e.req].Checked? {
      assert s.inflight[e.req].id != id;
    }
  }

  /** Nothing pending is closed, so moving what is pending leaves it alone. */
  lemma MoveKeepsClosed(s: State, i: Id, status: Status, error: Option<string>, e: Entry, id: Id)
    requires Closed(s, id)
    ensures StaysClosed(s, Move(s, i, Pending, status, error, e), id)
  {
  }

  lemma ApplyKeepsClosed(risky: Review, s: State, e: Event, id: Id)
    requires Closed(s, id) && e.Apply?
    ensures StaysClosed(s, Step(risky, s, e), id)
  {
    MoveKeepsClosed(s, e.id, Expired, None, Refused(Expired, None), id);
  }

  lemma ClaimKeepsClosed(risky: Review, s: State, e: Event, id: Id)
    requires Closed(s, id) && e.Claim?
    ensures StaysClosed(s, Step(risky, s, e), id)
  {
    if e.req in s.inflight && s.inflight[e.req].Ready? && Is(s.rows, s.inflight[e.req].id, Pending) {
      assert s.inflight[e.req].id != id;
    }
  }

  lemma StepKeepsClosed(risky: Review, s: State, e: Event, id: Id)
    requires Closed(s, id)
    ensures StaysClosed(s, Step(risky, s, e), id)
  {
    match e
    case Read(i) => MoveKeepsClosed(s, i, Expired, None, Refused(Expired, None), id);
    case Apply(req, i, service, typed) => ApplyKeepsClosed(risky, s, e, id);
    case Claim(req) => ClaimKeepsClosed(risky, s, e, id);
    case Reject(i) => MoveKeepsClosed(s, i, Rejected, None, Refused(Rejected, None), id);
    case Check(req, seen) => CheckKeepsClosed(risky, s, e, id);
    case Execute(req, failure) => ExecuteKeepsClosed(risky, s, e, id);
    case Record(req) =>
      if req in s.inflight && s.inflight[req].Done? {
        assert s.inflight[req].id != id;
      }
    case _ =>
  }

  /** Applied, rejected and expired are never left, whatever follows. */
  lemma {:induction false} ClosedForGood(risky: Review, s: State, events: seq<Event>, id: Id)
    requires Closed(s, id)
    ensures StaysClosed(s, Run(risky, s, events), id)
    decreases |events|
  {
    if events != [] {
      StepKeepsClosed(risky, s, events[0], id);
      ClosedForGood(risky, Step(risky, s, events[0]), events[1..], id);
    }
  }

  // ---- the ten-minute limit ----

  lemma {:induction false} PrefixStanding(h: seq<Entry>, i: nat)
    requires i <= |h| && StandingOf(h) != Wrong
    ensures StandingOf(h[..i]) != Wrong
  {
    if i == |h| {
      assert h[..i] == h;
    } else {
      PrefixStanding(h[..|h| - 1], i);
      assert h[..|h| - 1][..i] == h[..i];
    }
  }

  /** What has left a proposal free was a release, if it was not free all along. */
  lemma {:induction false} FreedByRelease(h: seq<Entry>, i: nat, k: nat)
    requires i <= k <= |h| && StandingOf(h[..k]) == Free
    ensures StandingOf(h[..i]) == Free
      || (StandingOf(h[..i]) == Held && exists j :: i <= j < k && h[j].Released?)
    decreases k
  {
    if i < k {
      assert h[..k][..k - 1] == h[..k - 1];
      assert h[k - 1].Released? && StandingOf(h[..k - 1]) == Held;
      if i < k - 1 {
        HeldByClaim(h, k - 1);
        assert h[..k - 1][..k - 2] == h[..k - 2];
        if i <= k - 2 {
          FreedByRelease(h, i, k - 2);
        }
      }
    }
  }

  lemma HeldByClaim(h: seq<Entry>, k: nat)
    requires k <= |h| && StandingOf(h[..k]) == Held
    ensures k > 0 && h[k - 1].Claimed? && StandingOf(h[..k - 1]) == Free
  {
    assert h[..k][..k - 1] == h[..k - 1];
  }

  predicate LateClaim(e: Entry) {
    e.Claimed? && Overdue(e.reviewed, e.claimedAt)
  }

  /** The request read the row too late, while another was applying it, and that one gave it back afterwards. */
  ghost predicate ReadWhileHeld(h: seq<Entry>, k: nat)
    requires k < |h| && h[k].Claimed?
  {
    && Overdue(h[k].reviewed, h[k].readAt)
    && h[k].reviewed.status == Applying
    && exists j :: h[k].past <= j < k && h[j].Released?
  }

  /** The request read the row in time, but claimed it after the limit. */
  predicate ClaimedAfterWaiting(e: Entry)
    requires e.Claimed?
  {
    !Overdue(e.reviewed, e.readAt) && Overdue(e.reviewed, e.claimedAt)
  }

  /** A claim takes a proposal that is free. */
  lemma ClaimTakesFree(h: seq<Entry>, k: nat)
    requires k < |h| && h[k].Claimed? && StandingOf(h) != Wrong
    ensures StandingOf(h[..k]) == Free
  {
    PrefixStanding(h, k + 1);
    assert h[..k + 1][..k] == h[..k];
  }

  /**
   Over every interleaving: there are two ways to claim a proposal after its ten minutes, and no
   others. Either the row was read too late while another request was applying it, and was given
   back after that; or it was read in time and claimed late.
   */
  lemma LateClaims(risky: Review, now: int, events: seq<Event>, id: Id, k: nat)
    requires id in Run(risky, Init(now), events).history
    requires k < |Run(risky, Init(now), events).history[id]| && Run(risky, Init(now), events).history[id][k].Claimed?
    ensures var h := Run(risky, Init(now), events).history[id];
      && (LateClaim(h[k]) <==> ReadWhileHeld(h, k) || ClaimedAfterWaiting(h[k]))
      && (h[k].readAt == h[k].claimedAt ==> (LateClaim(h[k]) <==> ReadWhileHeld(h, k)))
  {
    RunKeepsInv(risky, Init(now), events);
    var s := Run(risky, Init(now), events);
    assert RowOk(risky, RowOf(s.rows, id), s.history[id]);
    OverdueWasHeld(risky, s.history[id], k);
  }

  lemma ClaimFacts(risky: Review, h: seq<Entry>, k: nat)
    requires GoodEntries(risky, h) && k < |h| && h[k].Claimed?
    ensures h[k].readAt <= h[k].claimedAt && h[k].past <= k
    ensures StatusFits(h[k].reviewed.status, StandingOf(h[..h[k].past]))
    ensures h[k].reviewed.status != Expired && (h[k].reviewed.status == Pending ==> !Overdue(h[k].reviewed, h[k].readAt))
  {
    assert GoodEntry(risky, h, k);
  }

  lemma OverdueWasHeld(risky: Review, h: seq<Entry>, k: nat)
    requires StandingOf(h) != Wrong && GoodEntries(risky, h) && k < |h| && h[k].Claimed?
    ensures h[k].readAt <= h[k].claimedAt
    ensures Overdue(h[k].reviewed, h[k].readAt) ==> ReadWhileHeld(h, k)
  {
    ClaimFacts(risky, h, k);
    if Overdue(h[k].reviewed, h[k].readAt) {
      ClaimTakesFree(h, k);
      FreedByRelease(h, h[k].past, k);
    }
  }

  /** A late read passes the expiry check exactly when another request holds the proposal at that moment, or it is final. */
  lemma OverdueReads(risky: Review, s: State, req: Request, id: Id, service: Option<string>, typed: Option<string>)
    requires req !in s.inflight && id in s.rows && Overdue(s.rows[id], s.clock) && Confirmed(risky, s.rows[id], service, typed)
    ensures req in Step(risky, s, Apply(req, id, service, typed)).inflight
       <==> s.rows[id].status in {Applying, Applied, Rejected}
  {
  }

  /** A review that finds no risks. */
  predicate Harmless(operation: string) {
    false
  }

  function InStatus(p: Proposal, status: Status, error: Option<string>): Proposal {
    p.(status := status, error := error)
  }

  /** One request holds the proposal. */
  ghost predicate HeldInTime(p: Proposal, s: State) {
    && s.clock == p.createdAt
    && s.inflight == map[1 := Holding(0, InStatus(p, Applying, None))]
    && 0 in s.rows && s.rows[0] == InStatus(p, Applying, None)
    && 0 in s.history && |s.history[0]| == 1
  }

  /** Another has read it too late, while it was held, and the first has given it back. */
  ghost predicate GivenBack(p: Proposal, late: int, s: State) {
    && s.clock == late
    && s.inflight == map[2 := Ready(0, InStatus(p, Applying, None), late, None, None)]
    && 0 in s.rows && s.rows[0] == InStatus(p, Pending, Some("refused"))
    && 0 in s.history && |s.history[0]| == 2
  }

  lemma HeldFirst(risky: Review, p: Proposal, events: seq<Event>) returns (s: State)
    requires !risky(p.operation) && |events| >= 3
    requires events[0] == Propose(0, p) && events[1] == Apply(1, 0, None, None) && events[2] == Claim(1)
    ensures HeldInTime(p, s) && Run(risky, Init(p.createdAt), events) == Run(risky, s, events[3..])
  {
    s := Run3(risky, Init(p.createdAt), events);
  }

  lemma ReadLate(risky: Review, p: Proposal, wait: nat, s0: State, events: seq<Event>) returns (s: State)
    requires !risky(p.operation) && HeldInTime(p, s0) && |events| >= 3
    requires events[0] == Tick(wait) && events[1] == Apply(2, 0, None, None) && events[2] == Check(1, None)
    requires p.beforeHash == None
    ensures s.inflight == map[1 := Checked(0, InStatus(p, Applying, None), None),
                              2 := Ready(0, InStatus(p, Applying, None), p.createdAt + wait, None, None)]
    ensures s.clock == p.createdAt + wait && s.rows == s0.rows && s.history == s0.history
    ensures Run(risky, s0, events) == Run(risky, s, events[3..])
  {
    var s1 := Step(risky, s0, events[0]);
    ReadsHeld(risky, p, s1, events[1]);
    s := Run3(risky, s0, events);
  }

  lemma ReadsHeld(risky: Review, p: Proposal, s: State, e: Event)
    requires !risky(p.operation) && e == Apply(2, 0, None, None)
    requires s.inflight == map[1 := Holding(0, InStatus(p, Applying, None))]
    requires 0 in s.rows && s.rows[0] == InStatus(p, Applying, None)
    ensures var s' := Step(risky, s, e);
      && s'.inflight == map[1 := Holding(0, InStatus(p, Applying, None)), 2 := Ready(0, InStatus(p, Applying, None), s.clock, None, None)]
      && s'.clock == s.clock && s'.rows == s.rows && s'.history == s.history
  {
  }

  lemma GivesBack(risky: Review, p: Proposal, s: State, e: Event)
    requires 0 in s.history && |s.history[0]| == 1
    requires s.rows.Keys >= {0} && s.rows[0] == InStatus(p, Applying, None)
    requires s.inflight == map[1 := Checked(0, InStatus(p, Applying, None), None),
                               2 := Ready(0, InStatus(p, Applying, None), s.clock, None, None)]
    requires e == Execute(1, Some("refused"))
    ensures GivenBack(p, s.clock, Step(risky, s, e))
  {
  }

  lemma AppliedLate(risky: Review, p: Proposal, s0: State, events: seq<Event>)
    requires p.beforeHash == None && 0 in s0.history && |s0.history[0]| == 1
    requires s0.rows.Keys >= {0} && s0.rows[0] == InStatus(p, Applying, None)
    requires s0.inflight == map[1 := Checked(0, InStatus(p, Applying, None), None),
                                2 := Ready(0, InStatus(p, Applying, None), s0.clock, None, None)]
    requires |events| == 4 && events[0] == Execute(1, Some("refused"))
    requires events[1] == Claim(2) && events[2] == Check(2, None) && events[3] == Execute(2, None)
    ensures var h := Run(risky, s0, events).history;
      && 0 in h && |h[0]| == 4 && h[0][2].Claimed?
      && h[0][2].readAt == h[0][2].claimedAt == s0.clock && h[0][2].reviewed.createdAt == p.createdAt && h[0][3] == Succeeded(p.operation, None)
  {
    var s1 := Step(risky, s0, events[0]);
    GivesBack(risky, p, s0, events[0]);
    assert Run(risky, s0, events) == Run(risky, s1, events[1..]);
    var s := Run3(risky, s1, events[1..]);
    assert events[1..][3..] == [];
  }

  lemma ReadLateRun(p: Proposal, wait: nat, events: seq<Event>) returns (s: State)
    requires p.beforeHash == None && |events| >= 6
    requires events[0] == Propose(0, p) && events[1] == Apply(1, 0, None, None) && events[2] == Claim(1)
    requires events[3] == Tick(wait) && events[4] == Apply(2, 0, None, None) && events[5] == Check(1, None)
    ensures s.clock == p.createdAt + wait && 0 in s.history && |s.history[0]| == 1
    ensures 0 in s.rows && s.rows[0] == InStatus(p, Applying, None)
    ensures s.inflight == map[1 := Checked(0, InStatus(p, Applying, None), None),
                              2 := Ready(0, InStatus(p, Applying, None), s.clock, None, None)]
    ensures Run(Harmless, Init(p.createdAt), events) == Run(Harmless, s, events[6..])
  {
    var held := HeldFirst(Harmless, p, events);
    s := ReadLate(Harmless, p, wait, held, events[3..]);
    assert events[3..][3..] == events[6..];
  }

  /**
   So the limit can be passed: a proposal read while another request was applying it,
   and given back by that request, is claimed and applied long after its ten minutes.
   */
  lemma LateSuccess(p: Proposal, wait: nat) returns (events: seq<Event>)
    requires p.beforeHash == None && wait > TTL_MS
    ensures var h := Run(Harmless, Init(p.createdAt), events).history;
      && 0 in h && |h[0]| == 4 && LateClaim(h[0][2])
      && h[0][2].readAt == p.createdAt + wait && h[0][3] == Succeeded(p.operation, None)
  {
    events := [Propose(0, p), Apply(1, 0, None, None), Claim(1), Tick(wait), Apply(2, 0, None, None), Check(1, None),
               Execute(1, Some("refused")), Claim(2), Check(2, None), Execute(2, None)];
    var late := ReadLateRun(p, wait, events);
    AppliedLate(Harmless, p, late, events[6..]);
  }

  /** Or the request that read it in time waits, as for the name of the service, before it claims. */
  lemma LateAfterCheck(p: Proposal, wait: nat) returns (events: seq<Event>)
    requires p.beforeHash == None && wait > TTL_MS
    ensures var h := Run(Harmless, Init(p.createdAt), events).history;
      && 0 in h && |h[0]| == 2 && h[0][0].Claimed? && ClaimedAfterWaiting(h[0][0]) && h[0][1] == Succeeded(p.operation, None)
  {
    var first, second := [Propose(0, p), Apply(1, 0, None, None), Tick(wait)], [Claim(1), Check(1, None), Execute(1, None)];
    events := first + second;
    var s := Run3(Harmless, Init(p.createdAt), events);
    assert s.clock == p.createdAt + wait && s.rows[0] == InStatus(p, Pending, None) && s.history[0] == [];
    assert s.inflight == map[1 := Ready(0, InStatus(p, Pending, None), p.createdAt, None, None)];
    assert events[3..] == second;
    var s' := Run3(Harmless, s, second);
    assert second[3..] == [];
  }

  lemma Run3(risky: Review, s: State, events: seq<Event>) returns (s': State)
    requires |events| >= 3
    ensures s' == Step(risky, Step(risky, Step(risky, s, events[0]), events[1]), events[2])
    ensures Run(risky, s, events) == Run(risky, s', events[3..])
  {
    var s1 := Step(risky, s, events[0]);
    var s2 := Step(risky, s1, events[1]);
    s' := Step(risky, s2, events[2]);
    assert Run(risky, s, events) == Run(risky, s1, events[1..]);
    assert Run(risky, s1, events[1..]) == Run(risky, s2, events[1..][1..]);
    assert Run(risky, s2, events[2..]) == Run(risky, s', events[2..][1..]);
    assert events[1..][1..] == events[2..] && events[2..][1..] == events[3..];
  }
}
