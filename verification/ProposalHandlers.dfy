/** The proposal table and its request handlers, updating their fields in place. */
module ProposalHandlers {
  import opened Wrappers
  import opened Proposals

  /** Of the rows, this one moved: only its status and its error are new. */
  ghost predicate OneMoved(rows: Rows, rows': Rows, id: Id, status: Status, error: Option<string>) {
    && id in rows && rows'.Keys == rows.Keys
    && rows'[id] == Proposal(rows[id].operation, rows[id].beforeHash, rows[id].createdAt, status, error)
    && forall i :: i in rows && i != id ==> rows'[i] == rows[i]
  }

  /** The same, when a request still holds it. */
  ghost predicate MovedIfHeld(rows: Rows, rows': Rows, id: Id, status: Status, error: Option<string>) {
    if id in rows && rows[id].status == Applying then OneMoved(rows, rows', id, status, error) else rows' == rows
  }

  /** Of the histories, this one has one more entry. */
  ghost predicate OneNoted(history: map<Id, seq<Entry>>, history': map<Id, seq<Entry>>, id: Id, e: Entry) {
    && history'.Keys == history.Keys && (id in history ==> history'[id] == history[id] + [e])
    && forall i :: i in history && i != id ==> history'[i] == history[i]
  }

  /** What reading a proposal finds overdue. */
  ghost predicate FoundOverdue(rows: Rows, id: Id, now: int) {
    id in rows && rows[id].status == Pending && now > rows[id].createdAt + 600_000
  }

  /** What reading it does: an overdue one expires, and nothing else happens. */
  ghost predicate ReadOnce(rows: Rows, rows': Rows, history: map<Id, seq<Entry>>, history': map<Id, seq<Entry>>, id: Id, now: int) {
    if FoundOverdue(rows, id, now) then
      OneMoved(rows, rows', id, Expired, None) && OneNoted(history, history', id, Refused(Expired, None))
    else rows' == rows && history' == history
  }

  class Console {
    const risky: Review
    var clock: int
    var rows: Rows
    var inflight: map<Request, Phase>
    ghost var history: map<Id, seq<Entry>>
    ghost var seenAt: map<Request, nat>

    constructor (risky: Review, now: int)
      ensures this.risky == risky && View() == Init(now)
    {
      this.risky := risky;
      clock := now;
      rows, inflight, history, seenAt := map[], map[], map[], map[];
    }

    ghost function View(): State
      reads this
    {
      State(clock, rows, inflight, history, seenAt)
    }

    method Transition(id: Id, expected: Status, status: Status, error: Option<string>) returns (row: Option<Proposal>)
      modifies this`rows
      ensures rows == CompareAndSet(old(rows), id, expected, status, error)
      ensures if id in old(rows) && old(rows)[id].status == expected
        then OneMoved(old(rows), rows, id, status, error) && row == Some(rows[id])
        else rows == old(rows) && row == None
    {
      if id !in rows || rows[id].status != expected {
        return None;
      }
      rows := rows[id := rows[id].(status := status, error := error)];
      return Some(rows[id]);
    }

    /** Reading a proposal expires it when it is pending and overdue. */
    method ReadProposal(id: Id) returns (row: Option<Proposal>)
      modifies this`rows, this`history
      ensures View() == Step(risky, old(View()), Read(id))
      ensures row == if id in rows then Some(rows[id]) else None
      ensures ReadOnce(old(rows), rows, old(history), history, id, clock)
    {
      if id !in rows {
        return None;
      }
      var proposal := rows[id];
      if proposal.status == Pending && clock > proposal.createdAt + TTL_MS {
        var expired := Transition(id, Pending, Expired, None);
        if expired.Some? {
          history := Noted(history, id, Refused(Expired, None));
          proposal := expired.value;
        }
      }
      return Some(proposal);
    }

    method Wait(ms: nat)
      modifies this`clock
      ensures View() == Step(risky, old(View()), Tick(ms)) && clock == old(clock) + ms
    {
      clock := clock + ms;
    }

    /** The part of apply that precedes the claim. */
    method BeginApply(req: Request, id: Id, service: Option<string>, typed: Option<string>) returns (code: int)
      requires req !in inflight
      modifies this
      ensures View() == Step(risky, old(View()), Apply(req, id, service, typed))
      ensures code == 0 <==> req in inflight
      ensures code == 404 <==> id !in old(rows)
      ensures code == 410 <==> id in rows && rows[id].status == Expired
      ensures code == 503 <==>
        id in rows && rows[id].status != Expired && risky(rows[id].operation) && (service.None? || service.value == "")
      ensures code == 428 <==>
        && id in rows && rows[id].status != Expired && risky(rows[id].operation)
        && service.Some? && service.value != "" && (typed.None? || Text.Strip(typed.value) != service.value)
      ensures code in {0, 404, 410, 428, 503}
      ensures ReadOnce(old(rows), rows, old(history), history, id, clock) && clock == old(clock)
      ensures code != 0 ==> inflight == old(inflight) && seenAt == old(seenAt)
      ensures code == 0 ==> inflight == old(inflight)[req := Ready(id, rows[id], clock, service, typed)]
      ensures code == 0 ==> req in seenAt && seenAt == old(seenAt)[req := seenAt[req]]
      ensures code == 0 && id in history ==> seenAt[req] == |history[id]|
    {
      var presented := ReadProposal(id);
      if presented.None? {
        return 404;
      }
      if presented.value.status == Expired {
        return 410;
      }
      if risky(presented.value.operation) {
        if service.None? || service.value == "" {
          return 503;
        }
        if typed.None? || Text.Strip(typed.value) != service.value {
          return 428;
        }
      }
      inflight := inflight[req := Ready(id, presented.value, clock, service, typed)];
      seenAt := seenAt[req := Past(View(), id)];
      return 0;
    }

    method ClaimProposal(req: Request) returns (code: int)
      requires req in inflight && inflight[req].Ready?
      modifies this
      ensures View() == Step(risky, old(View()), Claim(req))
      ensures var id := old(inflight)[req].id; code == if id in old(rows) && old(rows)[id].status == Pending then 0 else 409
      ensures code == 0 ==>
        var Ready(id, reviewed, readAt, service, typed) := old(inflight)[req];
        && OneMoved(old(rows), rows, id, Applying, None)
        && inflight == old(inflight)[req := Holding(id, rows[id])]
        && (req in seenAt ==> OneNoted(old(history), history, id, Claimed(reviewed, readAt, seenAt[req], service, typed, clock)))
      ensures code != 0 ==> inflight == old(inflight) - {req} && rows == old(rows) && history == old(history)
      ensures clock == old(clock) && seenAt == old(seenAt)
    {
      var Ready(id, reviewed, readAt, service, typed) := inflight[req];
      var claimed := Transition(id, Pending, Applying, None);
      if claimed.None? {
        inflight := inflight - {req};
        return 409;
      }
      history := Noted(history, id, Claimed(reviewed, readAt, ReadPast(View(), req), service, typed, clock));
      inflight := inflight[req := Holding(id, claimed.value)];
      return 0;
    }

    /** Gives the claim back when Kong is unreachable; expires the proposal when its plugin changed. */
    method CheckEntity(req: Request, seen: Option<Option<string>>) returns (code: int)
      requires req in inflight && inflight[req].Holding?
      modifies this
      ensures View() == Step(risky, old(View()), Check(req, seen))
      ensures var beforeHash := old(inflight)[req].claimed.beforeHash;
        code == if beforeHash.None? then 0 else if seen.None? then 502 else if seen.value != beforeHash then 409 else 0
      ensures var Holding(id, claimed) := old(inflight)[req];
        match code
        case 502 =>
          && MovedIfHeld(old(rows), rows, id, Pending, Some(UNREACHABLE))
          && OneNoted(old(history), history, id, Released(UNREACHABLE)) && inflight == old(inflight) - {req}
        case 409 =>
          && MovedIfHeld(old(rows), rows, id, Expired, Some(CHANGED))
          && OneNoted(old(history), history, id, Refused(Expired, Some(CHANGED))) && inflight == old(inflight) - {req}
        case _ =>
          var digest := if claimed.beforeHash.Some? then seen.value else None;
          rows == old(rows) && history == old(history) && inflight == old(inflight)[req := Checked(id, claimed, digest)]
      ensures clock == old(clock) && seenAt == old(seenAt)
    {
      var Holding(id, claimed) := inflight[req];
      if claimed.beforeHash.Some? {
        if seen.None? {
          var row := Transition(id, Applying, Pending, Some(UNREACHABLE));
          inflight, history := inflight - {req}, Noted(history, id, Released(UNREACHABLE));
          return 502;
        }
        if seen.value != claimed.beforeHash {
          var row := Transition(id, Applying, Expired, Some(CHANGED));
          inflight, history := inflight - {req}, Noted(history, id, Refused(Expired, Some(CHANGED)));
          return 409;
        }
      }
      inflight := inflight[req := Checked(id, claimed, if claimed.beforeHash.Some? then seen.value else None)];
      return 0;
    }

    method ExecuteProposal(req: Request, failure: Option<string>)
      requires req in inflight && inflight[req].Checked?
      modifies this
      ensures View() == Step(risky, old(View()), Execute(req, failure))
      ensures var Checked(id, claimed, digest) := old(inflight)[req];
        match failure
        case Some(detail) =>
          && MovedIfHeld(old(rows), rows, id, Pending, Some(Text.Short(detail)))
          && OneNoted(old(history), history, id, Released(Text.Short(detail))) && inflight == old(inflight) - {req}
        case None =>
          && rows == old(rows) && OneNoted(old(history), history, id, Succeeded(claimed.operation, digest))
          && inflight == old(inflight)[req := Done(id)]
      ensures clock == old(clock) && seenAt == old(seenAt)
    {
      var Checked(id, claimed, digest) := inflight[req];
      if failure.Some? {
        var row := Transition(id, Applying, Pending, Some(Text.Short(failure.value)));
        inflight, history := inflight - {req}, Noted(history, id, Released(Text.Short(failure.value)));
        return;
      }
      history := Noted(history, id, Succeeded(claimed.operation, digest));
      inflight := inflight[req := Done(id)];
    }

    method RecordApplied(req: Request) returns (row: Option<Proposal>)
      requires req in inflight && inflight[req].Done?
      modifies this
      ensures View() == Step(risky, old(View()), Record(req))
      ensures var id := old(inflight)[req].id;
        if id in old(rows) && old(rows)[id].status == Applying then
          && OneMoved(old(rows), rows, id, Applied, None) && OneNoted(old(history), history, id, Recorded)
          && row == Some(rows[id])
        else rows == old(rows) && history == old(history) && row == None
      ensures inflight == old(inflight) - {req} && clock == old(clock) && seenAt == old(seenAt)
    {
      var id := inflight[req].id;
      row := Transition(id, Applying, Applied, None);
      inflight := inflight - {req};
      if row.Some? {
        history := Noted(history, id, Recorded);
      }
    }

    method RejectProposal(id: Id) returns (code: int)
      modifies this
      ensures View() == Step(risky, old(View()), Reject(id))
      ensures code == if id !in old(rows) then 404 else if old(rows)[id].status == Pending then 0 else 409
      ensures if code == 0 then OneMoved(old(rows), rows, id, Rejected, None) && OneNoted(old(history), history, id, Refused(Rejected, None))
        else rows == old(rows) && history == old(history)
      ensures inflight == old(inflight) && clock == old(clock) && seenAt == old(seenAt)
    {
      var rejected := Transition(id, Pending, Rejected, None);
      if rejected.None? {
        return if id in rows then 409 else 404;
      }
      history := Noted(history, id, Refused(Rejected, None));
      return 0;
    }
  }
}
