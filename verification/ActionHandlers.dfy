/** The action table and the request handlers, updating their fields in place. */
module ActionHandlers {
  import opened Wrappers
  import opened Actions

  /** The same row with another status, its error replaced, and its result too if there is a new one. */
  ghost predicate Moved(a: Action, a': Action, status: Status, result: Option<string>, error: Option<string>) {
    && a'.status == status && a'.error == error && a'.result == (if result.Some? then result else a.result)
    && a'.conversation == a.conversation && a'.tool == a.tool && a'.args == a.args && a'.argsHash == a.argsHash
    && a'.risks == a.risks && a'.confirmText == a.confirmText && a'.beforeHash == a.beforeHash && a'.expiresAt == a.expiresAt
  }

  /** Of the rows, this one moved. */
  ghost predicate OneMoved(rows: Rows, rows': Rows, id: Id, status: Status, result: Option<string>, error: Option<string>) {
    && id in rows && rows'.Keys == rows.Keys && Moved(rows[id], rows'[id], status, result, error)
    && forall i :: i in rows && i != id ==> rows'[i] == rows[i]
  }

  /** Of the histories, this one has one more entry. */
  ghost predicate OneNoted(history: map<Id, seq<Entry>>, history': map<Id, seq<Entry>>, id: Id, e: Entry) {
    && history'.Keys == history.Keys && (id in history ==> history'[id] == history[id] + [e])
    && forall i :: i in history && i != id ==> history'[i] == history[i]
  }

  class ActionStore {
    var rows: Rows

    constructor ()
      ensures rows == map[]
    {
      rows := map[];
    }

    /** The compare-and-set every handler goes through: the row after it, or None when it did not apply. */
    method Transition(id: Id, expected: Status, status: Status, result: Option<string>, error: Option<string>)
      returns (row: Option<Action>)
      modifies this
      ensures rows == CompareAndSet(old(rows), id, expected, status, result, error)
      ensures rows.Keys == old(rows).Keys && forall i :: i in rows && i != id ==> rows[i] == old(rows)[i]
      ensures if id in old(rows) && old(rows)[id].status == expected then Moved(old(rows)[id], rows[id], status, result, error)
        else rows == old(rows)
      ensures row == if id in old(rows) && old(rows)[id].status == expected then Some(rows[id]) else None
    {
      if id !in rows || rows[id].status != expected {
        return None;
      }
      var current := rows[id];
      rows := rows[id := current.(status := status, error := error,
                                  result := if result.Some? then result else current.result)];
      return Some(rows[id]);
    }

    /** Marks every pending action of a conversation expired, and returns them as they were. */
    method ExpirePending(conversation: nat) returns (expired: map<Id, Action>)
      modifies this
      ensures rows == ExpireConversation(old(rows), conversation)
      ensures rows.Keys == old(rows).Keys && forall id :: id in rows && id !in expired ==> rows[id] == old(rows)[id]
      ensures forall id :: id in expired ==> id in rows && rows[id] == old(rows)[id].(status := Expired)
      ensures forall id :: id in expired <==> id in old(rows) && old(rows)[id].status == Pending && old(rows)[id].conversation == conversation
      ensures forall id :: id in expired ==> id in old(rows) && expired[id] == old(rows)[id]
    {
      expired := map id | id in rows && rows[id].conversation == conversation && rows[id].status == Pending :: rows[id];
      rows := map id | id in rows :: if id in expired then rows[id].(status := Expired) else rows[id];
    }

    method Delete(conversation: nat)
      modifies this
      ensures rows == DeleteConversation(old(rows), conversation)
      ensures forall id :: id in rows <==> id in old(rows) && old(rows)[id].conversation != conversation
      ensures forall id :: id in rows ==> rows[id] == old(rows)[id]
    {
      rows := map id | id in rows && rows[id].conversation != conversation :: rows[id];
    }
  }

  /** What the user is told when a claimed action is not carried out. */
  ghost function StoppedBy(action: Action, seen: Option<Option<string>>): string {
    if seen.None? then UNREACHABLE else if action.tool == KONG_REQUEST then ENTITY_CHANGED else CONFIG_CHANGED
  }

  /** The console process: the store, and what each request in flight holds. */
  class Console {
    const store: ActionStore
    const hash: Hash
    var clock: int
    var inflight: map<Request, Phase>
    ghost var history: map<Id, seq<Entry>>

    constructor (hash: Hash, now: int)
      ensures this.hash == hash && View() == Init(now) && fresh(store)
    {
      this.hash := hash;
      clock := now;
      store := new ActionStore();
      inflight := map[];
      history := map[];
    }

    ghost function View(): State
      reads this, store
    {
      State(clock, store.rows, inflight, history)
    }

    method Propose(id: Id, action: Action)
      requires id !in history
      modifies this, store
      ensures View() == Step(hash, old(View()), Event.Propose(id, action))
      ensures store.rows == old(store.rows)[id := action.(status := Pending, result := None, error := None)]
      ensures history == old(history)[id := []] && inflight == old(inflight) && clock == old(clock)
    {
      store.rows := store.rows[id := action.(status := Pending, result := None, error := None)];
      history := history[id := []];
    }

    method Wait(ms: nat)
      modifies this`clock
      ensures View() == Step(hash, old(View()), Tick(ms))
      ensures clock == old(clock) + ms && inflight == old(inflight) && history == old(history)
    {
      clock := clock + ms;
    }

    /**
     Loads the action and makes every check that precedes the claim. What is left for 409 is an
     action that is not pending, or one that is not what was reviewed.
     */
    method BeginAuthorize(req: Request, id: Id, typed: Option<string>) returns (code: int)
      requires req !in inflight
      modifies this, store
      ensures View() == Step(hash, old(View()), Authorize(req, id, typed))
      ensures code == 0 <==> req in inflight
      ensures code in {0, 404, 409, 410, 428}
      ensures code == 404 <==> id !in old(store.rows)
      ensures id in old(store.rows) ==>
        var a := old(store.rows)[id];
        var confirmed := a.risks == [] || (typed.Some? && a.confirmText == Some(Text.Strip(typed.value)));
        && (code == 410 <==> a.status == Pending && clock > a.expiresAt)
        && (code == 428 <==> a.status == Pending && clock <= a.expiresAt && !confirmed)
        && (code == 0 <==> a.status == Pending && clock <= a.expiresAt && confirmed && hash(a.tool, a.args) == a.argsHash)
      ensures code == 0 ==> inflight == old(inflight)[req := Ready(id, old(store.rows)[id], clock, typed)]
      ensures code != 0 ==> inflight == old(inflight)
      ensures code == 410 ==> OneMoved(old(store.rows), store.rows, id, Expired, None, None)
      ensures code == 410 ==> OneNoted(old(history), history, id, Refused(Expired))
      ensures code != 410 ==> store.rows == old(store.rows) && history == old(history)
      ensures clock == old(clock)
    {
      if id !in store.rows {
        return 404;
      }
      var action := store.rows[id];
      if action.status != Pending {
        return 409;
      }
      if clock > action.expiresAt {
        var row := store.Transition(id, Pending, Expired, None, None);
        history := Noted(history, id, Refused(Expired));
        return 410;
      }
      if action.risks != [] {
        if typed.None? || action.confirmText != Some(Text.Strip(typed.value)) {
          return 428;
        }
      }
      if hash(action.tool, action.args) != action.argsHash {
        return 409;
      }
      inflight := inflight[req := Ready(id, action, clock, typed)];
      return 0;
    }

    /** Claims the action; 409 when another request or a new message got there first. */
    method ClaimAction(req: Request) returns (code: int)
      requires req in inflight && inflight[req].Ready?
      modifies this, store
      ensures View() == Step(hash, old(View()), Claim(req))
      ensures var id := old(inflight)[req].id;
        code == if id in old(store.rows) && old(store.rows)[id].status == Pending then 0 else 409
      ensures code == 0 ==>
        var Ready(id, reviewed, readAt, typed) := old(inflight)[req];
        && OneMoved(old(store.rows), store.rows, id, Executing, None, None)
        && inflight == old(inflight)[req := Holding(id, store.rows[id])]
        && OneNoted(old(history), history, id, Claimed(reviewed, readAt, typed, clock))
      ensures code != 0 ==> inflight == old(inflight) - {req} && store.rows == old(store.rows) && history == old(history)
      ensures clock == old(clock)
    {
      var Ready(id, reviewed, readAt, typed) := inflight[req];
      var claimed := store.Transition(id, Pending, Executing, None, None);
      if claimed.None? {
        inflight := inflight - {req};
        return 409;
      }
      inflight := inflight[req := Holding(id, claimed.value)];
      history := Noted(history, id, Claimed(reviewed, readAt, typed, clock));
      return 0;
    }

    /** Carries the claimed action out, unless the entity changed since the review or cannot be read. */
    method ExecuteAction(req: Request, seen: Option<Option<string>>, outcome: Result<string, string>)
      requires req in inflight && inflight[req].Holding?
      modifies this
      ensures View() == Step(hash, old(View()), Execute(req, seen, outcome))
      ensures clock == old(clock)
      ensures var Holding(id, action) := old(inflight)[req];
        var stopped := action.beforeHash.Some? && (seen.None? || seen.value != action.beforeHash);
        var digest := if seen.Some? then seen.value else None;
        && OneNoted(old(history), history, id, if stopped then Stopped(seen) else Ran(action.tool, action.args, digest, outcome))
        && inflight == old(inflight)[req := Returned(id, if stopped then Err(StoppedBy(action, seen)) else outcome)]
    {
      var Holding(id, action) := inflight[req];
      if action.beforeHash.Some? {
        if seen.None? {
          history := Noted(history, id, Stopped(seen));
          inflight := inflight[req := Returned(id, Err(UNREACHABLE))];
          return;
        }
        if seen.value != action.beforeHash {
          history := Noted(history, id, Stopped(seen));
          inflight := inflight[req := Returned(id, Err(Changed(action.tool)))];
          return;
        }
      }
      history := Noted(history, id, Ran(action.tool, action.args, Digest(seen), outcome));
      inflight := inflight[req := Returned(id, outcome)];
    }

    /** The row as recorded, unless the action was deleted meanwhile. */
    method RecordOutcome(req: Request) returns (row: Option<Action>)
      requires req in inflight && inflight[req].Returned?
      modifies this, store
      ensures View() == Step(hash, old(View()), Record(req))
      ensures inflight == old(inflight) - {req} && clock == old(clock)
      ensures var Returned(id, outcome) := old(inflight)[req];
        if id in old(store.rows) && old(store.rows)[id].status == Executing then
          && (match outcome
              case Ok(text) => OneMoved(old(store.rows), store.rows, id, Executed, Some(text), None)
              case Err(detail) => OneMoved(old(store.rows), store.rows, id, Failed, None, Some(Text.Short(detail))))
          && OneNoted(old(history), history, id, Recorded) && row == Some(store.rows[id])
        else store.rows == old(store.rows) && history == old(history) && row == None
    {
      var Returned(id, outcome) := inflight[req];
      inflight := inflight - {req};
      match outcome {
        case Ok(text) => row := store.Transition(id, Executing, Executed, Some(text), None);
        case Err(detail) => row := store.Transition(id, Executing, Failed, None, Some(Text.Short(detail)));
      }
      if row.Some? {
        history := Noted(history, id, Recorded);
      }
    }

    method RejectAction(id: Id) returns (code: int)
      modifies this, store
      ensures View() == Step(hash, old(View()), Reject(id))
      ensures code == if id !in old(store.rows) then 404 else if old(store.rows)[id].status == Pending then 0 else 409
      ensures code == 0 ==> OneMoved(old(store.rows), store.rows, id, Rejected, None, None)
      ensures code == 0 ==> OneNoted(old(history), history, id, Refused(Rejected))
      ensures code != 0 ==> store.rows == old(store.rows) && history == old(history)
      ensures inflight == old(inflight) && clock == old(clock)
    {
      var rejected := store.Transition(id, Pending, Rejected, None, None);
      if rejected.None? {
        return if id in store.rows then 409 else 404;
      }
      history := Noted(history, id, Refused(Rejected));
      return 0;
    }

    method UserMessage(conversation: nat) returns (expired: map<Id, Action>)
      modifies this, store
      ensures View() == Step(hash, old(View()), NewMessage(conversation))
      ensures forall id :: id in expired <==>
        id in old(store.rows) && old(store.rows)[id].status == Pending && old(store.rows)[id].conversation == conversation
      ensures forall id :: id in expired ==> id in old(store.rows) && expired[id] == old(store.rows)[id]
      ensures store.rows.Keys == old(store.rows).Keys && history.Keys == old(history).Keys
      ensures forall id :: id in store.rows ==>
        store.rows[id] == if id in expired then old(store.rows)[id].(status := Expired) else old(store.rows)[id]
      ensures forall id :: id in history ==>
        history[id] == if id in expired then old(history)[id] + [Refused(Expired)] else old(history)[id]
      ensures inflight == old(inflight) && clock == old(clock)
    {
      expired := store.ExpirePending(conversation);
      history := map id | id in history :: if id in expired then history[id] + [Refused(Expired)] else history[id];
    }

    method DeleteConversation(conversation: nat)
      modifies store
      ensures View() == Step(hash, old(View()), Event.Delete(conversation))
      ensures forall id :: id in store.rows <==> id in old(store.rows) && old(store.rows)[id].conversation != conversation
      ensures forall id :: id in store.rows ==> store.rows[id] == old(store.rows)[id]
    {
      store.Delete(conversation);
    }
  }
}
