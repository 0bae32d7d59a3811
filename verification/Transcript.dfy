/** The provider-neutral transcript: what the tool loop appends, and what trimming keeps. */
module Transcript {
  import opened Lines

  datatype Call = Call(id: string, name: string, args: string)

  datatype Item =
    | User(content: string)
    | Assistant(content: string, calls: seq<Call>)
    | Tool(callId: string, name: string, content: string)

  /** `tools` answer `calls`: one reply per call, in order. */
  predicate Answers(calls: seq<Call>, tools: seq<Item>) {
    && |tools| == |calls|
    && forall k :: 0 <= k < |calls| ==> tools[k].Tool? && tools[k].callId == calls[k].id && tools[k].name == calls[k].name
  }

  /** Every call is followed by its reply, and there are no other replies. */
  predicate Paired(items: seq<Item>)
    decreases |items|
  {
    if items == [] then true
    else match items[0]
      case User(_) => Paired(items[1..])
      case Tool(_, _, _) => false
      case Assistant(_, calls) =>
        |calls| < |items| && Answers(calls, items[1..1 + |calls|]) && Paired(items[1 + |calls|..])
  }

  lemma {:induction false} PairedConcat(a: seq<Item>, b: seq<Item>)
    requires Paired(a) && Paired(b)
    ensures Paired(a + b)
    decreases |a|
  {
    if a == [] {
      assert a + b == b;
    } else {
      var n := if a[0].User? then 1 else 1 + |a[0].calls|;
      assert (a + b)[n..] == a[n..] + b;
      assert (a + b)[1..n] == a[1..n];
      PairedConcat(a[n..], b);
    }
  }

  /** Cutting at a user item never separates a call from its reply. */
  lemma {:induction false} PairedFromUser(items: seq<Item>, i: nat)
    requires Paired(items) && i < |items| && items[i].User?
    ensures Paired(items[i..])
    decreases |items|
  {
    if i == 0 {
      assert items[0..] == items;
    } else {
      var n := if items[0].User? then 1 else 1 + |items[0].calls|;
      assert forall k :: 1 <= k < n ==> items[1..n][k - 1] == items[k];
      assert items[n..][i - n..] == items[i..];
      PairedFromUser(items[n..], i - n);
    }
  }

  // ---- trimming ----

  /** The serialized size of everything from `i` on. */
  function Size(size: Item -> nat, items: seq<Item>, i: nat): nat
    requires i <= |items|
    decreases |items| - i
  {
    if i == |items| then 0 else size(items[i]) + Size(size, items, i + 1)
  }

  /** Sizes add up, item by item, so this is their sum. */
  lemma {:induction false} SizeAdds(size: Item -> nat, a: seq<Item>, b: seq<Item>)
    ensures Size(size, a + b, 0) == Size(size, a, 0) + Size(size, b, 0)
    ensures forall x :: Size(size, [x], 0) == size(x)
  {
    SizeSplits(size, a, b, 0);
    forall x ensures Size(size, [x], 0) == size(x) {
      assert Size(size, [x], 1) == 0;
    }
  }

  lemma {:induction false} SizeSplits(size: Item -> nat, a: seq<Item>, b: seq<Item>, i: nat)
    requires i <= |a|
    ensures Size(size, a + b, i) == Size(size, a, i) + Size(size, b, 0)
    decreases |a| - i
  {
    if i == |a| {
      SizeFrom(size, a, b, 0);
    } else {
      SizeSplits(size, a, b, i + 1);
    }
  }

  lemma {:induction false} SizeFrom(size: Item -> nat, a: seq<Item>, b: seq<Item>, j: nat)
    requires j <= |b|
    ensures Size(size, a + b, |a| + j) == Size(size, b, j)
    decreases |b| - j
  {
    if j < |b| {
      SizeFrom(size, a, b, j + 1);
    }
  }

  predicate Fits(size: Item -> nat, items: seq<Item>, i: nat, maxItems: nat, maxChars: nat)
    requires i <= |items|
  {
    |items| - i <= maxItems && Size(size, items, i) <= maxChars
  }

  lemma {:induction false} FitsLater(size: Item -> nat, items: seq<Item>, i: nat, j: nat, maxItems: nat, maxChars: nat)
    requires i <= j <= |items| && Fits(size, items, i, maxItems, maxChars)
    ensures Fits(size, items, j, maxItems, maxChars)
    decreases j - i
  {
    if i < j {
      FitsLater(size, items, i + 1, j, maxItems, maxChars);
    }
  }

  /** The longest suffix within both limits that starts at a user item; nothing when there is none. */
  method TrimTranscript(items: seq<Item>, size: Item -> nat, maxItems: nat, maxChars: nat)
    returns (kept: seq<Item>, ghost start: nat)
    ensures start <= |items| && kept == items[start..]
    ensures start < |items| ==> items[start].User? && |items| - start <= maxItems && Size(size, items, start) <= maxChars
    ensures forall i :: 0 <= i < start && items[i].User? ==> |items| - i > maxItems || Size(size, items, i) > maxChars
    ensures Paired(items) ==> Paired(kept)
  {
    var total, first := 0, |items|;
    var index := |items|;
    while index > 0
      invariant 0 <= index <= |items| && index <= first <= |items|
      invariant total == Size(size, items, index)
      invariant first < |items| ==> items[first].User? && Fits(size, items, first, maxItems, maxChars)
      invariant forall i :: index <= i < first ==> !items[i].User?
    {
      total := total + size(items[index - 1]);
      if total > maxChars || |items| - (index - 1) > maxItems {
        forall i | 0 <= i < index ensures |items| - i > maxItems || Size(size, items, i) > maxChars {
          if Fits(size, items, i, maxItems, maxChars) {
            FitsLater(size, items, i, index - 1, maxItems, maxChars);
          }
        }
        break;
      }
      index := index - 1;
      if items[index].User? {
        first := index;
      }
    }
    kept, start := items[first..], first;
    if Paired(items) && first < |items| {
      PairedFromUser(items, first);
    }
  }

  // ---- the tool loop ----

  const MAX_AGENT_STEPS := 10

  /** How the console disposes of one call; the texts are what it tells the model. */
  datatype Disposal =
    | Blocked(text: string)
    | Read(text: string)
    | Write(proposed: bool, text: string)    // `proposed`: the review passed and an action was stored

  /** One model turn: its text and calls, each call with its disposal, or a failure of the provider. */
  datatype Round = Raised | Turn(text: string, calls: seq<Call>, disposals: seq<Disposal>)

  const ONE_AT_A_TIME := "Only one change can wait for authorization at a time. Propose the next one after the user decides on the pending one."

  predicate Sound(r: Round) {
    r.Turn? ==> |r.disposals| == |r.calls|
  }

  /** Whether an action is waiting once the first `k` calls have been handled. */
  predicate Waiting(r: Round, k: nat)
    requires r.Turn? && Sound(r) && k <= |r.calls|
  {
    exists j :: 0 <= j < k && r.disposals[j].Write? && r.disposals[j].proposed
  }

  function Reply(r: Round, k: nat): Item
    requires r.Turn? && Sound(r) && k < |r.calls|
  {
    Tool(r.calls[k].id, r.calls[k].name,
         if r.disposals[k].Write? && Waiting(r, k) then ONE_AT_A_TIME else r.disposals[k].text)
  }

  /** The replies to the first `n` calls. */
  function Replies(r: Round, n: nat): (items: seq<Item>)
    requires r.Turn? && Sound(r) && n <= |r.calls|
    ensures |items| == n && forall k :: 0 <= k < n ==> items[k] == Reply(r, k)
  {
    seq(n, k requires 0 <= k < n => Reply(r, k))
  }

  lemma RepliesSnoc(r: Round, n: nat)
    requires r.Turn? && Sound(r) && n < |r.calls|
    ensures Replies(r, n + 1) == Replies(r, n) + [Reply(r, n)]
  {
  }

  function RoundItems(r: Round): seq<Item>
    requires r.Turn? && Sound(r)
  {
    [Assistant(r.text, r.calls)] + Replies(r, |r.calls|)
  }

  lemma RoundIsPaired(r: Round)
    requires r.Turn? && Sound(r)
    ensures Paired(RoundItems(r))
  {
    var items := RoundItems(r);
    var n := 1 + |r.calls|;
    assert items[n..] == [];
    assert items[1..n] == Replies(r, |r.calls|);
  }

  /** The first `n` are turns, not failures. */
  predicate AllTurns(rounds: seq<Round>, n: nat) {
    n <= |rounds| && forall k :: 0 <= k < n ==> rounds[k].Turn? && Sound(rounds[k])
  }

  function RoundsItems(rounds: seq<Round>, n: nat): seq<Item>
    requires AllTurns(rounds, n)
  {
    if n == 0 then [] else RoundsItems(rounds, n - 1) + RoundItems(rounds[n - 1])
  }

  lemma {:induction false} RoundsArePaired(rounds: seq<Round>, n: nat)
    requires AllTurns(rounds, n)
    ensures Paired(RoundsItems(rounds, n))
  {
    if n > 0 {
      RoundsArePaired(rounds, n - 1);
      RoundIsPaired(rounds[n - 1]);
      PairedConcat(RoundsItems(rounds, n - 1), RoundItems(rounds[n - 1]));
    }
  }

  /**
   What the model is told about call `j`: for a blocked or a read one its own text, whatever is
   waiting; for a write its own text too, unless the review of an earlier write of the turn passed.
   */
  ghost predicate Tells(item: Item, r: Round, j: nat)
    requires r.Turn? && Sound(r) && j < |r.calls|
  {
    var earlier := exists i :: 0 <= i < j && r.disposals[i].Write? && r.disposals[i].proposed;
    && item.Tool? && item.callId == r.calls[j].id && item.name == r.calls[j].name
    && item.content == if r.disposals[j].Write? && earlier then ONE_AT_A_TIME else r.disposals[j].text
  }

  /** The items of one turn: the assistant's own, then what is told about each call. */
  ghost predicate TellsTurn(items: seq<Item>, r: Round)
    requires r.Turn? && Sound(r)
  {
    && |items| == 1 + |r.calls| && items[0] == Assistant(r.text, r.calls)
    && TellsAll(items[1..], r)
  }

  ghost predicate TellsAll(tools: seq<Item>, r: Round)
    requires r.Turn? && Sound(r)
  {
    |tools| == |r.calls| && forall j :: 0 <= j < |tools| ==> Tells(tools[j], r, j)
  }

  /** What was there stays, and the items of the first `n` turns follow, turn by turn. */
  ghost predicate TellsMore(before: seq<Item>, after: seq<Item>, rounds: seq<Round>, n: nat)
    requires AllTurns(rounds, n)
  {
    exists parts: seq<seq<Item>> :: |parts| == n && after == before + Flatten(parts) && TellsEach(parts, rounds)
  }

  ghost predicate TellsEach(parts: seq<seq<Item>>, rounds: seq<Round>)
    requires AllTurns(rounds, |parts|)
  {
    forall k :: 0 <= k < |parts| ==> TellsTurn(parts[k], rounds[k])
  }

  lemma ReplyTells(r: Round, j: nat)
    requires r.Turn? && Sound(r) && j < |r.calls|
    ensures Tells(Reply(r, j), r, j)
  {
  }

  lemma RoundTells(r: Round)
    requires r.Turn? && Sound(r)
    ensures TellsTurn(RoundItems(r), r)
  {
    var tools := Replies(r, |r.calls|);
    forall j | 0 <= j < |r.calls| ensures Tells(tools[j], r, j) {
      ReplyTells(r, j);
    }
    assert RoundItems(r)[1..] == tools;
  }

  lemma {:induction false} RoundsTell(rounds: seq<Round>, n: nat) returns (parts: seq<seq<Item>>)
    requires AllTurns(rounds, n)
    ensures |parts| == n && Flatten(parts) == RoundsItems(rounds, n) && TellsEach(parts, rounds)
  {
    parts := [];
    if n > 0 {
      var before := RoundsTell(rounds, n - 1);
      RoundTells(rounds[n - 1]);
      parts := before + [RoundItems(rounds[n - 1])];
      assert parts[..n - 1] == before;
    }
  }

  /** What whole rounds add to a transcript. */
  lemma WholeRounds(before: seq<Item>, after: seq<Item>, rounds: seq<Round>, n: nat)
    requires AllTurns(rounds, n) && after == before + RoundsItems(rounds, n)
    ensures TellsMore(before, after, rounds, n)
    ensures Paired(before) ==> Paired(after)
  {
    var parts := RoundsTell(rounds, n);
    RoundsArePaired(rounds, n);
    if Paired(before) {
      PairedConcat(before, RoundsItems(rounds, n));
    }
  }

  /** The review of this write passed, and nothing was waiting yet: the call that is stored as an action. */
  predicate StoredCall(r: Round, j: nat)
    requires r.Turn? && Sound(r) && j < |r.calls|
  {
    r.disposals[j].Write? && r.disposals[j].proposed && !Waiting(r, j)
  }

  /** What the first `k` calls of a turn store. */
  function Stored(r: Round, k: nat): seq<Call>
    requires r.Turn? && Sound(r) && k <= |r.calls|
  {
    if k == 0 then [] else Stored(r, k - 1) + if StoredCall(r, k - 1) then [r.calls[k - 1]] else []
  }

  /** That is the first write whose review passed, if there is one, and nothing else. */
  lemma {:induction false} StoredIsFirst(r: Round, k: nat)
    requires r.Turn? && Sound(r) && k <= |r.calls|
    ensures if Waiting(r, k) then exists j :: 0 <= j < k && StoredCall(r, j) && Stored(r, k) == [r.calls[j]] else Stored(r, k) == []
  {
    if k > 0 {
      StoredIsFirst(r, k - 1);
      if StoredCall(r, k - 1) {
        assert Stored(r, k) == [r.calls[k - 1]];
      } else if Waiting(r, k - 1) {
        var j :| 0 <= j < k - 1 && StoredCall(r, j) && Stored(r, k - 1) == [r.calls[j]];
        assert Stored(r, k) == [r.calls[j]];
      }
    }
  }

  /** Exactly one action was added, for the turn's first write whose review passed. */
  ghost predicate OneStored(r: Round, before: seq<Call>, after: seq<Call>) {
    && r.Turn? && Sound(r)
    && exists j :: 0 <= j < |r.calls| && StoredCall(r, j) && after == before + [r.calls[j]]
  }

  /** A turn after which the loop goes on. */
  predicate GoesOn(r: Round) {
    Sound(r) && r.Turn? && r.calls != [] && !Waiting(r, |r.calls|)
  }

  /** After how many turns the loop stops, and why. */
  ghost predicate Ends(rounds: seq<Round>, steps: nat, ending: Ending)
    requires steps <= MAX_AGENT_STEPS <= |rounds|
  {
    && (forall k :: 0 <= k < steps - 1 ==> GoesOn(rounds[k]))
    && match ending
       case Answered => steps > 0 && rounds[steps - 1].Turn? && rounds[steps - 1].calls == []
       case WaitsForUser => steps > 0 && Waits(rounds[steps - 1])
       case ProviderFailed => steps < MAX_AGENT_STEPS && rounds[steps].Raised?
       case OutOfSteps => steps == MAX_AGENT_STEPS
  }

  predicate Waits(r: Round) {
    r.Turn? && Sound(r) && Waiting(r, |r.calls|)
  }

  datatype Ending = Answered | WaitsForUser | ProviderFailed | OutOfSteps

  class Conversation {
    var items: seq<Item>
    var actions: seq<Call>    // the calls stored as actions, oldest first

    constructor ()
      ensures items == [] && actions == []
    {
      items, actions := [], [];
    }

    method Append(more: seq<Item>)
      modifies this`items
      ensures items == old(items) + more
    {
      items := items + more;
    }

    /** One call: blocked, read, or stored as the action that waits, and answered. */
    method HandleCall(r: Round, k: nat, waitingIn: bool) returns (waiting: bool)
      requires r.Turn? && Sound(r) && k < |r.calls| && waitingIn == Waiting(r, k)
      modifies this
      ensures items == old(items) + [Reply(r, k)] && Tells(Reply(r, k), r, k)
      ensures waiting == Waiting(r, k + 1)
      ensures actions == if StoredCall(r, k) then old(actions) + [r.calls[k]] else old(actions)
    {
      var call, disposal := r.calls[k], r.disposals[k];
      var text := disposal.text;
      waiting := waitingIn;
      if disposal.Write? && waiting {
        text := ONE_AT_A_TIME;
      } else if disposal.Write? && disposal.proposed {
        actions := actions + [call];
        waiting := true;
      }
      ReplyTells(r, k);
      Append([Tool(call.id, call.name, text)]);
    }

    /** The calls of one turn, each answered in turn; the first write whose review passed is stored. */
    method HandleCalls(r: Round) returns (waiting: bool)
      requires r.Turn? && Sound(r)
      modifies this
      ensures items == old(items) + Replies(r, |r.calls|)
      ensures waiting == Waiting(r, |r.calls|)
      ensures actions == old(actions) + Stored(r, |r.calls|)
    {
      waiting := false;
      for k := 0 to |r.calls|
        invariant items == old(items) + Replies(r, k)
        invariant waiting == Waiting(r, k)
        invariant actions == old(actions) + Stored(r, k)
      {
        RepliesSnoc(r, k);
        Reassociate(old(items), Replies(r, k), [Reply(r, k)]);
        Reassociate(old(actions), Stored(r, k), [r.calls[k]]);
        waiting := HandleCall(r, k, waiting);
      }
    }

    /** One round: the assistant's item, then the replies to its calls. */
    method TakeTurn(r: Round) returns (waiting: bool)
      requires r.Turn? && Sound(r)
      modifies this
      ensures items == old(items) + RoundItems(r)
      ensures waiting == Waiting(r, |r.calls|)
      ensures if waiting then OneStored(r, old(actions), actions) else actions == old(actions)
    {
      Reassociate(items, [Assistant(r.text, r.calls)], Replies(r, |r.calls|));
      StoredIsFirst(r, |r.calls|);
      Append([Assistant(r.text, r.calls)]);
      waiting := HandleCalls(r);
    }

    /**
     The tool loop over the model's turns. It appends whole rounds only, at most ten,
     creates at most one action, and never takes another turn once one is waiting.
     */
    method AgentRun(rounds: seq<Round>) returns (ending: Ending, steps: nat)
      requires forall k :: 0 <= k < |rounds| ==> Sound(rounds[k])
      requires |rounds| >= MAX_AGENT_STEPS
      modifies this
      ensures steps <= MAX_AGENT_STEPS
      ensures AllTurns(rounds, steps)
      ensures items == old(items) + RoundsItems(rounds, steps)
      ensures TellsMore(old(items), items, rounds, steps)
      ensures Paired(old(items)) ==> Paired(items)
      ensures Ends(rounds, steps, ending)
      ensures if ending == WaitsForUser then OneStored(rounds[steps - 1], old(actions), actions) else actions == old(actions)
    {
      steps, ending := 0, OutOfSteps;
      while steps < MAX_AGENT_STEPS
        invariant steps <= MAX_AGENT_STEPS
        invariant AllTurns(rounds, steps)
        invariant forall k :: 0 <= k < steps ==> GoesOn(rounds[k])
        invariant items == old(items) + RoundsItems(rounds, steps)
        invariant actions == old(actions)
      {
        var r := rounds[steps];
        if r.Raised? {
          ending := ProviderFailed;
          break;
        }
        Reassociate(old(items), RoundsItems(rounds, steps), RoundItems(r));
        var waiting := TakeTurn(r);
        steps := steps + 1;
        if r.calls == [] {
          ending := Answered;
          break;
        }
        if waiting {
          ending := WaitsForUser;
          break;
        }
      }
      WholeRounds(old(items), items, rounds, steps);
    }
  }
}
