/** Converting a transcript to the provider's messages: merging neighbours of the same role. */
module Messages {
  import opened Wrappers
  import opened Transcript

  datatype Role = UserRole | AssistantRole

  datatype Block =
    | Words(text: string)
    | ToolUse(id: string, name: string, input: string)
    | ToolResult(id: string, content: string)

  datatype Message = Message(role: Role, blocks: seq<Block>)

  function RoleOf(item: Item): Role {
    if item.Assistant? then AssistantRole else UserRole
  }

  function Uses(calls: seq<Call>): seq<Block> {
    seq(|calls|, k requires 0 <= k < |calls| => ToolUse(calls[k].id, calls[k].name, calls[k].args))
  }

  /** The blocks one item contributes; an assistant item without text has no text block. */
  function BlocksOf(item: Item): seq<Block> {
    match item
    case User(content) => [Words(content)]
    case Assistant(content, calls) => (if content == "" then [] else [Words(content)]) + Uses(calls)
    case Tool(id, _, content) => [ToolResult(id, content)]
  }

  function Push(out: seq<Message>, role: Role, blocks: seq<Block>): seq<Message> {
    if blocks == [] then out
    else if out != [] && out[|out| - 1].role == role then
      out[|out| - 1 := Message(role, out[|out| - 1].blocks + blocks)]
    else out + [Message(role, blocks)]
  }

  function Convert(items: seq<Item>): seq<Message> {
    if items == [] then []
    else
      var item := items[|items| - 1];
      Push(Convert(items[..|items| - 1]), RoleOf(item), BlocksOf(item))
  }

  lemma ConvertSnoc(items: seq<Item>, n: nat)
    requires n < |items|
    ensures Convert(items[..n + 1]) == Push(Convert(items[..n]), RoleOf(items[n]), BlocksOf(items[n]))
  {
    assert items[..n + 1][..n] == items[..n];
  }

  /** Extends the messages by some blocks: all of them, in order and under their role, without breaking the alternation. */
  method Extend(out: seq<Message>, role: Role, blocks: seq<Block>) returns (out': seq<Message>)
    ensures out' == Push(out, role, blocks)
    ensures Alternating(out) ==> Alternating(out')
    ensures AllBlocks(out') == AllBlocks(out) + Tagged(role, blocks)
  {
    PushKeeps(out, role, blocks);
    if Alternating(out) {
      PushAlternates(out, role, blocks);
    }
    out' := out;
    if blocks == [] {
      return;
    }
    if out != [] && out[|out| - 1].role == role {
      out' := out[|out| - 1 := Message(role, out[|out| - 1].blocks + blocks)];
    } else {
      out' := out + [Message(role, blocks)];
    }
  }

  /** The conversion, item by item. */
  method AnthropicMessages(items: seq<Item>) returns (out: seq<Message>)
    ensures out == Convert(items)
  {
    out := [];
    for i := 0 to |items|
      invariant out == Convert(items[..i])
    {
      ConvertSnoc(items, i);
      out := Extend(out, RoleOf(items[i]), BlocksOf(items[i]));
    }
    assert items[..|items|] == items;
  }

  // ---- alternation, and every block kept in order ----

  predicate Alternating(out: seq<Message>) {
    && (forall k :: 0 <= k < |out| ==> out[k].blocks != [])
    && forall k :: 0 <= k < |out| - 1 ==> out[k].role != out[k + 1].role
  }

  /** Blocks with the role of their message, in order. */
  function Tagged(role: Role, blocks: seq<Block>): seq<(Role, Block)> {
    seq(|blocks|, k requires 0 <= k < |blocks| => (role, blocks[k]))
  }

  function AllBlocks(out: seq<Message>): seq<(Role, Block)> {
    if out == [] then []
    else AllBlocks(out[..|out| - 1]) + Tagged(out[|out| - 1].role, out[|out| - 1].blocks)
  }

  function ItemBlocks(items: seq<Item>): seq<(Role, Block)> {
    if items == [] then []
    else
      var item := items[|items| - 1];
      ItemBlocks(items[..|items| - 1]) + Tagged(RoleOf(item), BlocksOf(item))
  }

  lemma PushAlternates(out: seq<Message>, role: Role, blocks: seq<Block>)
    requires Alternating(out)
    ensures Alternating(Push(out, role, blocks))
  {
  }

  lemma PushKeeps(out: seq<Message>, role: Role, blocks: seq<Block>)
    ensures AllBlocks(Push(out, role, blocks)) == AllBlocks(out) + Tagged(role, blocks)
  {
    var out' := Push(out, role, blocks);
    if blocks == [] {
      assert AllBlocks(out) + [] == AllBlocks(out);
    } else if out != [] && out[|out| - 1].role == role {
      var n := |out| - 1;
      var before, last := AllBlocks(out[..n]), Tagged(role, out[n].blocks);
      assert out'[..n] == out[..n];
      assert Tagged(role, out[n].blocks + blocks) == last + Tagged(role, blocks);
      assert before + (last + Tagged(role, blocks)) == (before + last) + Tagged(role, blocks);
    } else {
      assert out'[..|out|] == out;
    }
  }

  /** Roles alternate, and the blocks are those of the items, all of them, in order. */
  lemma {:induction false} ConvertKeepsBlocks(items: seq<Item>)
    ensures Alternating(Convert(items))
    ensures AllBlocks(Convert(items)) == ItemBlocks(items)
  {
    if items != [] {
      var n := |items| - 1;
      ConvertKeepsBlocks(items[..n]);
      PushAlternates(Convert(items[..n]), RoleOf(items[n]), BlocksOf(items[n]));
      PushKeeps(Convert(items[..n]), RoleOf(items[n]), BlocksOf(items[n]));
    }
  }

  // ---- what the messages say ----

  /** What some of the blocks say, in order. */
  function Picked<T>(blocks: seq<(Role, Block)>, f: (Role, Block) -> Option<T>): seq<T> {
    if blocks == [] then []
    else
      var (role, b) := blocks[|blocks| - 1];
      Picked(blocks[..|blocks| - 1], f) + match f(role, b) case Some(x) => [x] case None => []
  }

  lemma {:induction false} PickedConcat<T>(a: seq<(Role, Block)>, b: seq<(Role, Block)>, f: (Role, Block) -> Option<T>)
    ensures Picked(a + b, f) == Picked(a, f) + Picked(b, f)
  {
    if b == [] {
      assert a + b == a;
    } else {
      var n := |b| - 1;
      PickedConcat(a, b[..n], f);
      assert (a + b)[..|a| + n] == a + b[..n] && (a + b)[|a| + n] == b[n];
    }
  }

  function AsText(role: Role, b: Block): Option<(Role, string)> {
    if b.Words? then Some((role, b.text)) else None
  }

  function AsCall(role: Role, b: Block): Option<(Role, Call)> {
    if b.ToolUse? then Some((role, Call(b.id, b.name, b.input))) else None
  }

  function AsResult(role: Role, b: Block): Option<(Role, string, string)> {
    if b.ToolResult? then Some((role, b.id, b.content)) else None
  }

  /** The texts of a transcript: every user item's, and every assistant item's that is not empty. */
  function Texts(items: seq<Item>): seq<(Role, string)> {
    if items == [] then []
    else
      var item := items[|items| - 1];
      Texts(items[..|items| - 1]) +
        if item.User? then [(UserRole, item.content)]
        else if item.Assistant? && item.content != "" then [(AssistantRole, item.content)] else []
  }

  /** The calls of a transcript, all of them made by the assistant. */
  function CallsMade(items: seq<Item>): seq<(Role, Call)> {
    if items == [] then []
    else
      var item := items[|items| - 1];
      CallsMade(items[..|items| - 1]) + if item.Assistant? then ByAssistant(item.calls) else []
  }

  function ByAssistant(calls: seq<Call>): (r: seq<(Role, Call)>)
    ensures |r| == |calls| && forall k :: 0 <= k < |r| ==> r[k] == (AssistantRole, calls[k])
  {
    seq(|calls|, k requires 0 <= k < |calls| => (AssistantRole, calls[k]))
  }

  /** The results of a transcript, all of them given by the user. */
  function ResultsGiven(items: seq<Item>): seq<(Role, string, string)> {
    if items == [] then []
    else
      var item := items[|items| - 1];
      ResultsGiven(items[..|items| - 1]) + if item.Tool? then [(UserRole, item.callId, item.content)] else []
  }

  lemma {:induction false} UsesSay(calls: seq<Call>)
    ensures Picked(Tagged(AssistantRole, Uses(calls)), AsText) == [] && Picked(Tagged(AssistantRole, Uses(calls)), AsResult) == []
    ensures Picked(Tagged(AssistantRole, Uses(calls)), AsCall) == ByAssistant(calls)
  {
    if calls != [] {
      var n := |calls| - 1;
      UsesSay(calls[..n]);
      assert Tagged(AssistantRole, Uses(calls))[..n] == Tagged(AssistantRole, Uses(calls[..n]));
      assert ByAssistant(calls) == ByAssistant(calls[..n]) + [(AssistantRole, calls[n])];
    }
  }

  /** One block says one thing. */
  lemma OneSays(role: Role, b: Block)
    ensures Picked(Tagged(role, [b]), AsText) == if b.Words? then [(role, b.text)] else []
    ensures Picked(Tagged(role, [b]), AsCall) == if b.ToolUse? then [(role, Call(b.id, b.name, b.input))] else []
    ensures Picked(Tagged(role, [b]), AsResult) == if b.ToolResult? then [(role, b.id, b.content)] else []
  {
    var one := Tagged(role, [b]);
    assert one == [(role, b)] && one[..0] == [];
  }

  /** What an assistant item says: its text unless empty, and its calls. */
  lemma AssistantSays(content: string, calls: seq<Call>)
    ensures var said := Tagged(AssistantRole, BlocksOf(Assistant(content, calls)));
      && Picked(said, AsText) == (if content != "" then [(AssistantRole, content)] else [])
      && Picked(said, AsCall) == ByAssistant(calls) && Picked(said, AsResult) == []
  {
    UsesSay(calls);
    if content != "" {
      WordsAndUses(Words(content), Uses(calls), AsText);
      WordsAndUses(Words(content), Uses(calls), AsCall);
      WordsAndUses(Words(content), Uses(calls), AsResult);
      OneSays(AssistantRole, Words(content));
    } else {
      assert BlocksOf(Assistant(content, calls)) == Uses(calls);
    }
  }

  lemma WordsAndUses<T>(b: Block, uses: seq<Block>, f: (Role, Block) -> Option<T>)
    ensures Picked(Tagged(AssistantRole, [b] + uses), f) == Picked(Tagged(AssistantRole, [b]), f) + Picked(Tagged(AssistantRole, uses), f)
  {
    PickedConcat(Tagged(AssistantRole, [b]), Tagged(AssistantRole, uses), f);
    assert Tagged(AssistantRole, [b] + uses) == Tagged(AssistantRole, [b]) + Tagged(AssistantRole, uses);
  }

  lemma UserSays(content: string)
    ensures Says(Tagged(UserRole, [Words(content)]), [User(content)])
  {
    OneSays(UserRole, Words(content));
    LastSays([], User(content));
  }

  lemma ToolSays(id: string, name: string, content: string)
    ensures Says(Tagged(UserRole, [ToolResult(id, content)]), [Tool(id, name, content)])
  {
    OneSays(UserRole, ToolResult(id, content));
    LastSays([], Tool(id, name, content));
  }

  lemma ItemSays(item: Item)
    ensures Says(Tagged(RoleOf(item), BlocksOf(item)), [item])
  {
    match item
    case User(content) => UserSays(content);
    case Tool(id, name, content) => ToolSays(id, name, content);
    case Assistant(content, calls) =>
      AssistantSays(content, calls);
      LastSays([], item);
  }

  /** These blocks say what this transcript says. */
  ghost predicate Says(blocks: seq<(Role, Block)>, items: seq<Item>) {
    && Picked(blocks, AsText) == Texts(items) && Picked(blocks, AsCall) == CallsMade(items)
    && Picked(blocks, AsResult) == ResultsGiven(items)
  }

  lemma LastSays(items: seq<Item>, item: Item)
    ensures Texts(items + [item]) == Texts(items) +
      (if item.User? then [(UserRole, item.content)]
       else if item.Assistant? && item.content != "" then [(AssistantRole, item.content)] else [])
    ensures CallsMade(items + [item]) == CallsMade(items) + if item.Assistant? then ByAssistant(item.calls) else []
    ensures ResultsGiven(items + [item]) == ResultsGiven(items) + if item.Tool? then [(UserRole, item.callId, item.content)] else []
    ensures [] + [item] == [item]
  {
    assert (items + [item])[..|items|] == items;
  }

  /** One more item at the end. */
  lemma SaysSnoc(items: seq<Item>, item: Item)
    ensures Texts(items + [item]) == Texts(items) + Texts([item])
    ensures CallsMade(items + [item]) == CallsMade(items) + CallsMade([item])
    ensures ResultsGiven(items + [item]) == ResultsGiven(items) + ResultsGiven([item])
  {
    LastSays(items, item);
    LastSays([], item);
  }

  lemma BlocksSnoc(init: seq<Item>, item: Item)
    ensures ItemBlocks(init + [item]) == ItemBlocks(init) + Tagged(RoleOf(item), BlocksOf(item))
  {
    assert (init + [item])[..|init|] == init;
  }

  lemma SaysMore(before: seq<(Role, Block)>, init: seq<Item>, said: seq<(Role, Block)>, item: Item)
    requires Says(before, init) && Says(said, [item])
    ensures Says(before + said, init + [item])
  {
    SaysSnoc(init, item);
    PickedConcat(before, said, AsText);
    PickedConcat(before, said, AsCall);
    PickedConcat(before, said, AsResult);
  }

  lemma SaysNext(init: seq<Item>, item: Item)
    requires Says(ItemBlocks(init), init)
    ensures Says(ItemBlocks(init + [item]), init + [item])
  {
    ItemSays(item);
    BlocksSnoc(init, item);
    SaysMore(ItemBlocks(init), init, Tagged(RoleOf(item), BlocksOf(item)), item);
  }

  lemma {:induction false} ItemsSay(items: seq<Item>)
    ensures Says(ItemBlocks(items), items)
  {
    if items != [] {
      var n := |items| - 1;
      ItemsSay(items[..n]);
      SaysNext(items[..n], items[n]);
      assert items == items[..n] + [items[n]];
    }
  }

  /**
   The messages say what the transcript says, in order: its texts, by whom they are; its calls,
   by the assistant, each with its id, name and arguments; and its results, by the user, each with its call's id.
   */
  lemma ConvertSays(items: seq<Item>)
    ensures Says(AllBlocks(Convert(items)), items)
  {
    ConvertKeepsBlocks(items);
    ItemsSay(items);
  }

  // ---- results right after their calls ----

  function UseIds(blocks: seq<Block>): seq<string> {
    if blocks == [] then []
    else
      var b := blocks[|blocks| - 1];
      UseIds(blocks[..|blocks| - 1]) + if b.ToolUse? then [b.id] else []
  }

  function ResultIds(blocks: seq<Block>): seq<string> {
    if blocks == [] then []
    else
      var b := blocks[|blocks| - 1];
      ResultIds(blocks[..|blocks| - 1]) + if b.ToolResult? then [b.id] else []
  }

  /** What matters of a message here: its role, and the ids it calls and answers. */
  datatype Sig = Sig(role: Role, uses: seq<string>, results: seq<string>)

  function SigOf(m: Message): Sig {
    Sig(m.role, UseIds(m.blocks), ResultIds(m.blocks))
  }

  function Sigs(out: seq<Message>): (s: seq<Sig>)
    ensures |s| == |out| && forall k :: 0 <= k < |out| ==> s[k] == SigOf(out[k])
  {
    seq(|out|, k requires 0 <= k < |out| => SigOf(out[k]))
  }

  /** The results in message `k` answer, one by one and in order, the calls of the message before it. */
  predicate MatchedAt(s: seq<Sig>, k: nat)
    requires k < |s|
  {
    s[k].results == if k == 0 then [] else s[k - 1].uses
  }

  predicate Matched(s: seq<Sig>) {
    forall k :: 0 <= k < |s| ==> MatchedAt(s, k)
  }

  /** ... and no call of the last message is left without its result. */
  predicate Settled(s: seq<Sig>) {
    Matched(s) && (s != [] ==> s[|s| - 1].uses == [])
  }

  function PushSig(s: seq<Sig>, role: Role, uses: seq<string>, results: seq<string>): seq<Sig> {
    if s != [] && s[|s| - 1].role == role then
      s[|s| - 1 := Sig(role, s[|s| - 1].uses + uses, s[|s| - 1].results + results)]
    else s + [Sig(role, uses, results)]
  }

  lemma SigsUpdate(out: seq<Message>, k: nat, m: Message)
    requires k < |out|
    ensures Sigs(out[k := m]) == Sigs(out)[k := SigOf(m)]
  {
  }

  lemma SigsAppend(out: seq<Message>, m: Message)
    ensures Sigs(out + [m]) == Sigs(out) + [SigOf(m)]
  {
  }

  lemma SigsPush(out: seq<Message>, role: Role, blocks: seq<Block>)
    requires blocks != []
    ensures Sigs(Push(out, role, blocks)) == PushSig(Sigs(out), role, UseIds(blocks), ResultIds(blocks))
  {
    if out != [] && out[|out| - 1].role == role {
      SigsMerge(out, blocks);
    } else {
      SigsAppend(out, Message(role, blocks));
    }
  }

  lemma SigsMerge(out: seq<Message>, blocks: seq<Block>)
    requires out != [] && blocks != []
    ensures var role := out[|out| - 1].role;
      Sigs(Push(out, role, blocks)) == PushSig(Sigs(out), role, UseIds(blocks), ResultIds(blocks))
  {
    var n := |out| - 1;
    var m := Message(out[n].role, out[n].blocks + blocks);
    assert Push(out, out[n].role, blocks) == out[n := m];
    SigsUpdate(out, n, m);
    SigMerged(out[n], blocks);
  }

  lemma SigMerged(m: Message, blocks: seq<Block>)
    ensures SigOf(Message(m.role, m.blocks + blocks)) ==
      Sig(m.role, UseIds(m.blocks) + UseIds(blocks), ResultIds(m.blocks) + ResultIds(blocks))
  {
    IdsConcat(m.blocks, blocks);
  }

  lemma {:induction false} UseIdsConcat(a: seq<Block>, b: seq<Block>)
    ensures UseIds(a + b) == UseIds(a) + UseIds(b)
  {
    if b == [] {
      assert a + b == a;
    } else {
      var n := |b| - 1;
      UseIdsConcat(a, b[..n]);
      assert (a + b)[..|a| + n] == a + b[..n] && (a + b)[|a| + n] == b[n];
    }
  }

  lemma {:induction false} ResultIdsConcat(a: seq<Block>, b: seq<Block>)
    ensures ResultIds(a + b) == ResultIds(a) + ResultIds(b)
  {
    if b == [] {
      assert a + b == a;
    } else {
      var n := |b| - 1;
      ResultIdsConcat(a, b[..n]);
      assert (a + b)[..|a| + n] == a + b[..n] && (a + b)[|a| + n] == b[n];
    }
  }

  lemma IdsConcat(a: seq<Block>, b: seq<Block>)
    ensures UseIds(a + b) == UseIds(a) + UseIds(b)
    ensures ResultIds(a + b) == ResultIds(a) + ResultIds(b)
  {
    UseIdsConcat(a, b);
    ResultIdsConcat(a, b);
  }

  /** Blocks that hold no results keep the messages matched, but the calls they add wait. */
  lemma PushUses(s: seq<Sig>, role: Role, uses: seq<string>)
    requires Settled(s)
    ensures var s' := PushSig(s, role, uses, []);
      Matched(s') && s' != [] && s'[|s'| - 1].role == role && s'[|s'| - 1].uses == uses
  {
    var s', n := PushSig(s, role, uses, []), |s| - 1;
    if s != [] && s[n].role == role {
      assert MatchedAt(s, n);
      assert s[n].uses + uses == uses && s[n].results + [] == s[n].results;
    }
    forall k | 0 <= k < |s'| ensures MatchedAt(s', k) {
      if k < |s| {
        assert MatchedAt(s, k);
      }
    }
  }

  function CallIds(calls: seq<Call>, n: nat): seq<string>
    requires n <= |calls|
  {
    seq(n, k requires 0 <= k < n => calls[k].id)
  }

  lemma {:induction false} UsesIds(calls: seq<Call>, n: nat)
    requires n <= |calls|
    ensures UseIds(Uses(calls)[..n]) == CallIds(calls, n) && ResultIds(Uses(calls)[..n]) == []
  {
    if n > 0 {
      UsesIds(calls, n - 1);
      assert Uses(calls)[..n][..n - 1] == Uses(calls)[..n - 1];
    }
  }

  /** The assistant's own item: no results, and its calls wait for theirs. */
  lemma AssistantIds(content: string, calls: seq<Call>)
    ensures var blocks := BlocksOf(Assistant(content, calls));
      UseIds(blocks) == CallIds(calls, |calls|) && ResultIds(blocks) == [] && (blocks == [] ==> calls == [])
  {
    UsesIds(calls, |calls|);
    assert Uses(calls)[..|calls|] == Uses(calls);
    var head := if content == "" then [] else [Words(content)];
    assert UseIds(head) == [] && ResultIds(head) == [] by {
      if content != "" {
        assert head[..0] == [];
      }
    }
    IdsConcat(head, Uses(calls));
  }

  /** `s` ends with calls `ids`, of which the first `n` have their results in a last user message. */
  ghost predicate Partly(s: seq<Sig>, ids: seq<string>, n: nat)
    requires n <= |ids|
  {
    if n == 0 then
      Matched(s) && s != [] && s[|s| - 1].role == AssistantRole && s[|s| - 1].uses == ids
    else
      && |s| >= 2 && Matched(s[..|s| - 1]) && s[|s| - 2].uses == ids
      && s[|s| - 1] == Sig(UserRole, [], ids[..n])
  }

  lemma ResultStep(s: seq<Sig>, ids: seq<string>, n: nat)
    requires n < |ids| && Partly(s, ids, n)
    ensures Partly(PushSig(s, UserRole, [], [ids[n]]), ids, n + 1)
  {
    var s' := PushSig(s, UserRole, [], [ids[n]]);
    assert ids[..n + 1] == ids[..n] + [ids[n]];
    if n == 0 {
      assert s'[..|s|] == s;
    } else {
      assert s'[..|s| - 1] == s[..|s| - 1];
    }
  }

  /** The state after a whole round is settled again. */
  lemma PartlyDone(s: seq<Sig>, ids: seq<string>)
    requires ids != [] && Partly(s, ids, |ids|)
    ensures Settled(s)
  {
    var init := s[..|s| - 1];
    assert ids[..|ids|] == ids;
    forall k | 0 <= k < |s| ensures MatchedAt(s, k) {
      if k < |init| {
        assert MatchedAt(init, k);
      }
    }
  }

  /** The messages of the first `n` items, as signatures. */
  function SigsUpTo(items: seq<Item>, n: nat): seq<Sig>
    requires n <= |items|
  {
    Sigs(Convert(items[..n]))
  }

  lemma SigsStep(items: seq<Item>, n: nat)
    requires n < |items|
    ensures var blocks := BlocksOf(items[n]);
      SigsUpTo(items, n + 1) ==
        if blocks == [] then SigsUpTo(items, n)
        else PushSig(SigsUpTo(items, n), RoleOf(items[n]), UseIds(blocks), ResultIds(blocks))
  {
    assert items[..n + 1][..n] == items[..n];
    if BlocksOf(items[n]) != [] {
      SigsPush(Convert(items[..n]), RoleOf(items[n]), BlocksOf(items[n]));
    }
  }

  lemma ToolStep(items: seq<Item>, n: nat)
    requires n < |items| && items[n].Tool?
    ensures SigsUpTo(items, n + 1) == PushSig(SigsUpTo(items, n), UserRole, [], [items[n].callId])
  {
    SigsStep(items, n);
    ToolIds(items[n]);
  }

  lemma ToolIds(item: Item)
    requires item.Tool?
    ensures UseIds(BlocksOf(item)) == [] && ResultIds(BlocksOf(item)) == [item.callId]
  {
    assert BlocksOf(item)[..0] == [];
  }

  lemma UserStep(items: seq<Item>, n: nat)
    requires n < |items| && items[n].User?
    ensures SigsUpTo(items, n + 1) == PushSig(SigsUpTo(items, n), UserRole, [], [])
  {
    SigsStep(items, n);
    assert BlocksOf(items[n])[..0] == [];
  }

  lemma AssistantStep(items: seq<Item>, n: nat)
    requires n < |items| && items[n].Assistant?
    ensures var ids := CallIds(items[n].calls, |items[n].calls|);
      || SigsUpTo(items, n + 1) == PushSig(SigsUpTo(items, n), AssistantRole, ids, [])
      || (ids == [] && SigsUpTo(items, n + 1) == SigsUpTo(items, n))
  {
    SigsStep(items, n);
    AssistantIds(items[n].content, items[n].calls);
  }

  /** `t[j + 1]` is what item `j` makes of `t[j]`. */
  ghost predicate StepAt(items: seq<Item>, t: seq<seq<Sig>>, j: nat)
    requires j < |items| && |t| == |items| + 1
  {
    match items[j]
    case User(_) => t[j + 1] == PushSig(t[j], UserRole, [], [])
    case Tool(id, _, _) => t[j + 1] == PushSig(t[j], UserRole, [], [id])
    case Assistant(_, calls) =>
      var ids := CallIds(calls, |calls|);
      t[j + 1] == PushSig(t[j], AssistantRole, ids, []) || (ids == [] && t[j + 1] == t[j])
  }

  /** A record of the conversion, item by item. */
  ghost predicate Trace(items: seq<Item>, t: seq<seq<Sig>>) {
    |t| == |items| + 1 && forall j :: 0 <= j < |items| ==> StepAt(items, t, j)
  }

  /** The items from `at` on answer `ids`, the first `n` of them. */
  predicate RepliesAt(items: seq<Item>, at: nat, ids: seq<string>, n: nat)
    requires n <= |ids| && at + n <= |items|
  {
    forall j :: at <= j < at + n ==> items[j].Tool? && items[j].callId == ids[j - at]
  }

  lemma {:induction false} ConvertReplies(items: seq<Item>, t: seq<seq<Sig>>, ids: seq<string>, at: nat, n: nat)
    requires n <= |ids| && at + n <= |items| && Trace(items, t)
    requires Partly(t[at], ids, 0)
    requires RepliesAt(items, at, ids, n)
    ensures Partly(t[at + n], ids, n)
  {
    if n > 0 {
      ConvertReplies(items, t, ids, at, n - 1);
      assert StepAt(items, t, at + n - 1);
      ResultStep(t[at + n - 1], ids, n - 1);
    }
  }

  /** A whole round: an assistant item and the replies to its calls. */
  lemma ConvertRound(items: seq<Item>, t: seq<seq<Sig>>, at: nat, ids: seq<string>)
    requires at + |ids| < |items| && Trace(items, t)
    requires items[at].Assistant? && ids == CallIds(items[at].calls, |items[at].calls|)
    requires Settled(t[at])
    requires RepliesAt(items, at + 1, ids, |ids|)
    ensures Settled(t[at + 1 + |ids|])
  {
    assert StepAt(items, t, at);
    PushUses(t[at], AssistantRole, ids);
    if ids != [] {
      ConvertReplies(items, t, ids, at + 1, |ids|);
      PartlyDone(t[at + 1 + |ids|], ids);
    }
  }

  lemma RepliesFollow(items: seq<Item>, at: nat, calls: seq<Call>)
    requires at + |calls| < |items| && Answers(calls, items[at..][1..1 + |calls|])
    ensures RepliesAt(items, at + 1, CallIds(calls, |calls|), |calls|)
  {
    forall j | at + 1 <= j < at + 1 + |calls| ensures items[j].Tool? && items[j].callId == calls[j - at - 1].id {
      assert items[at..][1..1 + |calls|][j - at - 1] == items[j];
    }
  }

  lemma {:induction false} ConvertFrom(items: seq<Item>, t: seq<seq<Sig>>, at: nat)
    requires at <= |items| && Trace(items, t) && Paired(items[at..]) && Settled(t[at])
    ensures Settled(t[|items|])
    decreases |items| - at
  {
    if at < |items| {
      var n := if items[at].User? then 1 else 1 + |items[at].calls|;
      assert items[at..][n..] == items[at + n..];
      if items[at].User? {
        assert StepAt(items, t, at);
        PushUses(t[at], UserRole, []);
      } else {
        RepliesFollow(items, at, items[at].calls);
        ConvertRound(items, t, at, CallIds(items[at].calls, |items[at].calls|));
      }
      ConvertFrom(items, t, at + n);
    }
  }

  lemma ConversionTrace(items: seq<Item>) returns (t: seq<seq<Sig>>)
    ensures Trace(items, t) && t[0] == [] && t[|items|] == Sigs(Convert(items))
  {
    t := seq(|items| + 1, j requires 0 <= j < |items| + 1 => SigsUpTo(items, j));
    assert items[..0] == [] && items[..|items|] == items;
    forall j | 0 <= j < |items| ensures StepAt(items, t, j) {
      match items[j]
      case User(_) => UserStep(items, j);
      case Tool(_, _, _) => ToolStep(items, j);
      case Assistant(_, _) => AssistantStep(items, j);
    }
  }

  /**
   For a transcript whose calls are all answered: every tool result is in the message
   right after its call, in the order of the calls, and no call is left without one.
   */
  lemma ResultsFollowCalls(items: seq<Item>)
    requires Paired(items)
    ensures Settled(Sigs(Convert(items)))
  {
    var t := ConversionTrace(items);
    assert items[0..] == items;
    ConvertFrom(items, t, 0);
  }

  lemma PushKeepsFirst(out: seq<Message>, role: Role, blocks: seq<Block>)
    requires out != []
    ensures Push(out, role, blocks) != [] && Push(out, role, blocks)[0].role == out[0].role
  {
  }

  /** What the provider is sent: the trimmed transcript, converted, starts with the user. */
  lemma {:induction false} StartsWithUser(items: seq<Item>)
    requires items != [] && items[0].User?
    ensures Convert(items) != [] && Convert(items)[0].role == UserRole
  {
    var n := |items| - 1;
    if n > 0 {
      StartsWithUser(items[..n]);
      PushKeepsFirst(Convert(items[..n]), RoleOf(items[n]), BlocksOf(items[n]));
    } else {
      assert items[..0] == [];
    }
  }

  /** The request built from a trimmed transcript, which starts at some user item of the whole one. */
  lemma TrimmedConverts(items: seq<Item>, start: nat)
    requires Paired(items) && start < |items| && items[start].User?
    ensures var out := Convert(items[start..]);
      && out != [] && out[0].role == UserRole
      && Alternating(out)
      && AllBlocks(out) == ItemBlocks(items[start..])
      && Settled(Sigs(out))
  {
    PairedFromUser(items, start);
    ConvertKeepsBlocks(items[start..]);
    ResultsFollowCalls(items[start..]);
    StartsWithUser(items[start..]);
  }
}
