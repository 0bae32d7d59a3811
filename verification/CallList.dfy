/** The list of calls made of the table: by increasing index, nameless ones dropped. */
module CallList {
  import opened Wrappers
  import opened ToolCalls

  function Among(calls: Calls, indices: set<Index>): Calls {
    map i | i in calls && i in indices :: calls[i]
  }

  /** Taking one more call, with an index above those taken. */
  lemma Longer(calls: Calls, taken: set<Index>, list: seq<(Index, Slot)>, i: Index)
    requires IsCallList(Among(calls, taken), list) && i in calls && forall j :: j in taken ==> j < i
    ensures IsCallList(Among(calls, taken + {i}), if calls[i].name != "" then list + [(i, calls[i])] else list)
  {
    var fewer, more := Among(calls, taken), Among(calls, taken + {i});
    forall k | 0 <= k < |list| ensures Named(more, list[k]) && list[k].0 < i {
      assert Named(fewer, list[k]);
    }
    forall j | j in more && j != i && more[j].name != "" ensures (j, more[j]) in list {
      assert (j, fewer[j]) in list;
    }
  }

  lemma {:induction false} MinExists(s: set<Index>)
    requires |s| > 0
    ensures exists i :: IsMin(s, i)
  {
    var x: Index :| x in s;
    var rest := s - {x};
    if |rest| > 0 {
      MinExists(rest);
      var m :| IsMin(rest, m);
      assert forall j :: j in s ==> j == x || j in rest;
      assert IsMin(s, if x < m then x else m);
    } else {
      assert s == {x};
      assert IsMin(s, x);
    }
  }

  predicate IsMin(s: set<Index>, i: Index) {
    i in s && forall j :: j in s ==> i <= j
  }

  /** `list` holds exactly the named calls, by increasing index. */
  ghost predicate IsCallList(calls: Calls, list: seq<(Index, Slot)>) {
    && (forall j, k :: 0 <= j < k < |list| ==> list[j].0 < list[k].0)
    && (forall k :: 0 <= k < |list| ==> Named(calls, list[k]))
    && forall i :: i in calls && calls[i].name != "" ==> (i, calls[i]) in list
  }

  predicate Named(calls: Calls, entry: (Index, Slot)) {
    entry.0 in calls && entry.1 == calls[entry.0] && entry.1.name != ""
  }

  /** There is only one such list, so equal tables give equal lists. */
  lemma {:induction false} CallListUnique(calls: Calls, a: seq<(Index, Slot)>, b: seq<(Index, Slot)>)
    requires IsCallList(calls, a) && IsCallList(calls, b)
    ensures a == b
    decreases |a|
  {
    if a != [] { BothEmpty(calls, a, b); }
    if b != [] { BothEmpty(calls, b, a); }
    if a != [] {
      var x := a[|a| - 1];
      assert Named(calls, x) && x == (x.0, calls[x.0]);
      assert x.0 in calls && calls[x.0].name != "" && (x.0, calls[x.0]) in b;
      var y := b[|b| - 1];
      assert Named(calls, y) && y == (y.0, calls[y.0]);
      assert (y.0, calls[y.0]) in a;
      assert x == y;
      var fewer := calls - {x.0};
      Shorter(calls, a);
      Shorter(calls, b);
      CallListUnique(fewer, a[..|a| - 1], b[..|b| - 1]);
      assert a == a[..|a| - 1] + [x] && b == b[..|b| - 1] + [y];
    }
  }

  /** Fragments and the unfragmented response give the same list of calls. */
  lemma FragmentsSameList(ds: seq<Delta<Piece>>, wholes: map<Index, Piece>, once: seq<Delta<Piece>>,
                          a: seq<(Index, Slot)>, b: seq<(Index, Slot)>)
    requires forall i :: i in wholes ==> Project(once, i) == [wholes[i]] && Cuts(Project(ds, i), wholes[i])
    requires forall i :: i !in wholes ==> Project(once, i) == [] && Project(ds, i) == []
    requires IsCallList(Fold(OpenAiStep, ds), a) && IsCallList(Fold(OpenAiStep, once), b)
    ensures a == b
  {
    FragmentsAssemble(ds, wholes, once);
    CallListUnique(Fold(OpenAiStep, ds), a, b);
  }

  lemma BothEmpty(calls: Calls, a: seq<(Index, Slot)>, b: seq<(Index, Slot)>)
    requires IsCallList(calls, a) && IsCallList(calls, b) && a != []
    ensures b != []
  {
    assert Named(calls, a[0]);
  }

  lemma Shorter(calls: Calls, a: seq<(Index, Slot)>)
    requires IsCallList(calls, a) && a != []
    ensures IsCallList(calls - {a[|a| - 1].0}, a[..|a| - 1])
  {
    var n := |a| - 1;
    var fewer := calls - {a[n].0};
    forall k | 0 <= k < n ensures Named(fewer, a[..n][k]) {
      assert Named(calls, a[k]) && a[k].0 < a[n].0;
    }
    forall i | i in fewer && fewer[i].name != "" ensures (i, fewer[i]) in a[..n] {
      assert (i, calls[i]) in a;
    }
  }

  /** The named calls in the order of their indices. */
  method Collect(calls: Calls) returns (list: seq<(Index, Slot)>)
    ensures IsCallList(calls, list)
  {
    list := [];
    var rest := calls.Keys;
    while rest != {}
      invariant rest <= calls.Keys
      invariant forall i, j :: i in calls.Keys - rest && j in rest ==> i < j
      invariant IsCallList(Among(calls, calls.Keys - rest), list)
      decreases rest
    {
      MinExists(rest);
      var i :| i in rest && IsMin(rest, i);
      Longer(calls, calls.Keys - rest, list, i);
      assert calls.Keys - (rest - {i}) == (calls.Keys - rest) + {i};
      rest := rest - {i};
      if calls[i].name != "" {
        list := list + [(i, calls[i])];
      }
    }
    assert Among(calls, calls.Keys - rest) == calls;
  }

  // ---- whole streams ----

  lemma StreamStep(events: seq<seq<(Option<Index>, Piece)>>, k: nat, calls: Calls)
    requires k < |events| && calls == Fold(OpenAiStep, StreamDeltas(events[..k]))
    ensures Fold(OpenAiStep, StreamDeltas(events[..k + 1])) == ApplyAll(OpenAiStep, calls, Indexed(events[k], |calls|))
  {
    assert events[..k + 1][..k] == events[..k];
    ApplyAllFold(OpenAiStep, StreamDeltas(events[..k]), Indexed(events[k], |calls|));
  }

  /** The list of calls a stream of events makes. */
  method StreamedCalls(events: seq<seq<(Option<Index>, Piece)>>) returns (list: seq<(Index, Slot)>)
    ensures IsCallList(Fold(OpenAiStep, StreamDeltas(events)), list)
  {
    var assembler := new Assembler();
    for k := 0 to |events|
      invariant fresh(assembler) && assembler.calls == Fold(OpenAiStep, StreamDeltas(events[..k]))
    {
      StreamStep(events, k, assembler.calls);
      assembler.OpenAiCalls(events[k], |assembler.calls|);
    }
    assert events[..|events|] == events;
    list := Collect(assembler.calls);
  }

  /** A response in fragments and the same response in one event give the same list of calls. */
  method FragmentedAndWhole(events: seq<seq<(Option<Index>, Piece)>>, response: seq<(Option<Index>, Piece)>,
                            ghost wholes: map<Index, Piece>)
    returns (streamed: seq<(Index, Slot)>, whole: seq<(Index, Slot)>)
    requires forall i :: i in wholes ==>
      Project(StreamDeltas([response]), i) == [wholes[i]] && Cuts(Project(StreamDeltas(events), i), wholes[i])
    requires forall i :: i !in wholes ==> Project(StreamDeltas([response]), i) == [] && Project(StreamDeltas(events), i) == []
    ensures streamed == whole
  {
    streamed := StreamedCalls(events);
    whole := StreamedCalls([response]);
    FragmentsSameList(StreamDeltas(events), wholes, StreamDeltas([response]), streamed, whole);
  }

  lemma BlockStep(events: seq<(Option<Index>, Block)>, k: nat, calls: Calls)
    requires k < |events| && calls == Fold(AnthropicStep, BlockDeltas(events[..k]))
    ensures Fold(AnthropicStep, BlockDeltas(events[..k + 1])) ==
      if events[k].0.None? && events[k].1.Json? then calls
      else Apply(AnthropicStep, calls, Delta(if events[k].0.Some? then events[k].0.value else |calls|, events[k].1))
  {
    assert events[..k + 1][..k] == events[..k];
    var before := BlockDeltas(events[..k]);
    var d := Delta(if events[k].0.Some? then events[k].0.value else |calls|, events[k].1);
    assert (before + [d])[..|before|] == before;
  }

  /** The list of calls a stream of Anthropic blocks makes. */
  method StreamedBlocks(events: seq<(Option<Index>, Block)>) returns (list: seq<(Index, Slot)>)
    ensures IsCallList(Fold(AnthropicStep, BlockDeltas(events)), list)
  {
    var assembler := new Assembler();
    for k := 0 to |events|
      invariant fresh(assembler) && assembler.calls == Fold(AnthropicStep, BlockDeltas(events[..k]))
    {
      BlockStep(events, k, assembler.calls);
      assembler.AnthropicEvent(events[k].0, events[k].1);
    }
    assert events[..|events|] == events;
    list := Collect(assembler.calls);
  }

  /** Blocks in fragments give exactly the named ones among the whole blocks, by increasing index. */
  method FragmentedBlocks(events: seq<(Option<Index>, Block)>, ghost wholes: Calls) returns (list: seq<(Index, Slot)>)
    requires forall i :: i in wholes ==> CutsBlock(Project(BlockDeltas(events), i), wholes[i])
    requires forall i :: i !in wholes ==> Project(BlockDeltas(events), i) == []
    ensures IsCallList(wholes, list)
  {
    BlocksAssemble(BlockDeltas(events), wholes);
    list := StreamedBlocks(events);
  }

  // ---- a response that is not streamed ----

  /** The blocks of a whole response, by position: a tool call carries its arguments as an object. */
  function Sent(content: seq<Option<Slot>>): Calls {
    map i: nat | i < |content| && content[i].Some? :: content[i].value
  }

  method WholeBlocks(content: seq<Option<Slot>>) returns (list: seq<(Index, Slot)>)
    ensures IsCallList(Sent(content), list)
  {
    var calls: Calls := map[];
    for i := 0 to |content|
      invariant calls == Sent(content[..i])
    {
      if content[i].Some? {
        calls := calls[i := content[i].value];
      }
      assert calls == Sent(content[..i + 1]);
    }
    assert content[..|content|] == content;
    list := Collect(calls);
  }

  /** The same call but for how its arguments are written. */
  predicate ReadsAs<A(==)>(read: Args -> A, a: Slot, b: Slot) {
    a.id == b.id && a.name == b.name && read(a.args) == read(b.args)
  }

  /** Tables that read alike give lists that read alike, entry by entry. */
  lemma ReadAlike<A>(read: Args -> A, calls: Calls, calls': Calls, a: seq<(Index, Slot)>, b: seq<(Index, Slot)>)
    requires calls.Keys == calls'.Keys && forall i :: i in calls ==> ReadsAs(read, calls[i], calls'[i])
    requires IsCallList(calls, a) && IsCallList(calls', b)
    ensures |a| == |b| && forall k :: 0 <= k < |a| ==> a[k].0 == b[k].0 && ReadsAs(read, a[k].1, b[k].1)
  {
    assert forall k :: 0 <= k < |b| ==> Named(calls', b[k]);
    var a' := seq(|b|, k requires 0 <= k < |b| => (b[k].0, calls[b[k].0]));
    forall i | i in calls && calls[i].name != "" ensures (i, calls[i]) in a' {
      assert ReadsAs(read, calls[i], calls'[i]);
      assert (i, calls'[i]) in b;
      var k :| 0 <= k < |b| && b[k] == (i, calls'[i]);
      assert a'[k] == (i, calls[i]);
    }
    forall k | 0 <= k < |a'| ensures Named(calls, a'[k]) && ReadsAs(read, a'[k].1, b[k].1) {
      assert ReadsAs(read, calls[b[k].0], calls'[b[k].0]);
    }
    CallListUnique(calls, a, a');
  }

  /**
   Blocks streamed in fragments and the same response sent whole give the same list of calls, where
   the arguments collected as text read as the object that was sent.
   */
  method StreamedAndSent<A>(events: seq<(Option<Index>, Block)>, content: seq<Option<Slot>>, ghost read: Args -> A, ghost wholes: Calls)
    returns (streamed: seq<(Index, Slot)>, sent: seq<(Index, Slot)>)
    requires forall i :: i in wholes ==> CutsBlock(Project(BlockDeltas(events), i), wholes[i])
    requires forall i :: i !in wholes ==> Project(BlockDeltas(events), i) == []
    requires wholes.Keys == Sent(content).Keys && forall i :: i in wholes ==> ReadsAs(read, wholes[i], Sent(content)[i])
    ensures |streamed| == |sent|
    ensures forall k :: 0 <= k < |sent| ==> streamed[k].0 == sent[k].0 && ReadsAs(read, streamed[k].1, sent[k].1)
  {
    streamed := FragmentedBlocks(events, wholes);
    sent := WholeBlocks(content);
    ReadAlike(read, wholes, Sent(content), streamed, sent);
  }
}
