/** Reassembling tool calls from indexed fragments of a stream. */
module ToolCalls {
  import opened Wrappers
  import opened Lines

  /** Arguments collected so far: text still to be parsed, or an object sent whole. */
  datatype Args = Text(text: string) | Object(json: string)

  datatype Slot = Slot(id: string, name: string, args: Args)

  /** The number a provider gives to a call: its position in the response. */
  type Index = nat

  type Calls = map<Index, Slot>

  datatype Delta<E> = Delta(index: Index, event: E)

  /** What an event makes of the slot it addresses; None when it changes nothing. */
  type StepFn<!E> = (Option<Slot>, E) -> Option<Slot>

  function Lookup(calls: Calls, i: Index): Option<Slot> {
    if i in calls then Some(calls[i]) else None
  }

  function Apply<E>(step: StepFn<E>, calls: Calls, d: Delta<E>): Calls {
    match step(Lookup(calls, d.index), d.event)
    case Some(slot) => calls[d.index := slot]
    case None => calls
  }

  function Fold<E>(step: StepFn<E>, ds: seq<Delta<E>>): Calls {
    if ds == [] then map[] else Apply(step, Fold(step, ds[..|ds| - 1]), ds[|ds| - 1])
  }

  // ---- only the order within each index matters ----

  function Project<E>(ds: seq<Delta<E>>, i: Index): seq<E> {
    if ds == [] then []
    else
      var d := ds[|ds| - 1];
      Project(ds[..|ds| - 1], i) + if d.index == i then [d.event] else []
  }

  function FoldSlot<E>(step: StepFn<E>, events: seq<E>): Option<Slot> {
    if events == [] then None
    else
      var slot := FoldSlot(step, events[..|events| - 1]);
      match step(slot, events[|events| - 1])
      case Some(s) => Some(s)
      case None => slot
  }

  lemma {:induction false} FoldAt<E>(step: StepFn<E>, ds: seq<Delta<E>>, i: Index)
    ensures Lookup(Fold(step, ds), i) == FoldSlot(step, Project(ds, i))
  {
    if ds != [] {
      FoldAt(step, ds[..|ds| - 1], i);
      var p := Project(ds[..|ds| - 1], i);
      var d := ds[|ds| - 1];
      if d.index == i {
        assert (p + [d.event])[..|p|] == p;
      } else {
        assert p + [] == p;
      }
    }
  }

  lemma SameLookups(m: Calls, n: Calls)
    requires forall i :: Lookup(m, i) == Lookup(n, i)
    ensures m == n
  {
    forall i ensures (i in m <==> i in n) && (i in m ==> m[i] == n[i]) {
      assert Lookup(m, i) == Lookup(n, i);
    }
  }

  /** Two interleavings that agree index by index assemble to the same calls. */
  lemma SameProjections<E>(step: StepFn<E>, a: seq<Delta<E>>, b: seq<Delta<E>>)
    requires forall i :: Project(a, i) == Project(b, i)
    ensures Fold(step, a) == Fold(step, b)
  {
    var m, n := Fold(step, a), Fold(step, b);
    forall i ensures Lookup(m, i) == Lookup(n, i) {
      FoldAt(step, a, i);
      FoldAt(step, b, i);
    }
    SameLookups(m, n);
  }

  // ---- the OpenAI form ----

  datatype Piece = Piece(id: string, name: string, args: Option<Args>)

  const EMPTY := Slot("", "", Text(""))

  function Merge(slot: Slot, p: Piece): Slot {
    Slot(if p.id != "" then p.id else slot.id,
         if p.name != "" then p.name else slot.name,
         match p.args
         case None => slot.args
         case Some(Object(json)) => Object(json)
         case Some(Text(more)) => Text((if slot.args.Text? then slot.args.text else "") + more))
  }

  function OpenAiStep(slot: Option<Slot>, p: Piece): Option<Slot> {
    Some(Merge(if slot.Some? then slot.value else EMPTY, p))
  }

  function ArgsText(pieces: seq<Piece>): string {
    if pieces == [] then ""
    else
      var p := pieces[|pieces| - 1];
      ArgsText(pieces[..|pieces| - 1]) + if p.args.Some? && p.args.value.Text? then p.args.value.text else ""
  }

  /** `pieces` are `whole` cut up: its id and name somewhere, nothing else in their place, its text in order. */
  ghost predicate Cuts(pieces: seq<Piece>, whole: Piece) {
    && whole.args.Some? && whole.args.value.Text?
    && (forall k :: 0 <= k < |pieces| ==> Part(pieces[k], whole))
    && (exists k :: 0 <= k < |pieces| && pieces[k].id == whole.id)
    && (exists k :: 0 <= k < |pieces| && pieces[k].name == whole.name)
    && ArgsText(pieces) == whole.args.value.text
  }

  predicate Part(p: Piece, whole: Piece) {
    p.id in {"", whole.id} && p.name in {"", whole.name} && (p.args.Some? ==> p.args.value.Text?)
  }

  /** The slot after all the pieces, and after all but the last. */
  lemma FoldStep(pieces: seq<Piece>)
    requires pieces != []
    ensures var before := FoldSlot(OpenAiStep, pieces[..|pieces| - 1]);
      FoldSlot(OpenAiStep, pieces) == Some(Merge(if before.Some? then before.value else EMPTY, pieces[|pieces| - 1]))
  {
  }

  lemma {:induction false} PartsArgs(pieces: seq<Piece>)
    requires pieces != [] && forall k :: 0 <= k < |pieces| ==> pieces[k].args.Some? ==> pieces[k].args.value.Text?
    ensures FoldSlot(OpenAiStep, pieces).Some? && FoldSlot(OpenAiStep, pieces).value.args == Text(ArgsText(pieces))
  {
    FoldStep(pieces);
    var n := |pieces| - 1;
    if n > 0 {
      PartsArgs(pieces[..n]);
    }
  }

  lemma {:induction false} PartsId(pieces: seq<Piece>, id: string)
    requires pieces != [] && forall k :: 0 <= k < |pieces| ==> pieces[k].id == "" || pieces[k].id == id
    requires exists k :: 0 <= k < |pieces| && pieces[k].id == id
    ensures FoldSlot(OpenAiStep, pieces).Some? && FoldSlot(OpenAiStep, pieces).value.id == id
  {
    FoldStep(pieces);
    var n := |pieces| - 1;
    if n > 0 && pieces[n].id != id {
      var k :| 0 <= k < |pieces| && pieces[k].id == id;
      assert pieces[..n][k].id == id;
      PartsId(pieces[..n], id);
    } else if n > 0 && id == "" {
      assert pieces[..n][0].id == "";
      PartsId(pieces[..n], id);
    }
  }

  lemma {:induction false} PartsName(pieces: seq<Piece>, name: string)
    requires pieces != [] && forall k :: 0 <= k < |pieces| ==> pieces[k].name == "" || pieces[k].name == name
    requires exists k :: 0 <= k < |pieces| && pieces[k].name == name
    ensures FoldSlot(OpenAiStep, pieces).Some? && FoldSlot(OpenAiStep, pieces).value.name == name
  {
    FoldStep(pieces);
    var n := |pieces| - 1;
    if n > 0 && pieces[n].name != name {
      var k :| 0 <= k < |pieces| && pieces[k].name == name;
      assert pieces[..n][k].name == name;
      PartsName(pieces[..n], name);
    } else if n > 0 && name == "" {
      assert pieces[..n][0].name == "";
      PartsName(pieces[..n], name);
    }
  }

  /** A cut-up call assembles to what the whole one would have. */
  lemma CutsMerge(pieces: seq<Piece>, whole: Piece)
    requires Cuts(pieces, whole)
    ensures FoldSlot(OpenAiStep, pieces) == FoldSlot(OpenAiStep, [whole]) == Some(Slot(whole.id, whole.name, whole.args.value))
  {
    PartsArgs(pieces);
    PartsId(pieces, whole.id);
    PartsName(pieces, whole.name);
    FoldStep([whole]);
    assert [whole][..0] == [];
    var text := whole.args.value.text;
    assert "" + text == text;
    assert FoldSlot(OpenAiStep, pieces).value == Slot(whole.id, whole.name, Text(text));
    assert Merge(EMPTY, whole) == Slot(whole.id, whole.name, Text(text));
  }

  /**
   Fragments in any interleaving that keeps each index's own order assemble to the
   calls of the unfragmented response.
   */
  lemma FragmentsAssemble(ds: seq<Delta<Piece>>, wholes: map<Index, Piece>, once: seq<Delta<Piece>>)
    requires forall i :: i in wholes ==> Project(once, i) == [wholes[i]] && Cuts(Project(ds, i), wholes[i])
    requires forall i :: i !in wholes ==> Project(once, i) == [] && Project(ds, i) == []
    ensures Fold(OpenAiStep, ds) == Fold(OpenAiStep, once)
  {
    var m, n := Fold(OpenAiStep, ds), Fold(OpenAiStep, once);
    forall i ensures Lookup(m, i) == Lookup(n, i) {
      FoldAt(OpenAiStep, ds, i);
      FoldAt(OpenAiStep, once, i);
      if i in wholes {
        CutsMerge(Project(ds, i), wholes[i]);
      }
    }
    SameLookups(m, n);
  }

  /** And that is these calls, each with its id, its name and all of its text. */
  lemma FragmentsMakeCalls(ds: seq<Delta<Piece>>, wholes: map<Index, Piece>)
    requires forall i :: i in wholes ==> Cuts(Project(ds, i), wholes[i])
    requires forall i :: i !in wholes ==> Project(ds, i) == []
    ensures Fold(OpenAiStep, ds).Keys == wholes.Keys
    ensures forall i :: i in wholes ==> Carries(Fold(OpenAiStep, ds)[i], wholes[i])
  {
    var m := Fold(OpenAiStep, ds);
    forall i ensures i in wholes <==> i in m {
      FoldAt(OpenAiStep, ds, i);
    }
    forall i | i in wholes ensures Carries(m[i], wholes[i]) {
      FoldAt(OpenAiStep, ds, i);
      CutsMerge(Project(ds, i), wholes[i]);
    }
  }

  predicate Carries(slot: Slot, whole: Piece) {
    slot.id == whole.id && slot.name == whole.name && whole.args == Some(slot.args)
  }

  // ---- the Anthropic form ----

  datatype Block = Start(id: string, name: string) | Json(part: string)

  /** A start replaces the slot; text is appended to a slot that was started, and dropped otherwise. */
  function AnthropicStep(slot: Option<Slot>, b: Block): Option<Slot> {
    match b
    case Start(id, name) => Some(Slot(id, name, Text("")))
    case Json(part) =>
      if slot.Some? && slot.value.args.Text? then
        Some(Slot(slot.value.id, slot.value.name, Text(slot.value.args.text + part)))
      else None
  }

  function JsonText(parts: seq<Block>): string {
    if parts == [] then ""
    else
      var b := parts[|parts| - 1];
      JsonText(parts[..|parts| - 1]) + if b.Json? then b.part else ""
  }

  lemma {:induction false} BlockAssembles(id: string, name: string, parts: seq<Block>)
    requires forall k :: 0 <= k < |parts| ==> parts[k].Json?
    ensures FoldSlot(AnthropicStep, [Start(id, name)] + parts) == Some(Slot(id, name, Text(JsonText(parts))))
  {
    var all := [Start(id, name)] + parts;
    if parts == [] {
      assert all[..0] == [];
    } else {
      var n := |parts| - 1;
      BlockAssembles(id, name, parts[..n]);
      assert all[..n + 1] == [Start(id, name)] + parts[..n];
    }
  }

  /** `pieces` are a block cut up: its start, then its text in order. */
  ghost predicate CutsBlock(pieces: seq<Block>, whole: Slot) {
    && pieces != [] && pieces[0] == Start(whole.id, whole.name)
    && (forall k :: 1 <= k < |pieces| ==> pieces[k].Json?)
    && whole.args == Text(JsonText(pieces[1..]))
  }

  lemma CutsBlockAssembles(pieces: seq<Block>, whole: Slot)
    requires CutsBlock(pieces, whole)
    ensures FoldSlot(AnthropicStep, pieces) == Some(whole)
  {
    BlockAssembles(whole.id, whole.name, pieces[1..]);
    assert pieces == [pieces[0]] + pieces[1..];
  }

  /** Blocks cut up, in any interleaving that keeps each index's own order, assemble to the whole ones. */
  lemma BlocksAssemble(ds: seq<Delta<Block>>, wholes: Calls)
    requires forall i :: i in wholes ==> CutsBlock(Project(ds, i), wholes[i])
    requires forall i :: i !in wholes ==> Project(ds, i) == []
    ensures Fold(AnthropicStep, ds) == wholes
  {
    var m := Fold(AnthropicStep, ds);
    forall i ensures Lookup(m, i) == Lookup(wholes, i) {
      FoldAt(AnthropicStep, ds, i);
      if i in wholes {
        CutsBlockAssembles(Project(ds, i), wholes[i]);
      }
    }
    SameLookups(m, wholes);
  }

  // ---- the table of calls, and the list made of it ----

  lemma ApplyNext<D>(step: (Option<Slot>, D) -> Option<Slot>, calls: Calls, ds: seq<Delta<D>>, n: nat)
    requires n < |ds|
    ensures ApplyAll(step, calls, ds[..n + 1]) == Apply(step, ApplyAll(step, calls, ds[..n]), ds[n])
  {
    assert ds[..n + 1][..n] == ds[..n];
  }

  class Assembler {
    var calls: Calls

    constructor ()
      ensures calls == map[]
    {
      calls := map[];
    }

    /** One call of an event: its slot is made when it is new, and extended. */
    method OpenAiCall(index: Index, piece: Piece)
      modifies this
      ensures calls == Apply(OpenAiStep, old(calls), Delta(index, piece))
      ensures index in calls && calls == old(calls)[index := calls[index]]
      ensures var slot := if index in old(calls) then old(calls)[index] else Slot("", "", Text(""));
        && calls[index].id == (if piece.id == "" then slot.id else piece.id)
        && calls[index].name == (if piece.name == "" then slot.name else piece.name)
        && match piece.args
           case None => calls[index].args == slot.args
           case Some(Object(json)) => calls[index].args == Object(json)
           case Some(Text(more)) => calls[index].args == (if slot.args.Text? then Text(slot.args.text + more) else Text(more))
    {
      if index !in calls {
        calls := calls[index := EMPTY];
      }
      calls := calls[index := Merge(calls[index], piece)];
    }

    /** The calls of one OpenAI event; one without an index takes its position after those known. */
    method OpenAiCalls(raw: seq<(Option<Index>, Piece)>, fallbackBase: nat)
      modifies this
      ensures calls == ApplyAll(OpenAiStep, old(calls), Indexed(raw, fallbackBase))
    {
      var base := calls;
      ghost var ds := Indexed(raw, fallbackBase);
      for pos := 0 to |raw|
        invariant calls == ApplyAll(OpenAiStep, base, ds[..pos])
      {
        ApplyNext(OpenAiStep, base, ds, pos);
        var index := if raw[pos].0.Some? then raw[pos].0.value else fallbackBase + pos;
        assert ds[pos] == Delta(index, raw[pos].1);
        OpenAiCall(index, raw[pos].1);
      }
      assert ds[..|raw|] == ds;
    }

    method AnthropicEvent(index: Option<Index>, b: Block)
      modifies this
      ensures index.Some? || b.Start? ==>
        calls == Apply(AnthropicStep, old(calls), Delta(if index.Some? then index.value else old(|calls|), b))
      ensures index.None? && b.Json? ==> calls == old(calls)
      ensures b.Start? ==>
        calls == old(calls)[if index.Some? then index.value else old(|calls|) := Slot(b.id, b.name, Text(""))]
      ensures b.Json? && index.Some? ==>
        var i := index.value;
        if i in old(calls) && old(calls)[i].args.Text? then
          calls == old(calls)[i := old(calls)[i].(args := Text(old(calls)[i].args.text + b.part))]
        else calls == old(calls)
    {
      match b
      case Start(id, name) =>
        var i := if index.Some? then index.value else |calls|;
        calls := calls[i := Slot(id, name, Text(""))];
      case Json(part) =>
        if index.None? {
          return;
        }
        var i := index.value;
        if i in calls && calls[i].args.Text? {
          calls := calls[i := calls[i].(args := Text(calls[i].args.text + part))];
        }
    }
  }

  function Indexed(raw: seq<(Option<Index>, Piece)>, fallbackBase: nat): (ds: seq<Delta<Piece>>)
    ensures |ds| == |raw|
  {
    seq(|raw|, k requires 0 <= k < |raw| =>
      Delta(if raw[k].0.Some? then raw[k].0.value else fallbackBase + k, raw[k].1))
  }

  function ApplyAll<E>(step: StepFn<E>, calls: Calls, ds: seq<Delta<E>>): Calls {
    if ds == [] then calls else Apply(step, ApplyAll(step, calls, ds[..|ds| - 1]), ds[|ds| - 1])
  }

  /** The fragments of a whole stream; those without an index count on from the calls known so far. */
  function StreamDeltas(events: seq<seq<(Option<Index>, Piece)>>): seq<Delta<Piece>> {
    if events == [] then []
    else
      var before := StreamDeltas(events[..|events| - 1]);
      before + Indexed(events[|events| - 1], |Fold(OpenAiStep, before)|)
  }

  /** The same for blocks; text without an index addresses nothing. */
  function BlockDeltas(events: seq<(Option<Index>, Block)>): seq<Delta<Block>> {
    if events == [] then []
    else
      var before := BlockDeltas(events[..|events| - 1]);
      var (index, b) := events[|events| - 1];
      if index.None? && b.Json? then before
      else before + [Delta(if index.Some? then index.value else |Fold(AnthropicStep, before)|, b)]
  }

  /** Calls sent whole, without an index. */
  predicate Unnumbered(raw: seq<(Option<Index>, Piece)>) {
    forall k :: 0 <= k < |raw| ==> raw[k].0.None? && raw[k].1.args.Some?
  }

  function Whole(p: Piece): Slot
    requires p.args.Some?
  {
    Slot(p.id, p.name, p.args.value)
  }

  /** All the calls, numbered from 0 in their order. */
  function Numbered(raw: seq<(Option<Index>, Piece)>): Calls
    requires Unnumbered(raw)
  {
    map k: Index | k < |raw| :: Whole(raw[k].1)
  }

  lemma {:induction false} HowMany(raw: seq<(Option<Index>, Piece)>)
    requires Unnumbered(raw)
    ensures |Numbered(raw)| == |raw|
  {
    if raw != [] {
      var n := |raw| - 1;
      HowMany(raw[..n]);
      assert Numbered(raw) == Numbered(raw[..n])[n := Whole(raw[n].1)];
    }
  }

  /** One call more takes the next number. */
  lemma NumberedNext(seen: seq<(Option<Index>, Piece)>, next: (Option<Index>, Piece))
    requires Unnumbered(seen) && Unnumbered([next])
    ensures Unnumbered(seen + [next])
    ensures Apply(OpenAiStep, Numbered(seen), Delta(|seen|, next.1)) == Numbered(seen + [next])
  {
    assert [next][0] == next;
    var args := next.1.args.value;
    assert args.Text? ==> "" + args.text == args.text;
    assert Merge(EMPTY, next.1) == Whole(next.1);
  }

  /** One event more. */
  lemma {:induction false} NumberedMore(seen: seq<(Option<Index>, Piece)>, raw: seq<(Option<Index>, Piece)>)
    requires Unnumbered(seen) && Unnumbered(raw)
    ensures Unnumbered(seen + raw)
    ensures ApplyAll(OpenAiStep, Numbered(seen), Indexed(raw, |seen|)) == Numbered(seen + raw)
  {
    if raw == [] {
      assert seen + raw == seen;
    } else {
      var n := |raw| - 1;
      var ds := Indexed(raw, |seen|);
      NumberedMore(seen, raw[..n]);
      assert ds[..n] == Indexed(raw[..n], |seen|) && ds[n] == Delta(|seen| + n, raw[n].1);
      assert Unnumbered([raw[n]]);
      NumberedNext(seen + raw[..n], raw[n]);
      assert seen + raw == (seen + raw[..n]) + [raw[n]];
    }
  }

  /** A stream whose calls are sent whole and without indices: all are kept, numbered in the order in which they come. */
  lemma {:induction false} NumberedInOrder(events: seq<seq<(Option<Index>, Piece)>>)
    requires forall k :: 0 <= k < |events| ==> Unnumbered(events[k])
    ensures Unnumbered(Flatten(events)) && Fold(OpenAiStep, StreamDeltas(events)) == Numbered(Flatten(events))
  {
    if events != [] {
      var n := |events| - 1;
      var seen := Flatten(events[..n]);
      NumberedInOrder(events[..n]);
      HowMany(seen);
      ApplyAllFold(OpenAiStep, StreamDeltas(events[..n]), Indexed(events[n], |seen|));
      NumberedMore(seen, events[n]);
    }
  }

  /** Event after event is the same as all their fragments in a row. */
  lemma {:induction false} ApplyAllFold<E>(step: StepFn<E>, a: seq<Delta<E>>, b: seq<Delta<E>>)
    ensures ApplyAll(step, Fold(step, a), b) == Fold(step, a + b)
  {
    if b == [] {
      assert a + b == a;
    } else {
      assert (a + b)[..|a + b| - 1] == a + b[..|b| - 1];
      ApplyAllFold(step, a, b[..|b| - 1]);
    }
  }
}
