/**
 The multi-pattern matcher: building the automaton in place, and scanning with it.
 */
module AhoCorasick {
  import opened Bytes
  import opened Suffixes
  import opened Trie
  import opened BreadthFirst
  import opened Bitmap

  // ---- what matching means ----

  function ToLower(c: byte): byte {
    if 'A' as int <= c <= 'Z' as int then c + 0x20 else c
  }

  /** Setting bit 5 of an upper-case ASCII letter adds 0x20. */
  lemma CaseBit(c: bv8)
    requires 0x41 <= c <= 0x5A
    ensures c | 0x20 == c + 0x20
  {
  }

  /** The same byte, or the two cases of one ASCII letter. */
  predicate SameLetter(a: byte, b: byte) {
    a == b || (0x41 <= a <= 0x5A && b == a + 0x20) || (0x41 <= b <= 0x5A && a == b + 0x20)
  }

  /** Folding identifies exactly the two cases of each letter. */
  lemma FoldsCase(a: byte, b: byte)
    ensures ToLower(a) == ToLower(b) <==> SameLetter(a, b)
  {
  }

  function Fold(s: seq<byte>): (w: Word)
    ensures |w| == |s| && forall i :: 0 <= i < |s| ==> w[i] == ToLower(s[i])
  {
    seq(|s|, i requires 0 <= i < |s| => ToLower(s[i]))
  }

  ghost predicate OccursAt(pattern: seq<byte>, text: seq<byte>, i: nat) {
    && i + |pattern| <= |text|
    && forall k :: 0 <= k < |pattern| ==> SameLetter(text[i + k], pattern[k])
  }

  /** `pattern` is somewhere in `text`, up to ASCII case. */
  ghost predicate Occurs(pattern: seq<byte>, text: seq<byte>) {
    exists i: nat :: OccursAt(pattern, text, i)
  }

  /** A match that ends at `e` is the folded pattern being a suffix of the folded text up to `e`. */
  lemma OccursEndingAt(pattern: seq<byte>, text: seq<byte>, e: nat)
    requires e <= |text|
    ensures IsSuffix(Fold(pattern), Fold(text)[..e]) <==> |pattern| <= e && OccursAt(pattern, text, e - |pattern|)
  {
    var f, p := Fold(text)[..e], Fold(pattern);
    if |pattern| <= e {
      var i := e - |pattern|;
      assert |f[i..]| == |p|;
      forall k | 0 <= k < |pattern| ensures f[i..][k] == p[k] <==> SameLetter(text[i + k], pattern[k]) {
        assert f[i..][k] == ToLower(text[i + k]);
        FoldsCase(text[i + k], pattern[k]);
      }
      if OccursAt(pattern, text, i) {
        assert f[i..] == p;
      }
    }
  }

  ghost function FoldAll(patterns: seq<seq<byte>>): (pats: seq<Word>)
    ensures |pats| == |patterns| && forall p :: 0 <= p < |pats| ==> pats[p] == Fold(patterns[p])
  {
    seq(|patterns|, i requires 0 <= i < |patterns| => Fold(patterns[i]))
  }

  // ---- the automaton ----

  datatype PatternArray = NullArray | Patterns(items: seq<Buffer>)
  {
    predicate Bad() {
      NullArray? || exists i :: 0 <= i < |items| && (items[i].Null? || items[i].bytes == [])
    }

    function Bytes(): (r: seq<seq<byte>>)
      requires !Bad()
      ensures |r| == |items| && forall i :: 0 <= i < |items| ==> r[i] == items[i].bytes
    {
      seq(|items|, i requires 0 <= i < |items| => items[i].bytes)
    }
  }

  class Automaton {
    var nodes: seq<Node>
    var nPatterns: nat
    ghost var words: seq<Word>
    ghost var patterns: seq<seq<byte>>

    ghost predicate Valid()
      reads this
    {
      && nPatterns == |patterns|
      && IsAutomaton(nodes, words, FoldAll(patterns))
    }

    /** A node table holding only the root. */
    constructor (n: nat)
      ensures nPatterns == n && patterns == [] && words == [[]]
      ensures IsTrie(nodes, words, [])
    {
      nodes := [Fresh()];
      nPatterns := n;
      words := [[]];
      patterns := [];
      RootIsTrie();
    }

    method AddMatch(u: nat, pid: nat)
      requires u < |nodes|
      modifies this`nodes
      ensures nodes == old(nodes)[u := old(nodes[u]).(matches := old(nodes[u].matches) + [pid])]
    {
      nodes := nodes[u := nodes[u].(matches := nodes[u].matches + [pid])];
    }

    method AllocNode() returns (u: nat)
      modifies this`nodes
      ensures u == old(|nodes|) && nodes == old(nodes) + [Fresh()]
    {
      u := |nodes|;
      nodes := nodes + [Fresh()];
    }

    /** Walks the folded pattern from the root, adding the missing nodes. */
    method Insert(pattern: seq<byte>, pid: nat, ghost pats: seq<Word>)
      requires IsTrie(nodes, words, pats) && pid == |pats| && pattern != []
      modifies this`nodes, this`words
      ensures IsTrie(nodes, words, pats + [Fold(pattern)])
      ensures forall w :: w in words ==> w in old(words) || w <= Fold(pattern)
    {
      var state := 0;
      ghost var folded := Fold(pattern);
      for i := 0 to |pattern|
        invariant IsTrie(nodes, words, pats)
        invariant 0 <= state < |nodes| && words[state] == folded[..i]
        invariant forall w :: w in words ==> w in old(words) || w <= folded
      {
        var c := ToLower(pattern[i]);
        assert folded[..i + 1] == words[state] + [c];
        assert Edge(nodes, words, state, c);
        if nodes[state].go[c] == -1 {
          GrowTrie(nodes, words, pats, state, c);
          ghost var before := nodes;
          var u := AllocNode();
          nodes := nodes[state := nodes[state].(go := nodes[state].go[c := u])];
          assert nodes == Grow(before, state, c);
          words := words + [words[state] + [c]];
          assert Edge(nodes, words, state, c);
        }
        state := nodes[state].go[c];
      }
      assert folded[..|pattern|] == folded;
      RecordTrie(nodes, words, pats, state);
      AddMatch(state, pid);
    }

    /** Appends the match list of `from` to that of `to`, one id at a time. */
    method MergeMatches(to: nat, from: nat)
      requires to < |nodes| && from < |nodes| && to != from
      modifies this`nodes
      ensures nodes == old(nodes)[to := old(nodes[to]).(matches := old(nodes[to].matches) + old(nodes[from].matches))]
    {
      ghost var own, more := nodes[to].matches, nodes[from].matches;
      var count := |nodes[from].matches|;
      assert own + more[..0] == own;
      for i := 0 to count
        invariant nodes == old(nodes)[to := old(nodes[to]).(matches := own + more[..i])]
      {
        assert own + more[..i + 1] == own + more[..i] + [more[i]];
        AddMatch(to, nodes[from].matches[i]);
      }
      assert more[..count] == more;
    }

    method LinkRootCell(queue: array<nat>, qtailIn: nat, c: byte) returns (qtail: nat)
      requires |nodes| > 0 && |nodes[0].go| == 256 && -1 <= nodes[0].go[c] < |nodes|
      requires nodes[0].go[c] == -1 || qtailIn < queue.Length
      requires qtailIn <= queue.Length
      modifies this`nodes, queue
      ensures qtail <= queue.Length
      ensures nodes == CellStep(old(nodes), 0, c, 0)
      ensures queue[..qtail] == Enqueued(old(nodes), old(queue[..qtailIn]), 0, c)
    {
      qtail := qtailIn;
      var child := nodes[0].go[c];
      if child != -1 {
        assert nodes[child].matches + [] == nodes[child].matches;
        nodes := nodes[child := nodes[child].(fail := 0)];
        queue[qtail] := child;
        qtail := qtail + 1;
      } else {
        nodes := nodes[0 := nodes[0].(go := nodes[0].go[c := 0])];
      }
    }

    method LinkCell(queue: array<nat>, qtailIn: nat, u: nat, failU: nat, c: byte) returns (qtail: nat)
      requires u < |nodes| && failU < |nodes| && |nodes[u].go| == |nodes[failU].go| == 256
      requires -1 <= nodes[u].go[c] < |nodes| && 0 <= nodes[failU].go[c] < |nodes|
      requires nodes[u].go[c] != nodes[failU].go[c]
      requires nodes[u].go[c] == -1 || qtailIn < queue.Length
      requires qtailIn <= queue.Length
      modifies this`nodes, queue
      ensures qtail <= queue.Length
      ensures nodes == CellStep(old(nodes), u, c, old(nodes[failU].go[c]))
      ensures queue[..qtail] == Enqueued(old(nodes), old(queue[..qtailIn]), u, c)
    {
      qtail := qtailIn;
      var v := nodes[u].go[c];
      if v == -1 {
        nodes := nodes[u := nodes[u].(go := nodes[u].go[c := nodes[failU].go[c]])];
      } else {
        nodes := nodes[v := nodes[v].(fail := nodes[failU].go[c])];
        var fv := nodes[v].fail;
        if fv != 0 {
          MergeMatches(v, fv);
        } else {
          assert nodes[v].matches + [] == nodes[v].matches;
        }
        queue[qtail] := v;
        qtail := qtail + 1;
      }
    }

    /** The root's row: its children fail to the root, its missing cells loop back to it. */
    method LinkRoot(queue: array<nat>) returns (qtail: nat)
      requires IsTrie(nodes, words, FoldAll(patterns)) && queue.Length == |nodes|
      modifies this`nodes, queue
      ensures qtail <= queue.Length == |nodes|
      ensures Rested(nodes, words, FoldAll(patterns), queue[..qtail], 0)
    {
      ghost var pats := FoldAll(patterns);
      ghost var q: seq<nat> := [];
      qtail := 0;
      RootStart(nodes, words, pats);
      for c := 0 to 256
        invariant Linking(nodes, words, pats, q, {}, 0, c)
        invariant qtail <= queue.Length == |nodes| && queue[..qtail] == q
        invariant forall v :: v in q ==> v < |words| && |words[v]| == 1
      {
        RootTarget(nodes, words, pats, c);
        CellKeepsLinking(nodes, words, pats, q, {}, 0, c, 0);
        QueueFits(words, Enqueued(nodes, q, 0, c), {}, 0, c + 1);
        q := Enqueued(nodes, q, 0, c);
        qtail := LinkRootCell(queue, qtail, c);
      }
      RootEnd(nodes, words, pats, q);
    }

    /** One iteration of the breadth-first loop: completes the row of `queue[qhead]`. */
    method VisitNode(queue: array<nat>, qhead: nat, qtailIn: nat) returns (qtail: nat)
      requires qhead < qtailIn <= queue.Length == |nodes|
      requires Rested(nodes, words, FoldAll(patterns), queue[..qtailIn], qhead)
      modifies this`nodes, queue
      ensures qtail <= queue.Length == |nodes|
      ensures qhead < qtail && Rested(nodes, words, FoldAll(patterns), queue[..qtail], qhead + 1)
    {
      ghost var pats, q := FoldAll(patterns), queue[..qtailIn];
      qtail := qtailIn;
      Visit(nodes, words, pats, q, qhead);
      FailIsDone(nodes, words, pats, q, qhead, 0);
      var u := queue[qhead];
      var failU := nodes[u].fail;
      for c := 0 to 256
        invariant Visiting(nodes, words, pats, q, qhead, c)
        invariant qtail <= queue.Length == |nodes| && queue[..qtail] == q && q[qhead] == u
        invariant nodes[u].fail == failU
      {
        VisitCellOfQueued(nodes, words, pats, q, qhead, c);
        q := Enqueued(nodes, q, u, c);
        qtail := LinkCell(queue, qtail, u, failU, c);
      }
      Leave(nodes, words, pats, q, qhead);
    }

    /** Failure links and completion, breadth first. */
    method Link()
      requires IsTrie(nodes, words, FoldAll(patterns))
      requires forall w :: w in words ==> IsPath(FoldAll(patterns), w)
      modifies this`nodes
      ensures IsAutomaton(nodes, words, FoldAll(patterns))
    {
      var queue := new nat[|nodes|];
      var qhead := 0;
      var qtail := LinkRoot(queue);
      while qhead < qtail
        invariant qhead <= qtail <= queue.Length == |nodes|
        invariant Rested(nodes, words, FoldAll(patterns), queue[..qtail], qhead)
        decreases |nodes| - qhead
      {
        qtail := VisitNode(queue, qhead, qtail);
        qhead := qhead + 1;
      }
      Finished(nodes, words, FoldAll(patterns), queue[..qtail]);
    }
  }

  /**
   Builds an automaton, or refuses a null array, a null pattern or an empty one.
   */
  method Build(patterns: PatternArray) returns (ac: Automaton?)
    ensures ac == null <==> patterns.Bad()
    ensures ac != null ==> fresh(ac) && ac.Valid() && ac.patterns == patterns.Bytes()
  {
    if patterns.NullArray? {
      return null;
    }
    for i := 0 to |patterns.items|
      invariant forall k :: 0 <= k < i ==> patterns.items[k].Data? && patterns.items[k].bytes != []
    {
      if patterns.items[i].Null? || patterns.items[i].Length() == 0 {
        return null;
      }
    }
    ac := new Automaton(|patterns.items|);
    ghost var all := patterns.Bytes();
    assert FoldAll(all)[..0] == [];
    for p := 0 to |patterns.items|
      invariant fresh(ac) && ac.nPatterns == |patterns.items|
      invariant IsTrie(ac.nodes, ac.words, FoldAll(all)[..p])
      invariant forall w :: w in ac.words ==> IsPath(FoldAll(all)[..p], w)
    {
      ghost var pats := FoldAll(all)[..p];
      assert FoldAll(all)[..p + 1] == pats + [Fold(all[p])];
      ac.Insert(patterns.items[p].bytes, p, pats);
      PathsGrow(pats, Fold(all[p]));
    }
    assert FoldAll(all)[..|all|] == FoldAll(all);
    ac.patterns := all;
    ac.Link();
  }

  lemma PathsGrow(pats: seq<Word>, p: Word)
    ensures forall w :: IsPath(pats, w) ==> IsPath(pats + [p], w)
    ensures forall w :: w <= p ==> IsPath(pats + [p], w)
  {
    var pats' := pats + [p];
    assert pats'[|pats|] == p;
    forall w | IsPath(pats, w) ensures IsPath(pats', w) {
      if w != [] {
        var i :| 0 <= i < |pats| && w <= pats[i];
        assert pats'[i] == pats[i];
      }
    }
  }

  // ---- scanning ----

  /** The state the scan loop reaches on folded input `w`: one table lookup per byte. */
  ghost function Run(nodes: seq<Node>, words: seq<Word>, w: Word): (u: nat)
    requires Total(nodes, words)
    ensures u < |nodes|
  {
    if w == [] then 0
    else
      var u, c := Run(nodes, words, w[..|w| - 1]), w[|w| - 1];
      assert Complete(nodes, words, u, c);
      nodes[u].go[c]
  }

  /** After any input the state is that input's longest suffix among the paths of the trie. */
  lemma {:induction false} RunIsLongestSuffix(nodes: seq<Node>, words: seq<Word>, w: Word)
    requires Total(nodes, words)
    ensures words[Run(nodes, words, w)] == LongestSuffix(words, w)
  {
    if w != [] {
      var v, c := w[..|w| - 1], w[|w| - 1];
      assert w == v + [c];
      RunIsLongestSuffix(nodes, words, v);
      var u := Run(nodes, words, v);
      assert Complete(nodes, words, u, c);
      LongestSuffixStep(words, v, c);
    }
  }

  lemma EmittedIsSuffix(nodes: seq<Node>, words: seq<Word>, pats: seq<Word>, f: Word, p: nat)
    requires Emitting(nodes, words, pats)
    ensures p in nodes[Run(nodes, words, f)].matches <==> p < |pats| && IsSuffix(pats[p], f)
  {
    var u := Run(nodes, words, f);
    RunIsLongestSuffix(nodes, words, f);
    assert Emits(pats, nodes[u].matches, words[u]);
    if p < |pats| {
      WordSuffixes(words, f, pats[p]);
    }
  }

  /** The match list of the state after `e` bytes names exactly the patterns that end there. */
  lemma EmittedHere(nodes: seq<Node>, words: seq<Word>, patterns: seq<seq<byte>>, text: seq<byte>, e: nat, p: nat)
    requires Emitting(nodes, words, FoldAll(patterns)) && e <= |text|
    ensures p in nodes[Run(nodes, words, Fold(text)[..e])].matches
       <==> p < |patterns| && |patterns[p]| <= e && OccursAt(patterns[p], text, e - |patterns[p]|)
  {
    EmittedIsSuffix(nodes, words, FoldAll(patterns), Fold(text)[..e], p);
    if p < |patterns| {
      OccursEndingAt(patterns[p], text, e);
    }
  }

  /** A match that ends within the first `e` bytes. */
  ghost predicate OccursBy(pattern: seq<byte>, text: seq<byte>, e: nat) {
    exists i: nat :: OccursAt(pattern, text, i) && i + |pattern| <= e
  }

  lemma OccursByStep(pattern: seq<byte>, text: seq<byte>, e: nat)
    requires e < |text|
    ensures OccursBy(pattern, text, e + 1)
       <==> OccursBy(pattern, text, e) || (|pattern| <= e + 1 && OccursAt(pattern, text, e + 1 - |pattern|))
  {
    if OccursBy(pattern, text, e + 1) {
      var i: nat :| OccursAt(pattern, text, i) && i + |pattern| <= e + 1;
      assert i + |pattern| == e + 1 ==> i == e + 1 - |pattern|;
    }
  }

  lemma NothingOccursAtStart(patterns: seq<seq<byte>>, text: seq<byte>)
    requires forall p :: 0 <= p < |patterns| ==> patterns[p] != []
    ensures forall p :: 0 <= p < |patterns| ==> !OccursBy(patterns[p], text, 0)
  {
  }

  lemma PatternsNonEmpty(nodes: seq<Node>, words: seq<Word>, patterns: seq<seq<byte>>)
    requires Emitting(nodes, words, FoldAll(patterns))
    ensures forall p :: 0 <= p < |patterns| ==> patterns[p] != []
  {
    assert forall p :: 0 <= p < |patterns| ==> FoldAll(patterns)[p] != [];
  }

  /** The whole bitmap has bit `p` set exactly if it was before, or `p` is in `ids`. */
  ghost predicate Marked(now: seq<bv8>, before: seq<bv8>, ids: iset<nat>) {
    && |now| == |before|
    && forall p: nat :: p / 8 < |now| ==> (TestBit(now, p) <==> TestBit(before, p) || p in ids)
  }

  method MarkAll(ids: seq<nat>, outBitmap: array<bv8>)
    requires forall p :: p in ids ==> p / 8 < outBitmap.Length
    modifies outBitmap
    ensures Marked(outBitmap[..], old(outBitmap[..]), iset p | p in ids)
  {
    for j := 0 to |ids|
      invariant Marked(outBitmap[..], old(outBitmap[..]), iset p | p in ids[..j])
    {
      assert ids[..j + 1] == ids[..j] + [ids[j]];
      assert ids[j] in ids;
      SetBit(outBitmap, ids[j]);
    }
    assert ids[..|ids|] == ids;
  }

  ghost function FoundBy(patterns: seq<seq<byte>>, text: seq<byte>, e: nat): iset<nat> {
    iset p: nat | p < |patterns| && OccursBy(patterns[p], text, e)
  }

  lemma FoundByStepAt(nodes: seq<Node>, words: seq<Word>, patterns: seq<seq<byte>>, text: seq<byte>, e: nat, p: nat)
    requires Emitting(nodes, words, FoldAll(patterns)) && e < |text|
    ensures var ids := nodes[Run(nodes, words, Fold(text)[..e + 1])].matches;
      && (p in FoundBy(patterns, text, e + 1) <==> p in FoundBy(patterns, text, e) || p in ids)
      && (p in ids ==> p < |patterns|)
  {
    EmittedHere(nodes, words, patterns, text, e + 1, p);
    if p < |patterns| {
      OccursByStep(patterns[p], text, e);
    }
  }

  lemma FoundByStep(nodes: seq<Node>, words: seq<Word>, patterns: seq<seq<byte>>, text: seq<byte>, e: nat)
    requires Emitting(nodes, words, FoldAll(patterns)) && e < |text|
    ensures var ids := nodes[Run(nodes, words, Fold(text)[..e + 1])].matches;
      && (forall p: nat :: p in FoundBy(patterns, text, e + 1) <==> p in FoundBy(patterns, text, e) || p in ids)
      && (forall p :: p in ids ==> p < |patterns|)
  {
    var ids := nodes[Run(nodes, words, Fold(text)[..e + 1])].matches;
    var before, after := FoundBy(patterns, text, e), FoundBy(patterns, text, e + 1);
    forall p: nat
      ensures (p in after <==> p in before || p in ids) && (p in ids ==> p < |patterns|)
    {
      FoundByStepAt(nodes, words, patterns, text, e, p);
    }
  }

  /** The step both scan loops take. */
  lemma RunStep(nodes: seq<Node>, words: seq<Word>, text: seq<byte>, i: nat)
    requires Total(nodes, words) && i < |text|
    ensures Run(nodes, words, Fold(text)[..i + 1]) == nodes[Run(nodes, words, Fold(text)[..i])].go[ToLower(text[i])]
  {
    var w := Fold(text)[..i + 1];
    assert w[..|w| - 1] == Fold(text)[..i];
  }

  lemma FoundByEnd(patterns: seq<seq<byte>>, text: seq<byte>)
    ensures forall p: nat :: p in FoundBy(patterns, text, |text|) <==> p < |patterns| && Occurs(patterns[p], text)
  {
    forall p: nat | p < |patterns| ensures OccursBy(patterns[p], text, |text|) <==> Occurs(patterns[p], text) {
      if Occurs(patterns[p], text) {
        var i: nat :| OccursAt(patterns[p], text, i);
        assert i + |patterns[p]| <= |text|;
      }
    }
  }

  /**
   Sets bit `p` for every pattern `p` that occurs in the text, and leaves every
   other bit as it was.
   */
  method Scan(ac: Automaton?, text: Buffer, outBitmap: array?<bv8>) returns (rc: int)
    requires ac != null ==> ac.Valid()
    requires ac != null && outBitmap != null ==> ac.nPatterns <= 8 * outBitmap.Length
    modifies outBitmap
    ensures rc == if ac == null || outBitmap == null || (text.Null? && text.Length() > 0) then -1 else 0
    ensures outBitmap != null && rc == -1 ==> outBitmap[..] == old(outBitmap[..])
    ensures rc == 0 ==> forall p: nat :: p / 8 < outBitmap.Length ==>
      (TestBit(outBitmap[..], p) <==>
        old(TestBit(outBitmap[..], p)) || (p < ac.nPatterns && Occurs(ac.patterns[p], text.Content())))
  {
    if ac == null || outBitmap == null {
      return -1;
    }
    ghost var content := text.Content();
    PatternsNonEmpty(ac.nodes, ac.words, ac.patterns);
    NothingOccursAtStart(ac.patterns, content);
    FoundByEnd(ac.patterns, content);
    if text.Length() == 0 {
      return 0;
    }
    if text.Null? {
      return -1;
    }
    var state := 0;
    for i := 0 to |text.bytes|
      invariant 0 <= state < |ac.nodes|
      invariant state == Run(ac.nodes, ac.words, Fold(text.bytes)[..i])
      invariant Marked(outBitmap[..], old(outBitmap[..]), FoundBy(ac.patterns, text.bytes, i))
    {
      var c := ToLower(text.bytes[i]);
      RunStep(ac.nodes, ac.words, text.bytes, i);
      FoundByStep(ac.nodes, ac.words, ac.patterns, text.bytes, i);
      state := ac.nodes[state].go[c];
      MarkAll(ac.nodes[state].matches, outBitmap);
    }
    return 0;
  }

  /** With nothing found so far, the next state's list tells whether something has been found. */
  lemma FirstFound(nodes: seq<Node>, words: seq<Word>, patterns: seq<seq<byte>>, text: seq<byte>, e: nat)
    requires Emitting(nodes, words, FoldAll(patterns)) && e < |text|
    requires NothingFound(patterns, text, e)
    ensures var ids := nodes[Run(nodes, words, Fold(text)[..e + 1])].matches;
      if ids == [] then NothingFound(patterns, text, e + 1)
      else ids[0] < |patterns| && Occurs(patterns[ids[0]], text)
  {
    var ids := nodes[Run(nodes, words, Fold(text)[..e + 1])].matches;
    if ids != [] {
      var p := ids[0];
      FoundByStepAt(nodes, words, patterns, text, e, p);
      assert p in FoundBy(patterns, text, e + 1);
      assert OccursBy(patterns[p], text, e + 1);
      var i: nat :| OccursAt(patterns[p], text, i) && i + |patterns[p]| <= e + 1;
    } else {
      forall p | 0 <= p < |patterns| ensures !OccursBy(patterns[p], text, e + 1) {
        FoundByStepAt(nodes, words, patterns, text, e, p);
        assert p !in FoundBy(patterns, text, e);
        assert p !in FoundBy(patterns, text, e + 1);
      }
    }
  }

  ghost predicate NothingFound(patterns: seq<seq<byte>>, text: seq<byte>, e: nat) {
    forall p :: 0 <= p < |patterns| ==> !OccursBy(patterns[p], text, e)
  }

  lemma NothingAtEnd(patterns: seq<seq<byte>>, text: seq<byte>)
    ensures NothingFound(patterns, text, |text|) <==> forall p :: 0 <= p < |patterns| ==> !Occurs(patterns[p], text)
  {
    FoundByEnd(patterns, text);
    forall p | 0 <= p < |patterns| ensures OccursBy(patterns[p], text, |text|) <==> Occurs(patterns[p], text) {
      assert p in FoundBy(patterns, text, |text|) <==> OccursBy(patterns[p], text, |text|);
    }
  }

  /** The boolean form: 1 when some pattern occurs, leaving at the first match. */
  method MatchAny(ac: Automaton?, text: Buffer) returns (rc: int)
    requires ac != null ==> ac.Valid()
    ensures rc == -1 <==> ac == null || (text.Null? && text.Length() > 0)
    ensures ac != null && rc != -1 ==>
      rc == if exists p :: 0 <= p < ac.nPatterns && Occurs(ac.patterns[p], text.Content()) then 1 else 0
  {
    if ac == null {
      return -1;
    }
    ghost var content := text.Content();
    PatternsNonEmpty(ac.nodes, ac.words, ac.patterns);
    NothingOccursAtStart(ac.patterns, content);
    NothingAtEnd(ac.patterns, content);
    if text.Length() == 0 {
      return 0;
    }
    if text.Null? {
      return -1;
    }
    var state := 0;
    for i := 0 to |text.bytes|
      invariant 0 <= state < |ac.nodes|
      invariant state == Run(ac.nodes, ac.words, Fold(text.bytes)[..i])
      invariant NothingFound(ac.patterns, text.bytes, i)
    {
      var c := ToLower(text.bytes[i]);
      RunStep(ac.nodes, ac.words, text.bytes, i);
      FirstFound(ac.nodes, ac.words, ac.patterns, text.bytes, i);
      state := ac.nodes[state].go[c];
      if |ac.nodes[state].matches| > 0 {
        return 1;
      }
    }
    return 0;
  }
}
