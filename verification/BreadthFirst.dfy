/** Why breadth-first order makes each failure target ready when it is needed. */
module BreadthFirst {
  import opened Bytes
  import opened Suffixes
  import opened Trie

  /** The nodes whose rows are finished once `h` entries have been taken off the queue. */
  ghost function Done(q: seq<nat>, h: nat): set<nat>
    requires h <= |q|
  {
    {0} + set v | v in q[..h]
  }

  ghost predicate ByDepth(words: seq<Word>, q: seq<nat>, h: nat) {
    && (forall i :: 0 <= i < |q| ==> q[i] < |words|)
    && (forall i, j :: 0 <= i < j < |q| ==> |words[q[i]]| <= |words[q[j]]|)
    && (h < |q| ==> forall i :: 0 <= i < |q| ==> |words[q[i]]| <= |words[q[h]]| + 1)
  }

  /** The state between two iterations of the breadth-first loop. */
  ghost predicate Rested(nodes: seq<Node>, words: seq<Word>, pats: seq<Word>, q: seq<nat>, h: nat) {
    && h <= |q|
    && Shape(nodes, words)
    && Stored(words, pats)
    && CellsOk(nodes, words, Done(q, h), 0, 0)
    && QueueOk(words, q, Done(q, h), 0, 0)
    && LinksOk(nodes, words, pats, q)
    && ByDepth(words, q, h)
  }

  /** The state inside one iteration: node `q[h]` has `cc` of its cells rewritten. */
  ghost predicate Visiting(nodes: seq<Node>, words: seq<Word>, pats: seq<Word>, q: seq<nat>, h: nat, cc: nat) {
    && h < |q|
    && Linking(nodes, words, pats, q, Done(q, h), q[h], cc)
    && ByDepth(words, q, h)
  }

  lemma ParentOf(words: seq<Word>, x: nat) returns (u: nat, c: byte)
    requires PrefixClosed(words) && x < |words| && words[x] != []
    ensures u < |words| && words[x] == words[u] + [c]
  {
    var w := words[x];
    c := w[|w| - 1];
    assert w == w[..|w| - 1] + [c];
    u := NodeAt(words, w[..|w| - 1]);
  }

  lemma Visit(nodes: seq<Node>, words: seq<Word>, pats: seq<Word>, q: seq<nat>, h: nat)
    requires Rested(nodes, words, pats, q, h) && h < |q|
    ensures Visiting(nodes, words, pats, q, h, 0)
  {
    assert q[h] in q;
    assert q[h] !in q[..h];
    assert forall u: nat, c: byte :: Expanded(Done(q, h), q[h], 0, u, c) == Expanded(Done(q, h), 0, 0, u, c);
  }

  lemma Leave(nodes: seq<Node>, words: seq<Word>, pats: seq<Word>, q: seq<nat>, h: nat)
    requires Visiting(nodes, words, pats, q, h, 256)
    ensures Rested(nodes, words, pats, q, h + 1)
  {
    assert q[..h + 1] == q[..h] + [q[h]];
    assert Done(q, h + 1) == Done(q, h) + {q[h]};
    assert forall u: nat, c: byte :: Expanded(Done(q, h), q[h], 256, u, c) == Expanded(Done(q, h + 1), 0, 0, u, c);
  }

  /** Every node strictly shallower than the one being visited is finished. */
  lemma {:induction false} ShallowerIsDone(nodes: seq<Node>, words: seq<Word>, pats: seq<Word>, q: seq<nat>, h: nat, cc: nat, x: nat)
    requires Visiting(nodes, words, pats, q, h, cc)
    requires x < |words| && |words[x]| < |words[q[h]]|
    ensures x in Done(q, h)
    decreases |words[x]|
  {
    if words[x] == [] {
      assert words[x] == words[0];
    } else {
      var u, c := ParentOf(words, x);
      ShallowerIsDone(nodes, words, pats, q, h, cc, u);
      assert Expanded(Done(q, h), q[h], cc, u, c);
      var j :| 0 <= j < |q| && q[j] == x;
      assert j < h;
      assert x in q[..h];
    }
  }

  /** Every node no deeper than the one being visited has been queued, so its match list is final. */
  lemma NoDeeperIsQueued(nodes: seq<Node>, words: seq<Word>, pats: seq<Word>, q: seq<nat>, h: nat, cc: nat, x: nat)
    requires Visiting(nodes, words, pats, q, h, cc)
    requires 0 < x < |words| && |words[x]| <= |words[q[h]]|
    ensures x in q
  {
    assert words[x] != words[0];
    var u, c := ParentOf(words, x);
    ShallowerIsDone(nodes, words, pats, q, h, cc, u);
    assert Expanded(Done(q, h), q[h], cc, u, c);
  }

  /** The failure target of the node being visited is shallower, so its row is finished. */
  lemma FailIsDone(nodes: seq<Node>, words: seq<Word>, pats: seq<Word>, q: seq<nat>, h: nat, c: byte)
    requires Visiting(nodes, words, pats, q, h, c)
    ensures var u := q[h];
      && words[u] != []
      && 0 <= nodes[u].fail < |nodes| && nodes[u].fail != u
      && words[nodes[u].fail] == LongestSuffix(words, words[u][1..])
      && |words[nodes[u].fail]| < |words[u]|
      && Complete(nodes, words, nodes[u].fail, c)
  {
    var u := q[h];
    assert u in q && Linked(nodes, words, pats, u);
    LongestSuffixIsLongest(words, words[u][1..]);
    ShallowerIsDone(nodes, words, pats, q, h, c, nodes[u].fail);
    assert Expanded(Done(q, h), u, c, nodes[u].fail, c);
  }

  /** So the cell read through the failure link leads where the new link must. */
  lemma TargetIsGood(nodes: seq<Node>, words: seq<Word>, pats: seq<Word>, q: seq<nat>, h: nat, c: byte, target: nat)
    requires Visiting(nodes, words, pats, q, h, c)
    requires 0 <= nodes[q[h]].fail < |nodes| && nodes[nodes[q[h]].fail].go[c] == target
    ensures GoodTarget(nodes, words, pats, q[h], c, target)
    ensures |words[target]| <= |words[q[h]]|
  {
    FailIsDone(nodes, words, pats, q, h, c);
    var u, f := q[h], nodes[q[h]].fail;
    var tail := words[u][1..];
    LongestSuffixStep(words, tail, c);
    assert (words[u] + [c])[1..] == tail + [c];
    LongestSuffixIsLongest(words, tail + [c]);
    if target != 0 {
      NoDeeperIsQueued(nodes, words, pats, q, h, c, target);
      assert Linked(nodes, words, pats, target);
    }
  }

  lemma DoneKept(q: seq<nat>, q': seq<nat>, h: nat)
    requires h < |q| && q <= q'
    ensures q'[h] == q[h] && Done(q', h) == Done(q, h)
  {
    assert q'[..h] == q[..h];
  }

  /** A child of the head is deeper than nothing that is queued after it could be. */
  lemma DepthKept(words: seq<Word>, q: seq<nat>, h: nat, v: nat)
    requires h < |q| && ByDepth(words, q, h) && v < |words| && |words[v]| == |words[q[h]]| + 1
    ensures ByDepth(words, q + [v], h)
  {
  }

  /** Visiting one cell keeps the invariant. */
  lemma VisitCell(nodes: seq<Node>, words: seq<Word>, pats: seq<Word>, q: seq<nat>, h: nat, c: byte, target: nat)
    requires Visiting(nodes, words, pats, q, h, c)
    requires GoodTarget(nodes, words, pats, q[h], c, target)
    ensures Edge(nodes, words, q[h], c)
    ensures Visiting(CellStep(nodes, q[h], c, target), words, pats, Enqueued(nodes, q, q[h], c), h, c + 1)
  {
    CellKeepsLinking(nodes, words, pats, q, Done(q, h), q[h], c, target);
    var q' := Enqueued(nodes, q, q[h], c);
    DoneKept(q, q', h);
    if q' != q {
      DepthKept(words, q, h, nodes[q[h]].go[c]);
    }
  }

  /** The same for the target construction reads: the failure node's own cell. */
  lemma VisitCellOfQueued(nodes: seq<Node>, words: seq<Word>, pats: seq<Word>, q: seq<nat>, h: nat, c: byte)
    requires Visiting(nodes, words, pats, q, h, c)
    ensures var u := q[h]; var f := nodes[u].fail;
      && Edge(nodes, words, u, c)
      && 0 <= f < |nodes| && f != u
      && 0 <= nodes[f].go[c] < |nodes|
      && nodes[u].go[c] != nodes[f].go[c] && nodes[u].go[c] != u
      && Visiting(CellStep(nodes, u, c, nodes[f].go[c]), words, pats, Enqueued(nodes, q, u, c), h, c + 1)
      && |Enqueued(nodes, q, u, c)| < |words|
  {
    FailIsDone(nodes, words, pats, q, h, c);
    var u := q[h];
    var target := nodes[nodes[u].fail].go[c];
    TargetIsGood(nodes, words, pats, q, h, c, target);
    VisitCell(nodes, words, pats, q, h, c, target);
    QueueFits(words, Enqueued(nodes, q, u, c), Done(Enqueued(nodes, q, u, c), h), u, c + 1);
    assert |words[u] + [c]| > |words[u]|;
  }

  // ---- the root's row ----

  lemma RootStart(nodes: seq<Node>, words: seq<Word>, pats: seq<Word>)
    requires IsTrie(nodes, words, pats)
    ensures Linking(nodes, words, pats, [], {}, 0, 0)
  {
  }

  lemma RootTarget(nodes: seq<Node>, words: seq<Word>, pats: seq<Word>, c: byte)
    requires Shape(nodes, words)
    ensures GoodTarget(nodes, words, pats, 0, c, 0)
  {
    assert (words[0] + [c])[1..] == [];
  }

  lemma RootEnd(nodes: seq<Node>, words: seq<Word>, pats: seq<Word>, q: seq<nat>)
    requires Linking(nodes, words, pats, q, {}, 0, 256)
    requires forall v :: v in q ==> v < |words| && |words[v]| == 1
    ensures Rested(nodes, words, pats, q, 0)
  {
    assert Done(q, 0) == {0};
    assert forall u: nat, c: byte :: Expanded({}, 0, 256, u, c) == Expanded(Done(q, 0), 0, 0, u, c);
    assert forall i :: 0 <= i < |q| ==> q[i] in q;
  }

  /** The queue never holds more than the non-root nodes. */
  lemma QueueFits(words: seq<Word>, q: seq<nat>, done: set<nat>, cur: nat, cc: nat)
    requires |words| > 0 && words[0] == [] && PrefixClosed(words)
    requires QueueOk(words, q, done, cur, cc)
    ensures |q| < |words|
  {
    var all := Below(|words|) - {0};
    DistinctSize(q, all);
  }

  ghost function Below(n: nat): (s: set<nat>)
    ensures |s| == n && forall v: nat :: v in s <==> v < n
  {
    if n == 0 then {} else Below(n - 1) + {n - 1}
  }

  lemma {:induction false} DistinctSize(q: seq<nat>, all: set<nat>)
    requires Distinct(q) && forall v :: v in q ==> v in all
    ensures |q| <= |all|
  {
    if q != [] {
      var k := |q| - 1;
      assert q[k] in q;
      DistinctSize(q[..k], all - {q[k]});
    }
  }

  /** When the queue runs dry every node has been finished. */
  lemma {:induction false} AllDone(nodes: seq<Node>, words: seq<Word>, pats: seq<Word>, q: seq<nat>, x: nat)
    requires Rested(nodes, words, pats, q, |q|) && x < |words|
    ensures x in Done(q, |q|) && (x != 0 ==> x in q)
    decreases |words[x]|
  {
    assert q[..|q|] == q;
    if words[x] == [] {
      assert words[x] == words[0];
    } else {
      var u, c := ParentOf(words, x);
      AllDone(nodes, words, pats, q, u);
      assert Expanded(Done(q, |q|), 0, 0, u, c);
    }
  }

  // ---- the finished automaton ----

  /** A path of the trie: the empty word, or a prefix of some pattern. */
  ghost predicate IsPath(pats: seq<Word>, w: Word) {
    w == [] || exists p :: 0 <= p < |pats| && w <= pats[p]
  }

  /** Every cell is complete, so reading can go on for ever. */
  ghost predicate Total(nodes: seq<Node>, words: seq<Word>) {
    && Shape(nodes, words)
    && forall u: nat, c: byte :: u < |nodes| ==> Complete(nodes, words, u, c)
  }

  /** ... and every match list is complete too. */
  ghost predicate Emitting(nodes: seq<Node>, words: seq<Word>, pats: seq<Word>) {
    && Total(nodes, words)
    && Stored(words, pats)
    && forall u: nat :: u < |nodes| ==> Emits(pats, nodes[u].matches, words[u])
  }

  /** ... over exactly the paths of the trie, with the failure links that explain it. */
  ghost predicate IsAutomaton(nodes: seq<Node>, words: seq<Word>, pats: seq<Word>) {
    && Emitting(nodes, words, pats)
    && (forall w :: w in words <==> IsPath(pats, w))
    && (forall u: nat :: 0 < u < |nodes| ==> Linked(nodes, words, pats, u))
  }

  lemma {:induction false} PrefixIsWord(words: seq<Word>, v: Word, w: Word)
    requires PrefixClosed(words) && v in words && w <= v
    ensures w in words
  {
    if w != v {
      assert v == v[..|v| - 1] + [v[|v| - 1]];
      PrefixIsWord(words, v[..|v| - 1], w);
    }
  }

  lemma Finished(nodes: seq<Node>, words: seq<Word>, pats: seq<Word>, q: seq<nat>)
    requires Rested(nodes, words, pats, q, |q|)
    requires forall w :: w in words ==> IsPath(pats, w)
    ensures IsAutomaton(nodes, words, pats)
  {
    forall w | IsPath(pats, w) ensures w in words {
      if w != [] {
        var p :| 0 <= p < |pats| && w <= pats[p];
        PrefixIsWord(words, pats[p], w);
      }
    }
    forall u: nat, c: byte | u < |nodes| ensures Complete(nodes, words, u, c) {
      AllDone(nodes, words, pats, q, u);
      assert Expanded(Done(q, |q|), 0, 0, u, c);
    }
    forall u: nat | u < |nodes|
      ensures Emits(pats, nodes[u].matches, words[u]) && (u > 0 ==> Linked(nodes, words, pats, u))
    {
      AllDone(nodes, words, pats, q, u);
      if u == 0 {
        assert 0 !in q;
      }
    }
  }
}
