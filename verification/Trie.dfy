/**
 The matcher's node table as a value, and what each phase of construction keeps.
 `words[u]` is the (ghost) path from the root to node `u`.
 */
module Trie {
  import opened Bytes
  import opened Suffixes

  datatype Node = Node(go: seq<int>, fail: int, matches: seq<nat>)

  function Fresh(): (n: Node)
    ensures |n.go| == 256 && forall c :: 0 <= c < 256 ==> n.go[c] == -1
  {
    Node(seq(256, _ => -1), 0, [])
  }

  ghost predicate Shape(nodes: seq<Node>, words: seq<Word>) {
    && |nodes| == |words| > 0
    && words[0] == []
    && PrefixClosed(words)
    && (forall i, j :: 0 <= i < j < |words| ==> words[i] != words[j])
    && (forall u :: 0 <= u < |nodes| ==> |nodes[u].go| == 256)
  }

  /** Cell (u, c) of a plain trie: a real child, or -1 when there is none. */
  ghost predicate Edge(nodes: seq<Node>, words: seq<Word>, u: nat, c: byte)
    requires Shape(nodes, words) && u < |nodes|
  {
    var v := nodes[u].go[c];
    if v == -1 then words[u] + [c] !in words
    else 0 <= v < |nodes| && words[v] == words[u] + [c]
  }

  /** Cell (u, c) of the finished automaton: the node of the longest suffix of `words[u] + [c]`. */
  ghost predicate Complete(nodes: seq<Node>, words: seq<Word>, u: nat, c: byte)
    requires Shape(nodes, words) && u < |nodes|
  {
    && 0 <= nodes[u].go[c] < |nodes|
    && words[nodes[u].go[c]] == LongestSuffix(words, words[u] + [c])
  }

  predicate Distinct(m: seq<nat>) {
    forall i, j :: 0 <= i < j < |m| ==> m[i] != m[j]
  }

  /** `m` lists, once each, the patterns equal to `w`. */
  ghost predicate Ends(pats: seq<Word>, m: seq<nat>, w: Word) {
    && Distinct(m)
    && forall p: nat :: p in m <==> p < |pats| && pats[p] == w
  }

  /** `m` lists, once each, the patterns that are suffixes of `w`. */
  ghost predicate Emits(pats: seq<Word>, m: seq<nat>, w: Word) {
    && Distinct(m)
    && forall p: nat :: p in m <==> p < |pats| && IsSuffix(pats[p], w)
  }

  ghost predicate Stored(words: seq<Word>, pats: seq<Word>) {
    forall p :: 0 <= p < |pats| ==> pats[p] in words && pats[p] != []
  }

  // ---- phase 1: the trie ----

  ghost predicate IsTrie(nodes: seq<Node>, words: seq<Word>, pats: seq<Word>) {
    && Shape(nodes, words)
    && Stored(words, pats)
    && (forall u: nat, c: byte :: u < |nodes| ==> Edge(nodes, words, u, c))
    && (forall u :: 0 <= u < |nodes| ==> nodes[u].fail == 0 && Ends(pats, nodes[u].matches, words[u]))
  }

  lemma RootIsTrie()
    ensures IsTrie([Fresh()], [[]], [])
  {
    assert forall w: Word, c: byte :: |w + [c]| == |w| + 1;
  }

  /** Allocating a child under a missing cell. */
  function Grow(nodes: seq<Node>, u: nat, c: byte): seq<Node>
    requires u < |nodes| && |nodes[u].go| == 256
  {
    nodes[u := nodes[u].(go := nodes[u].go[c := |nodes|])] + [Fresh()]
  }

  lemma GrowShape(nodes: seq<Node>, words: seq<Word>, u: nat, c: byte)
    requires Shape(nodes, words) && u < |nodes| && words[u] + [c] !in words
    ensures Shape(Grow(nodes, u, c), words + [words[u] + [c]])
  {
    var w' := words[u] + [c];
    forall w: Word, d: byte | w + [d] in words + [w'] ensures w in words + [w'] {
      LastByte(w, d, words[u], c);
    }
  }

  lemma GrowTrie(nodes: seq<Node>, words: seq<Word>, pats: seq<Word>, u: nat, c: byte)
    requires IsTrie(nodes, words, pats) && u < |nodes| && nodes[u].go[c] == -1
    ensures IsTrie(Grow(nodes, u, c), words + [words[u] + [c]], pats)
  {
    assert Edge(nodes, words, u, c);
    var w' := words[u] + [c];
    var nodes', words' := Grow(nodes, u, c), words + [w'];
    GrowShape(nodes, words, u, c);
    forall x: nat, d: byte | x < |nodes'| ensures Edge(nodes', words', x, d) {
      if x == |nodes| {
        assert nodes'[x].go[d] == -1;
        assert |w' + [d]| != |w'|;
      } else {
        assert Edge(nodes, words, x, d);
        assert words'[x] == words[x];
        LastByte(words[x], d, words[u], c);
      }
    }
    forall x | 0 <= x < |nodes'| ensures nodes'[x].fail == 0 && Ends(pats, nodes'[x].matches, words'[x]) {
      if x == |nodes| {
        assert forall p :: 0 <= p < |pats| ==> pats[p] != w';
      } else {
        assert nodes'[x].matches == nodes[x].matches && words'[x] == words[x];
      }
    }
  }

  /** Recording the id of a pattern whose path ends at `u`. */
  lemma RecordTrie(nodes: seq<Node>, words: seq<Word>, pats: seq<Word>, u: nat)
    requires IsTrie(nodes, words, pats) && u < |nodes| && words[u] != []
    ensures IsTrie(nodes[u := nodes[u].(matches := nodes[u].matches + [|pats|])], words, pats + [words[u]])
  {
    var nodes' := nodes[u := nodes[u].(matches := nodes[u].matches + [|pats|])];
    var pats' := pats + [words[u]];
    assert Shape(nodes', words);
    forall x: nat, c: byte | x < |nodes'| ensures Edge(nodes', words, x, c) {
      assert Edge(nodes, words, x, c) && nodes'[x].go == nodes[x].go;
    }
    forall x | 0 <= x < |nodes'| ensures Ends(pats', nodes'[x].matches, words[x]) {
      assert Ends(pats, nodes[x].matches, words[x]);
      assert |pats| !in nodes[x].matches;
      assert x != u ==> words[x] != words[u];
    }
  }

  // ---- phase 2: failure links and completion ----

  /** The node whose path is `w`. */
  ghost function NodeAt(words: seq<Word>, w: Word): (u: nat)
    requires w in words
    ensures u < |words| && words[u] == w
  {
    var u :| 0 <= u < |words| && words[u] == w;
    u
  }

  /** Whether cell (u, c) has been rewritten: all cells of `done`, and the first `cc` of `cur`. */
  ghost predicate Expanded(done: set<nat>, cur: nat, cc: nat, u: nat, c: byte) {
    u in done || (u == cur && c < cc)
  }

  ghost predicate CellsOk(nodes: seq<Node>, words: seq<Word>, done: set<nat>, cur: nat, cc: nat)
    requires Shape(nodes, words)
  {
    forall u: nat, c: byte :: u < |nodes| ==>
      if Expanded(done, cur, cc, u, c) then Complete(nodes, words, u, c) else Edge(nodes, words, u, c)
  }

  /** The queue holds, once each, exactly the children reached through rewritten cells. */
  ghost predicate QueueOk(words: seq<Word>, q: seq<nat>, done: set<nat>, cur: nat, cc: nat)
    requires PrefixClosed(words)
  {
    && Distinct(q)
    && (forall v :: v in q ==> v < |words| && words[v] != [])
    && (forall u: nat, c: byte, v: nat :: u < |words| && v < |words| && words[v] == words[u] + [c] ==>
          (v in q <==> Expanded(done, cur, cc, u, c)))
  }

  /** A queued node has its final failure link and match list; any other still has its own ids only. */
  ghost predicate LinksOk(nodes: seq<Node>, words: seq<Word>, pats: seq<Word>, q: seq<nat>)
    requires Shape(nodes, words)
  {
    forall v: nat :: v < |nodes| ==>
      if v in q then Linked(nodes, words, pats, v)
      else nodes[v].fail == 0 && Ends(pats, nodes[v].matches, words[v])
  }

  ghost predicate Linked(nodes: seq<Node>, words: seq<Word>, pats: seq<Word>, v: nat)
    requires Shape(nodes, words) && v < |nodes|
  {
    && words[v] != []
    && 0 <= nodes[v].fail < |nodes|
    && words[nodes[v].fail] == LongestSuffix(words, words[v][1..])
    && Emits(pats, nodes[v].matches, words[v])
  }

  ghost predicate Linking(nodes: seq<Node>, words: seq<Word>, pats: seq<Word>, q: seq<nat>,
                          done: set<nat>, cur: nat, cc: nat) {
    && Shape(nodes, words)
    && Stored(words, pats)
    && cur < |nodes| && cur !in done && cc <= 256
    && CellsOk(nodes, words, done, cur, cc)
    && QueueOk(words, q, done, cur, cc)
    && LinksOk(nodes, words, pats, q)
  }

  /** What construction does with one cell, `target` being where the failure link leads. */
  function CellStep(nodes: seq<Node>, u: nat, c: byte, target: nat): seq<Node>
    requires u < |nodes| && |nodes[u].go| == 256 && target < |nodes|
    requires -1 <= nodes[u].go[c] < |nodes|
  {
    var v := nodes[u].go[c];
    if v == -1 then nodes[u := nodes[u].(go := nodes[u].go[c := target])]
    else nodes[v := nodes[v].(fail := target,
                              matches := nodes[v].matches + if target != 0 then nodes[target].matches else [])]
  }

  function Enqueued(nodes: seq<Node>, q: seq<nat>, u: nat, c: byte): seq<nat>
    requires u < |nodes| && |nodes[u].go| == 256
    requires -1 <= nodes[u].go[c]
  {
    if nodes[u].go[c] == -1 then q else q + [nodes[u].go[c]]
  }

  ghost predicate GoodTarget(nodes: seq<Node>, words: seq<Word>, pats: seq<Word>, u: nat, c: byte, target: nat)
    requires Shape(nodes, words) && u < |nodes|
  {
    && target < |nodes|
    && words[target] == LongestSuffix(words, (words[u] + [c])[1..])
    && (target != 0 ==> Emits(pats, nodes[target].matches, words[target]))
  }

  /** Own ids followed by the failure target's list: exactly the patterns that are suffixes. */
  lemma MergeEmits(words: seq<Word>, pats: seq<Word>, own: seq<nat>, inherited: seq<nat>, w: Word)
    requires [] in words && Stored(words, pats) && w != []
    requires Ends(pats, own, w)
    requires Emits(pats, inherited, LongestSuffix(words, w[1..]))
    ensures Emits(pats, own + inherited, w)
  {
    LongestSuffixIsLongest(words, w[1..]);
    var m := own + inherited;
    forall p: nat ensures p in m <==> p < |pats| && IsSuffix(pats[p], w) {
      assert p in m <==> p in own || p in inherited;
      if p < |pats| {
        ProperSuffix(pats[p], w);
        WordSuffixes(words, w[1..], pats[p]);
      }
    }
    forall i, j | 0 <= i < j < |m| ensures m[i] != m[j] {
      if i < |own| <= j {
        assert m[i] in own && m[j] in inherited;
      }
    }
  }

  lemma CellKeepsCells(nodes: seq<Node>, words: seq<Word>, done: set<nat>, cur: nat, cc: byte, target: nat)
    requires Shape(nodes, words) && cur < |nodes| && cur !in done
    requires CellsOk(nodes, words, done, cur, cc)
    requires target < |nodes| && words[target] == LongestSuffix(words, (words[cur] + [cc])[1..])
    ensures Edge(nodes, words, cur, cc)
    ensures var nodes' := CellStep(nodes, cur, cc, target);
      Shape(nodes', words) && CellsOk(nodes', words, done, cur, cc + 1)
  {
    assert !Expanded(done, cur, cc, cur, cc);
    assert Edge(nodes, words, cur, cc);
    var nodes' := CellStep(nodes, cur, cc, target);
    forall u: nat, c: byte | u < |nodes'|
      ensures if Expanded(done, cur, cc + 1, u, c) then Complete(nodes', words, u, c) else Edge(nodes', words, u, c)
    {
      if u != cur || c != cc {
        assert Expanded(done, cur, cc + 1, u, c) == Expanded(done, cur, cc, u, c);
        assert nodes'[u].go[c] == nodes[u].go[c];
        assert Complete(nodes, words, u, c) ==> Complete(nodes', words, u, c);
        assert Edge(nodes, words, u, c) ==> Edge(nodes', words, u, c);
      } else {
        assert Complete(nodes', words, u, c);
      }
    }
  }

  lemma CellKeepsQueue(nodes: seq<Node>, words: seq<Word>, q: seq<nat>, done: set<nat>, cur: nat, cc: byte)
    requires Shape(nodes, words) && cur < |nodes| && cur !in done
    requires Edge(nodes, words, cur, cc)
    requires QueueOk(words, q, done, cur, cc)
    ensures nodes[cur].go[cc] != -1 ==> nodes[cur].go[cc] !in q
    ensures QueueOk(words, Enqueued(nodes, q, cur, cc), done, cur, cc + 1)
  {
    assert !Expanded(done, cur, cc, cur, cc);
    var child := nodes[cur].go[cc];
    var q' := Enqueued(nodes, q, cur, cc);
    forall u: nat, c: byte, v: nat | u < |words| && v < |words| && words[v] == words[u] + [c]
      ensures v in q' <==> Expanded(done, cur, cc + 1, u, c)
    {
      assert v in q <==> Expanded(done, cur, cc, u, c);
      LastByte(words[u], c, words[cur], cc);
    }
  }

  lemma CellKeepsLinks(nodes: seq<Node>, words: seq<Word>, pats: seq<Word>, q: seq<nat>, cur: nat, cc: byte, target: nat)
    requires Shape(nodes, words) && Stored(words, pats) && cur < |nodes|
    requires Edge(nodes, words, cur, cc)
    requires LinksOk(nodes, words, pats, q)
    requires nodes[cur].go[cc] != -1 ==> nodes[cur].go[cc] !in q
    requires GoodTarget(nodes, words, pats, cur, cc, target)
    ensures Shape(CellStep(nodes, cur, cc, target), words)
    ensures LinksOk(CellStep(nodes, cur, cc, target), words, pats, Enqueued(nodes, q, cur, cc))
  {
    var nodes', q', child := CellStep(nodes, cur, cc, target), Enqueued(nodes, q, cur, cc), nodes[cur].go[cc];
    forall v: nat | v < |nodes'|
      ensures if v in q' then Linked(nodes', words, pats, v)
              else nodes'[v].fail == 0 && Ends(pats, nodes'[v].matches, words[v])
    {
      if v == child {
        var inherited := if target != 0 then nodes[target].matches else [];
        assert target == 0 ==> Emits(pats, [], words[target]);
        MergeEmits(words, pats, nodes[v].matches, inherited, words[v]);
      } else {
        assert v in q' <==> v in q;
        assert nodes'[v].fail == nodes[v].fail && nodes'[v].matches == nodes[v].matches;
        assert Linked(nodes, words, pats, v) ==> Linked(nodes', words, pats, v);
      }
    }
  }

  /** One cell of the breadth-first completion keeps the whole invariant. */
  lemma CellKeepsLinking(nodes: seq<Node>, words: seq<Word>, pats: seq<Word>, q: seq<nat>,
                         done: set<nat>, cur: nat, cc: byte, target: nat)
    requires Linking(nodes, words, pats, q, done, cur, cc)
    requires GoodTarget(nodes, words, pats, cur, cc, target)
    ensures Edge(nodes, words, cur, cc)
    ensures Linking(CellStep(nodes, cur, cc, target), words, pats, Enqueued(nodes, q, cur, cc), done, cur, cc + 1)
  {
    CellKeepsCells(nodes, words, done, cur, cc, target);
    CellKeepsQueue(nodes, words, q, done, cur, cc);
    CellKeepsLinks(nodes, words, pats, q, cur, cc, target);
  }
}
