/** Cutting a sequence at every separator, as `split` does: always at least one piece. */
module Lines {
  function Last<T>(s: seq<T>): T
    requires s != []
  {
    s[|s| - 1]
  }

  function Pieces<T(==)>(s: seq<T>, sep: T): (p: seq<seq<T>>)
    ensures |p| > 0
  {
    if s == [] then [[]]
    else
      var p := Pieces(s[..|s| - 1], sep);
      if Last(s) == sep then p + [[]] else p[|p| - 1 := Last(p) + [Last(s)]]
  }

  function Join<T>(pieces: seq<seq<T>>, sep: T): seq<T>
    requires |pieces| > 0
  {
    if |pieces| == 1 then pieces[0] else Join(pieces[..|pieces| - 1], sep) + [sep] + Last(pieces)
  }

  /** What the pieces are: free of separators, and joining them gives the sequence back. */
  lemma {:induction false} PiecesJoin<T>(s: seq<T>, sep: T)
    ensures Join(Pieces(s, sep), sep) == s
    ensures forall k :: 0 <= k < |Pieces(s, sep)| ==> sep !in Pieces(s, sep)[k]
  {
    if s != [] {
      var v := s[..|s| - 1];
      PiecesJoin(v, sep);
      var p, q := Pieces(v, sep), Pieces(s, sep);
      assert s == v + [Last(s)];
      if Last(s) == sep {
        assert q[..|q| - 1] == p;
      } else {
        assert q[..|q| - 1] == p[..|p| - 1];
        assert forall k :: 0 <= k < |q| - 1 ==> q[k] == p[k];
      }
    }
  }

  /** What one more element makes of the pieces. */
  function Extended<T(==)>(p: seq<seq<T>>, x: T, sep: T): seq<seq<T>>
    requires |p| > 0
  {
    if x == sep then p + [[]] else p[|p| - 1 := Last(p) + [x]]
  }

  lemma PiecesSnoc<T>(s: seq<T>, x: T, sep: T)
    ensures Pieces(s + [x], sep) == Extended(Pieces(s, sep), x, sep)
  {
    assert (s + [x])[..|s|] == s;
  }

  /** The last piece of one run into the first of the other. */
  function Merged<T>(p: seq<seq<T>>, q: seq<seq<T>>): (r: seq<seq<T>>)
    requires |p| > 0 && |q| > 0
    ensures |r| > 0
  {
    p[..|p| - 1] + [Last(p) + q[0]] + q[1..]
  }

  lemma MergedExtended<T>(p: seq<seq<T>>, q: seq<seq<T>>, x: T, sep: T)
    requires |p| > 0 && |q| > 0
    ensures Extended(Merged(p, q), x, sep) == Merged(p, Extended(q, x, sep))
  {
    if x != sep && |q| == 1 {
      Reassociate(Last(p), q[0], [x]);
    }
  }

  /** The pieces of a concatenation: the last piece of one runs into the first of the other. */
  lemma {:induction false} PiecesConcat<T>(a: seq<T>, b: seq<T>, sep: T)
    ensures Pieces(a + b, sep) == Merged(Pieces(a, sep), Pieces(b, sep))
    decreases |b|
  {
    if b == [] {
      assert a + b == a;
      assert Last(Pieces(a, sep)) + [] == Last(Pieces(a, sep));
    } else {
      var b', x := b[..|b| - 1], Last(b);
      PiecesConcat(a, b', sep);
      assert b == b' + [x];
      Reassociate(a, b', [x]);
      PiecesSnoc(a + b', x, sep);
      PiecesSnoc(b', x, sep);
      MergedExtended(Pieces(a, sep), Pieces(b', sep), x, sep);
    }
  }

  lemma {:induction false} PiecesWhole<T>(s: seq<T>, sep: T)
    requires sep !in s
    ensures Pieces(s, sep) == [s]
  {
    if s != [] {
      PiecesWhole(s[..|s| - 1], sep);
      assert s == s[..|s| - 1] + [Last(s)];
    }
  }

  /** One line and its terminator in front of the rest. */
  lemma PiecesLine<T>(line: seq<T>, rest: seq<T>, sep: T)
    requires sep !in line
    ensures Pieces(line + [sep] + rest, sep) == [line] + Pieces(rest, sep)
  {
    PiecesWhole(line, sep);
    assert (line + [sep])[..|line|] == line;
    PiecesConcat(line + [sep], rest, sep);
    var q := Pieces(rest, sep);
    assert [] + q[0] == q[0];
    assert [q[0]] + q[1..] == q;
  }

  /** A prefix has no more pieces, and each is a prefix of the piece with the same number. */
  lemma PiecesOfPrefix<T>(a: seq<T>, s: seq<T>, sep: T, n: nat)
    requires a <= s && n < |Pieces(a, sep)|
    ensures n < |Pieces(s, sep)| && Pieces(a, sep)[n] <= Pieces(s, sep)[n]
  {
    assert s == a + s[|a|..];
    PiecesConcat(a, s[|a|..], sep);
  }

  /** The pieces that are complete: all but the last. */
  function Complete<T(==)>(s: seq<T>, sep: T): seq<seq<T>> {
    Pieces(s, sep)[..|Pieces(s, sep)| - 1]
  }

  /** The piece still open. */
  function Tail<T(==)>(s: seq<T>, sep: T): seq<T> {
    Last(Pieces(s, sep))
  }

  lemma OpenPiece<T>(line: seq<T>, more: seq<T>, sep: T)
    requires sep !in line
    ensures var q := Pieces(more, sep); Pieces(line + more, sep) == [line + q[0]] + q[1..]
  {
    PiecesWhole(line, sep);
    PiecesConcat(line, more, sep);
    assert [line][..0] == [];
  }

  /** Feeding more data only ever reworks the open piece. */
  lemma Feed<T>(seen: seq<T>, more: seq<T>, sep: T)
    ensures Complete(seen + more, sep) == Complete(seen, sep) + Complete(Tail(seen, sep) + more, sep)
    ensures Tail(seen + more, sep) == Tail(Tail(seen, sep) + more, sep)
  {
    var p, q := Complete(seen, sep), Pieces(more, sep);
    var tail := [Tail(seen, sep) + q[0]] + q[1..];
    assert Pieces(seen + more, sep) == p + tail by {
      PiecesConcat(seen, more, sep);
    }
    assert Pieces(Tail(seen, sep) + more, sep) == tail by {
      PiecesJoin(seen, sep);
      OpenPiece(Tail(seen, sep), more, sep);
    }
    assert (p + tail)[..|p + tail| - 1] == p + tail[..|tail| - 1];
  }

  function Flatten<T>(chunks: seq<seq<T>>): seq<T> {
    if chunks == [] then [] else Flatten(chunks[..|chunks| - 1]) + Last(chunks)
  }

  lemma FlattenStep<T>(chunks: seq<seq<T>>, i: nat)
    requires i < |chunks|
    ensures Flatten(chunks[..i + 1]) == Flatten(chunks[..i]) + chunks[i]
  {
    assert chunks[..i + 1][..i] == chunks[..i];
  }

  lemma {:induction false} FlattenCons<T>(chunks: seq<seq<T>>)
    requires chunks != []
    ensures Flatten(chunks) == chunks[0] + Flatten(chunks[1..])
  {
    var n := |chunks| - 1;
    if n > 0 {
      FlattenCons(chunks[..n]);
      assert chunks[..n][1..] == chunks[1..][..n - 1];
    }
  }

  lemma Reassociate<T>(a: seq<T>, b: seq<T>, c: seq<T>)
    ensures (a + b) + c == a + (b + c)
  {
  }
}
