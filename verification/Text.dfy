/** Python's view of white space, and `str.strip`. */
module Text {
  const MAX_DETAIL := 500

  /** Error texts are stored up to 500 characters. */
  function Short(s: string): (r: string)
    ensures r <= s && |r| == if |s| <= 500 then |s| else 500
  {
    if |s| <= MAX_DETAIL then s else s[..MAX_DETAIL]
  }

  predicate IsSpace(c: char) {
    || '\t' <= c <= '\r'
    || '\U{1c}' <= c <= ' '
    || c in {'\U{85}', '\U{a0}', '\U{1680}', '\U{2028}', '\U{2029}', '\U{202f}', '\U{205f}', '\U{3000}'}
    || '\U{2000}' <= c <= '\U{200a}'
  }

  function StripLeft(s: string): string {
    if s != [] && IsSpace(s[0]) then StripLeft(s[1..]) else s
  }

  function StripRight(s: string): string {
    if s != [] && IsSpace(s[|s| - 1]) then StripRight(s[..|s| - 1]) else s
  }

  function Strip(s: string): string {
    StripRight(StripLeft(s))
  }

  predicate AllSpace(s: string) {
    forall k :: 0 <= k < |s| ==> IsSpace(s[k])
  }

  lemma {:induction false} StripLeftConcat(a: string, b: string)
    ensures StripLeft(a + b) == if AllSpace(a) then StripLeft(b) else StripLeft(a) + b
    ensures AllSpace(a) ==> StripLeft(a) == ""
    ensures !AllSpace(a) ==> StripLeft(a) != "" && !IsSpace(StripLeft(a)[0])
  {
    if a == "" {
      assert a + b == b;
    } else {
      assert (a + b)[1..] == a[1..] + b;
      StripLeftConcat(a[1..], b);
      assert AllSpace(a) <==> IsSpace(a[0]) && AllSpace(a[1..]);
      assert (a + b)[0] == a[0];
    }
  }

  lemma {:induction false} StripRightConcat(a: string, b: string)
    ensures StripRight(a + b) == if AllSpace(b) then StripRight(a) else a + StripRight(b)
    ensures !AllSpace(b) ==> StripRight(b) != ""
  {
    if b == "" {
      assert a + b == a;
    } else {
      var n := |b| - 1;
      assert (a + b)[..|a| + n] == a + b[..n];
      StripRightConcat(a, b[..n]);
      assert AllSpace(b) <==> IsSpace(b[n]) && AllSpace(b[..n]);
    }
  }

  lemma {:induction false} StripRightShrinks(s: string)
    ensures |StripRight(s)| <= |s|
  {
    if s != "" && IsSpace(s[|s| - 1]) {
      StripRightShrinks(s[..|s| - 1]);
    }
  }

  /** `t` is `s` without the white space around it. */
  ghost predicate Trimmed(s: string, t: string) {
    && (exists i, j :: 0 <= i <= j <= |s| && t == s[i..j] && AllSpace(s[..i]) && AllSpace(s[j..]))
    && (t != "" ==> !IsSpace(t[0]) && !IsSpace(t[|t| - 1]))
  }

  /** Stripping takes away all the white space at both ends, and nothing else. */
  lemma StripTrims(s: string)
    ensures Trimmed(s, Strip(s))
  {
    assert s[0..|s|] == s;
    var i := LeftEdge(s, 0);
    var j := RightEdge(s, i, |s|);
    assert s[i..] == s[i..|s|] && Strip(s) == s[i..j];
    assert s[0..] == s;
  }

  lemma {:induction false} LeftEdge(s: string, lo: nat) returns (i: nat)
    requires lo <= |s|
    ensures lo <= i <= |s| && StripLeft(s[lo..]) == s[i..]
    ensures (forall k :: lo <= k < i ==> IsSpace(s[k])) && (i < |s| ==> !IsSpace(s[i]))
    decreases |s| - lo
  {
    i := lo;
    if lo < |s| && IsSpace(s[lo]) {
      assert s[lo..][1..] == s[lo + 1..];
      i := LeftEdge(s, lo + 1);
    }
  }

  lemma {:induction false} RightEdge(s: string, lo: nat, hi: nat) returns (j: nat)
    requires lo <= hi <= |s|
    ensures lo <= j <= hi && StripRight(s[lo..hi]) == s[lo..j]
    ensures (forall k :: j <= k < hi ==> IsSpace(s[k])) && (lo < j ==> !IsSpace(s[j - 1]))
    decreases hi - lo
  {
    j := hi;
    if lo < hi && IsSpace(s[hi - 1]) {
      assert s[lo..hi][..hi - lo - 1] == s[lo..hi - 1];
      j := RightEdge(s, lo, hi - 1);
    }
  }

  /** White space at the end does not matter. */
  lemma StripTrailing(s: string, b: string)
    requires AllSpace(b)
    ensures Strip(s + b) == Strip(s)
  {
    StripLeftConcat(s, b);
    StripLeftConcat(b, "");
    assert b + "" == b;
    StripRightConcat(StripLeft(s), b);
  }

  /** Anything that starts with a visible character does. */
  lemma StripVisible(s: string, b: string)
    requires b != "" && !IsSpace(b[0])
    ensures |Strip(s + b)| > |Strip(s)|
  {
    StripLeftConcat(s, b);
    assert !AllSpace(b);
    StripRightConcat(StripLeft(s), b);
    StripRightConcat("", b);
    StripRightShrinks(StripLeft(s));
    assert StripLeft(b) == b;
    assert "" + b == b && "" + StripRight(b) == StripRight(b);
  }

  lemma StripEmpty(s: string)
    ensures Strip(s) == "" <==> AllSpace(s)
  {
    StripLeftConcat(s, "");
    assert s + "" == s;
    var left := StripLeft(s);
    if !AllSpace(s) {
      assert !AllSpace(left);
      StripRightConcat("", left);
    }
  }
}
