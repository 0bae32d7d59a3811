/** Replies that are not values: errors, malformed lines, and streams that end too early. */
module RespErrors {
  import opened Wrappers
  import opened Lines
  import opened Resp

  // ---- error replies and malformed lines ----

  lemma OneLine(line: Octets, rest: Octets)
    requires FindCrlf(line).None?
    ensures Parse(line + CRLF + rest) == ParseLine(line + CRLF + rest, line, rest)
  {
    var s := line + CRLF + rest;
    FirstCrlf(line, rest);
    assert s[..|line|] == line && s[|line| + 2..] == rest;
  }

  /** An error reply is reported with its own text. */
  lemma ErrorReply(text: Octets, rest: Octets)
    requires FindCrlf(text).None?
    ensures Parse(Frame('-', text) + rest) == Failed(RedisError(text))
  {
    FrameLine('-', text, rest);
    assert (['-' as int] + text)[1..] == text;
  }

  /** A line of no known type is reported as it is. */
  lemma UnknownReply(line: Octets, rest: Octets)
    requires FindCrlf(line).None?
    requires line == [] || line[0] !in {'+' as int, '-' as int, ':' as int, '$' as int, '*' as int}
    ensures Parse(line + CRLF + rest) == Failed(Unexpected(line))
  {
    OneLine(line, rest);
  }

  /** So is a number that is none, in an integer or in a length. */
  lemma BadNumberReply(tag: char, text: Octets, rest: Octets)
    requires tag in {':', '$', '*'} && FindCrlf(text).None? && ParseInt(text).None?
    ensures Parse(Frame(tag, text) + rest) == Failed(BadNumber)
  {
    FrameLine(tag, text, rest);
    assert ([tag as int] + text)[1..] == text;
  }

  /** An array of fewer than no elements is empty, and -1 of them are none. */
  lemma NegativeArray(n: int, rest: Octets)
    requires n < 0
    ensures Parse(Frame('*', Decimal(n)) + rest) == Got(if n == -1 then Nothing else List([]), rest)
  {
    NumberLine('*', n, rest);
  }

  /** After some good replies, an error fails them all. */
  lemma {:induction false} ManyFail(s: Octets, items: seq<Reply>, n: nat, error: Octets, e: Error)
    requires s == EncodeAll(items) + error && n > |items| && Parse(error) == Failed(e)
    requires forall k :: 0 <= k < |items| ==> Encodable(items[k])
    ensures ParseMany(s, n) == Failed(e)
    decreases |items|
  {
    if items == [] {
      assert s == error;
    } else {
      var after := EncodeAll(items[1..]) + error;
      EncodeAllSplits(items, error);
      ManyFail(after, items[1..], n - 1, error, e);
      LaterFails(items[0], after, n - 1, e);
    }
  }

  /** An error among the elements of an array is the reply, whatever came before it and whatever follows. */
  lemma ErrorInArray(items: seq<Reply>, n: nat, text: Octets, rest: Octets)
    requires n > |items| && FindCrlf(text).None? && forall k :: 0 <= k < |items| ==> Encodable(items[k])
    ensures Parse(Frame('*', Decimal(n)) + (EncodeAll(items) + (Frame('-', text) + rest))) == Failed(RedisError(text))
  {
    var body := EncodeAll(items) + (Frame('-', text) + rest);
    ErrorReply(text, rest);
    ManyFail(body, items, n, Frame('-', text) + rest, RedisError(text));
    ArrayFails(n, body, RedisError(text));
  }

  lemma ArrayFails(n: nat, body: Octets, e: Error)
    requires ParseMany(body, n) == Failed(e)
    ensures Parse(Frame('*', Decimal(n)) + body) == Failed(e)
  {
    NumberLine('*', n, body);
  }

  // ---- streams that end too early ----

  lemma CutInside<T>(a: seq<T>, b: seq<T>, i: nat)
    requires i <= |a|
    ensures (a + b)[..i] == a[..i]
  {
  }

  lemma CutAfter<T>(a: seq<T>, b: seq<T>, i: nat)
    requires i <= |b|
    ensures (a + b)[..|a| + i] == a + b[..i]
  {
  }

  /** A terminator that is cut is no terminator. */
  lemma CutLine(s: Octets, i: nat)
    requires i <= |s| && FindCrlf(s).Some? && i < FindCrlf(s).value + 2
    ensures FindCrlf(s[..i]).None?
  {
  }

  lemma FrameFirst(tag: char, text: Octets, rest: Octets)
    requires FindCrlf(text).None? && tag as int != CR
    ensures FindCrlf(Frame(tag, text) + rest) == Some(1 + |text|)
  {
    var line := [tag as int] + text;
    assert line[1..] == text;
    assert FindCrlf(line).None?;
    FirstCrlf(line, rest);
    assert Frame(tag, text) + rest == line + CRLF + rest;
  }

  lemma CutFrame(tag: char, text: Octets, rest: Octets, i: nat)
    requires FindCrlf(text).None? && tag as int != CR && i < |Frame(tag, text)|
    ensures Parse((Frame(tag, text) + rest)[..i]) == Failed(Closed)
  {
    FrameFirst(tag, text, rest);
    CutLine(Frame(tag, text) + rest, i);
  }

  lemma CutNumber(tag: char, n: int, rest: Octets, i: nat)
    requires tag as int != CR && i < |Frame(tag, Decimal(n))|
    ensures Parse((Frame(tag, Decimal(n)) + rest)[..i]) == Failed(Closed)
  {
    DecimalOneLine(n);
    NoCrNoCrlf(Decimal(n));
    CutFrame(tag, Decimal(n), rest, i);
  }

  lemma CutBulk(data: Octets, i: nat)
    requires i < |Encode(Bulk(data))|
    ensures Parse(Encode(Bulk(data))[..i]) == Failed(Closed)
  {
    var header, body := Frame('$', Decimal(|data|)), data + CRLF;
    assert Encode(Bulk(data)) == header + body;
    if i < |header| {
      CutNumber('$', |data|, body, i);
    } else {
      assert (header + body)[..i] == header + body[..i - |header|];
      NumberLine('$', |data|, body[..i - |header|]);
    }
  }

  lemma CutArray(items: seq<Reply>, i: nat)
    requires i < |Encode(Array(items))|
    requires forall j :: 0 <= j < |EncodeAll(items)| ==> ParseMany(EncodeAll(items)[..j], |items|) == Failed(Closed)
    ensures Parse(Encode(Array(items))[..i]) == Failed(Closed)
  {
    var header, body := Frame('*', Decimal(|items|)), EncodeAll(items);
    if i < |header| {
      CutNumber('*', |items|, body, i);
    } else {
      var j := i - |header|;
      assert (header + body)[..i] == header + body[..j];
      ArrayFails(|items|, body[..j], Closed);
    }
  }

  /** Of an encoded reply, nothing is understood before all of it has arrived. */
  lemma {:induction false} CutReply(r: Reply, i: nat)
    requires Encodable(r) && i < |Encode(r)|
    ensures Parse(Encode(r)[..i]) == Failed(Closed)
    decreases r, 1
  {
    match r
    case Simple(text) => NoRest(Encode(r)); CutFrame('+', text, [], i);
    case Integer(n) => NoRest(Encode(r)); CutNumber(':', n, [], i);
    case Bulk(data) => CutBulk(data, i);
    case NullBulk => NoRest(Encode(r)); CutNumber('$', -1, [], i);
    case Array(items) =>
      forall j | 0 <= j < |EncodeAll(items)| ensures ParseMany(EncodeAll(items)[..j], |items|) == Failed(Closed) {
        CutReplies(r, items, j);
      }
      CutArray(items, i);
    case NullArray => NoRest(Encode(r)); CutNumber('*', -1, [], i);
  }

  lemma NoRest(s: Octets)
    ensures s + [] == s
  {
  }

  /** A cut in the first of some replies, and one in a later one. */
  lemma CutFirst(first: Octets, others: Octets, n: nat, j: nat)
    requires j < |first| && Parse(first[..j]) == Failed(Closed) && n > 0
    ensures ParseMany((first + others)[..j], n) == Failed(Closed)
  {
    CutInside(first, others, j);
  }

  lemma CutLater(r: Reply, others: Octets, n: nat, i: nat)
    requires Encodable(r) && i <= |others| && ParseMany(others[..i], n) == Failed(Closed)
    ensures ParseMany((Encode(r) + others)[..|Encode(r)| + i], n + 1) == Failed(Closed)
  {
    CutAfter(Encode(r), others, i);
    LaterFails(r, others[..i], n, Closed);
  }

  lemma CutEither(r: Reply, others: Octets, n: nat, j: nat)
    requires Encodable(r) && j < |Encode(r)| + |others|
    requires j < |Encode(r)| ==> Parse(Encode(r)[..j]) == Failed(Closed)
    requires j >= |Encode(r)| ==> ParseMany(others[..j - |Encode(r)|], n) == Failed(Closed)
    ensures ParseMany((Encode(r) + others)[..j], n + 1) == Failed(Closed)
  {
    var first := Encode(r);
    if j < |first| {
      CutFirst(first, others, n + 1, j);
    } else {
      CutLater(r, others, n, j - |first|);
    }
  }

  /** What fails after a good reply fails. */
  lemma LaterFails(r: Reply, after: Octets, n: nat, e: Error)
    requires Encodable(r) && ParseMany(after, n) == Failed(e)
    ensures ParseMany(Encode(r) + after, n + 1) == Failed(e)
  {
    ParseEncode(r, after);
  }

  lemma {:induction false} CutReplies(whole: Reply, items: seq<Reply>, j: nat)
    requires forall k :: 0 <= k < |items| ==> Encodable(items[k]) && items[k] < whole
    requires j < |EncodeAll(items)|
    ensures ParseMany(EncodeAll(items)[..j], |items|) == Failed(Closed)
    decreases whole, 0, |items|
  {
    EncodeCons(items);
    var n := |Encode(items[0])|;
    if j < n {
      CutReply(items[0], j);
    } else {
      TailSmaller(whole, items);
      CutReplies(whole, items[1..], j - n);
    }
    CutEither(items[0], EncodeAll(items[1..]), |items| - 1, j);
  }

  // ---- numbers ----

  /** Digits with single underscores between them. */
  predicate Numeral(s: Octets) {
    && s != [] && IsDigit(s[0]) && IsDigit(s[|s| - 1])
    && (forall k :: 0 <= k < |s| ==> IsDigit(s[k]) || s[k] == '_' as int)
    && forall k :: 0 < k < |s| ==> IsDigit(s[k - 1]) || IsDigit(s[k])
  }

  /** Nothing else is read as a number. */
  lemma {:induction false} NumeralsOnly(s: Octets)
    ensures DigitsValue(s).Some? <==> Numeral(s)
  {
    if |s| > 1 && IsDigit(s[|s| - 1]) {
      NumeralsOnly(if s[|s| - 2] == '_' as int then s[..|s| - 2] else s[..|s| - 1]);
    }
  }

  function WithoutUnderscores(s: Octets): Octets {
    if s == [] then []
    else WithoutUnderscores(s[..|s| - 1]) + if s[|s| - 1] == '_' as int then [] else [s[|s| - 1]]
  }

  lemma DigitsSnoc(s: Octets, c: int)
    requires DigitsValue(s).Some? && IsDigit(c)
    ensures DigitsValue(s + [c]) == Some(10 * DigitsValue(s).value + (c - '0' as int))
  {
    assert (s + [c])[..|s|] == s;
  }

  lemma WithoutSnoc(s: Octets, c: int)
    ensures WithoutUnderscores(s + [c]) == WithoutUnderscores(s) + if c == '_' as int then [] else [c]
  {
    assert (s + [c])[..|s|] == s;
  }

  /** And the underscores do not count. */
  lemma {:induction false} UnderscoresIgnored(s: Octets)
    requires Numeral(s)
    ensures DigitsValue(WithoutUnderscores(s)) == DigitsValue(s)
  {
    NumeralsOnly(s);
    var n := |s| - 1;
    if n == 0 {
      WithoutSnoc([], s[0]);
      assert [] + [s[0]] == s;
    } else {
      var head := if s[n - 1] == '_' as int then s[..n - 1] else s[..n];
      UnderscoreBefore(s, head);
      NumeralsOnly(head);
      UnderscoresIgnored(head);
      DigitsSnoc(WithoutUnderscores(head), s[n]);
    }
  }

  lemma UnderscoreBefore(s: Octets, head: Octets)
    requires |s| > 1 && s[|s| - 1] != '_' as int
    requires head == if s[|s| - 2] == '_' as int then s[..|s| - 2] else s[..|s| - 1]
    ensures WithoutUnderscores(s) == WithoutUnderscores(head) + [s[|s| - 1]]
  {
    var n := |s| - 1;
    WithoutSnoc(s[..n], s[n]);
    assert s == s[..n] + [s[n]];
    if s[n - 1] == '_' as int {
      WithoutSnoc(s[..n - 1], s[n - 1]);
      assert s[..n] == s[..n - 1] + [s[n - 1]];
    }
  }

  lemma TrimmedAlready(s: Octets)
    requires s != [] ==> !IsSpace(s[0]) && !IsSpace(s[|s| - 1])
    ensures Trim(s) == s
  {
  }

  /** A sign in front of a numeral. */
  lemma SignedNumber(s: Octets)
    requires Numeral(s)
    ensures DigitsValue(s).Some? && ParseInt(s) == DigitsValue(s) && ParseInt(['+' as int] + s) == DigitsValue(s)
    ensures ParseInt(['-' as int] + s) == Some(-(DigitsValue(s).value as int))
  {
    NumeralsOnly(s);
    var plus, minus := ['+' as int] + s, ['-' as int] + s;
    TrimmedAlready(s);
    TrimmedAlready(plus);
    TrimmedAlready(minus);
    assert plus[1..] == s && minus[1..] == s;
  }

  /** White space around a number. */
  lemma SpacedNumber(s: Octets, c: int)
    requires s != [] && !IsSpace(s[0]) && !IsSpace(s[|s| - 1]) && IsSpace(c)
    ensures ParseInt([c] + s) == ParseInt(s) && ParseInt(s + [c]) == ParseInt(s)
  {
    assert ([c] + s)[1..] == s && (s + [c])[..|s|] == s;
    assert Trim([c] + s) == Trim(s) && Trim(s + [c]) == Trim(s);
  }
}
