/** RESP2 replies: their encoding, and the decoder as a function of the whole stream. */
module Resp {
  import opened Wrappers
  import opened Lines

  type Octets = seq<int>

  const CR := 13
  const LF := 10
  const CRLF := [CR, LF]

  // ---- decimal numbers, as Python's int() reads them ----

  function Digits(n: nat): (s: Octets)
    ensures s != [] && forall k :: 0 <= k < |s| ==> '0' as int <= s[k] <= '9' as int
  {
    if n < 10 then ['0' as int + n] else Digits(n / 10) + ['0' as int + n % 10]
  }

  function Decimal(n: int): Octets {
    if n < 0 then ['-' as int] + Digits(-n) else Digits(n)
  }

  predicate IsDigit(c: int) {
    '0' as int <= c <= '9' as int
  }

  predicate IsSpace(c: int) {
    9 <= c <= 13 || c == 32
  }

  /** Digits, with single underscores allowed between them. */
  function DigitsValue(s: Octets): Option<nat> {
    if s == [] || !IsDigit(s[|s| - 1]) then None
    else
      var d := s[|s| - 1] - '0' as int;
      if |s| == 1 then Some(d)
      else
        var head := if s[|s| - 2] == '_' as int then s[..|s| - 2] else s[..|s| - 1];
        match DigitsValue(head)
        case Some(n) => Some(10 * n + d)
        case None => None
  }

  function Trim(s: Octets): Octets {
    if s == [] then s
    else if IsSpace(s[0]) then Trim(s[1..])
    else if IsSpace(s[|s| - 1]) then Trim(s[..|s| - 1])
    else s
  }

  function ParseInt(text: Octets): Option<int> {
    var s := Trim(text);
    if s != [] && s[0] == '-' as int then
      match DigitsValue(s[1..])
      case Some(n) => Some(-(n as int))
      case None => None
    else if s != [] && s[0] == '+' as int then DigitsValue(s[1..])
    else DigitsValue(s)
  }

  lemma {:induction false} DigitsRoundTrip(n: nat)
    ensures DigitsValue(Digits(n)) == Some(n)
  {
    if n >= 10 {
      DigitsRoundTrip(n / 10);
      var s := Digits(n);
      assert s[..|s| - 1] == Digits(n / 10);
      assert s[|s| - 2] == Digits(n / 10)[|s| - 2];
    }
  }

  lemma DecimalRoundTrip(n: int)
    ensures ParseInt(Decimal(n)) == Some(n)
  {
    var s := Decimal(n);
    assert !IsSpace(s[0]) && !IsSpace(s[|s| - 1]);
    assert Trim(s) == s;
    if n < 0 {
      DigitsRoundTrip(-n);
      assert s[1..] == Digits(-n);
    } else {
      DigitsRoundTrip(n);
    }
  }

  lemma DecimalOneLine(n: int)
    ensures CR !in Decimal(n)
  {
  }

  // ---- replies and their encoding ----

  datatype Reply =
    | Simple(text: Octets)
    | Integer(n: int)
    | Bulk(data: Octets)
    | NullBulk
    | Array(items: seq<Reply>)
    | NullArray

  /** What the client hands to its caller; both nulls are Python's None. */
  datatype Value = Text(text: Octets) | Int(n: int) | Bytes(data: Octets) | List(items: seq<Value>) | Nothing

  /** Only a simple string is constrained: it cannot contain the terminator. */
  predicate Encodable(r: Reply) {
    match r
    case Simple(text) => FindCrlf(text).None?
    case Array(items) => forall k :: 0 <= k < |items| ==> Encodable(items[k])
    case _ => true
  }

  function Meaning(r: Reply): Value {
    match r
    case Simple(text) => Text(text)
    case Integer(n) => Int(n)
    case Bulk(data) => Bytes(data)
    case NullBulk => Nothing
    case Array(items) => List(Meanings(items))
    case NullArray => Nothing
  }

  function Meanings(items: seq<Reply>): (values: seq<Value>)
    ensures |values| == |items|
  {
    if items == [] then [] else [Meaning(items[0])] + Meanings(items[1..])
  }

  function Frame(tag: char, text: Octets): Octets {
    [tag as int] + text + CRLF
  }

  function Encode(r: Reply): Octets {
    match r
    case Simple(text) => Frame('+', text)
    case Integer(n) => Frame(':', Decimal(n))
    case Bulk(data) => Frame('$', Decimal(|data|)) + data + CRLF
    case NullBulk => Frame('$', Decimal(-1))
    case Array(items) => Frame('*', Decimal(|items|)) + EncodeAll(items)
    case NullArray => Frame('*', Decimal(-1))
  }

  function EncodeAll(items: seq<Reply>): Octets {
    if items == [] then [] else Encode(items[0]) + EncodeAll(items[1..])
  }

  // ---- the decoder on a whole stream ----

  /** Where the first terminator starts. */
  function FindCrlf(s: Octets): (r: Option<nat>)
    ensures r.Some? ==> r.value + 2 <= |s| && s[r.value] == CR && s[r.value + 1] == LF
    ensures r.Some? ==> forall k :: 0 <= k < r.value ==> !(s[k] == CR && s[k + 1] == LF)
    ensures r.None? ==> forall k :: 0 <= k < |s| - 1 ==> !(s[k] == CR && s[k + 1] == LF)
  {
    if |s| < 2 then None
    else if s[0] == CR && s[1] == LF then Some(0)
    else match FindCrlf(s[1..])
      case Some(i) => Some(i + 1)
      case None => None
  }

  datatype Error = Closed | RedisError(text: Octets) | BadNumber | Unexpected(line: Octets)

  /** `Unsettled`: a bulk length below -1, for which the answer can depend on how the bytes arrived. */
  datatype Parsed<+T> = Got(value: T, rest: Octets) | Failed(error: Error) | Unsettled

  function Parse(s: Octets): (p: Parsed<Value>)
    ensures p.Got? ==> |p.rest| < |s|
    decreases |s|, 0
  {
    match FindCrlf(s)
    case None => Failed(Closed)
    case Some(i) => ParseLine(s, s[..i], s[i + 2..])
  }

  function ParseLine(ghost s: Octets, line: Octets, rest: Octets): (p: Parsed<Value>)
    requires |rest| < |s|
    ensures p.Got? ==> |p.rest| <= |rest|
    decreases |s|, 0, 0
  {
    if line == [] then Failed(Unexpected(line))
    else
      var text := line[1..];
      if line[0] == '+' as int then Got(Text(text), rest)
      else if line[0] == '-' as int then Failed(RedisError(text))
      else if line[0] == ':' as int then
        match ParseInt(text)
        case Some(n) => Got(Int(n), rest)
        case None => Failed(BadNumber)
      else if line[0] == '$' as int then
        match ParseInt(text)
        case None => Failed(BadNumber)
        case Some(n) =>
          if n == -1 then Got(Nothing, rest)
          else if n < -1 then Unsettled
          else if |rest| < n + 2 then Failed(Closed)
          else Got(Bytes(rest[..n]), rest[n + 2..])
      else if line[0] == '*' as int then
        match ParseInt(text)
        case None => Failed(BadNumber)
        case Some(n) =>
          if n == -1 then Got(Nothing, rest)
          else match ParseMany(rest, if n < 0 then 0 else n)
            case Got(items, rest') => Got(List(items), rest')
            case Failed(e) => Failed(e)
            case Unsettled => Unsettled
      else Failed(Unexpected(line))
  }

  function ParseMany(s: Octets, n: nat): (p: Parsed<seq<Value>>)
    ensures p.Got? ==> |p.rest| <= |s|
    decreases |s|, 1
  {
    if n == 0 then Got([], s)
    else match Parse(s)
      case Failed(e) => Failed(e)
      case Unsettled => Unsettled
      case Got(v, rest) =>
        match ParseMany(rest, n - 1)
        case Failed(e) => Failed(e)
        case Unsettled => Unsettled
        case Got(vs, rest') => Got([v] + vs, rest')
  }

  // ---- the round trip ----

  lemma {:induction false} FirstCrlf(text: Octets, rest: Octets)
    requires FindCrlf(text).None?
    ensures FindCrlf(text + CRLF + rest) == Some(|text|)
  {
    var s := text + CRLF + rest;
    if text != [] {
      assert s[1..] == text[1..] + CRLF + rest;
      FirstCrlf(text[1..], rest);
      assert s[1] == if |text| > 1 then text[1] else CR;
    }
  }

  lemma {:induction false} NoCrNoCrlf(text: Octets)
    requires CR !in text
    ensures FindCrlf(text).None?
  {
    if |text| >= 2 {
      assert CR !in text[1..];
      NoCrNoCrlf(text[1..]);
    }
  }

  lemma FrameLine(tag: char, text: Octets, rest: Octets)
    requires FindCrlf(text).None? && tag as int != CR
    ensures Parse(Frame(tag, text) + rest) == ParseLine(Frame(tag, text) + rest, [tag as int] + text, rest)
  {
    var line := [tag as int] + text;
    var s := Frame(tag, text) + rest;
    assert line[1..] == text;
    assert FindCrlf(line).None?;
    assert s == line + CRLF + rest;
    FirstCrlf(line, rest);
    assert s[..|line|] == line && s[|line| + 2..] == rest;
  }

  lemma BulkLine(data: Octets, after: Octets, rest: Octets)
    requires after == (data + CRLF) + rest
    ensures Parse(Frame('$', Decimal(|data|)) + after) == Got(Bytes(data), rest)
  {
    NumberLine('$', |data|, after);
    assert after[..|data|] == data && after[|data| + 2..] == rest;
  }

  lemma ParseEncodeBulk(data: Octets, rest: Octets)
    ensures Parse(Encode(Bulk(data)) + rest) == Got(Bytes(data), rest)
  {
    var head := Frame('$', Decimal(|data|));
    BulkLine(data, (data + CRLF) + rest, rest);
    Reassociate(head, data, CRLF);
    Reassociate(head, data + CRLF, rest);
  }

  lemma ArrayLine(n: nat, body: Octets, values: seq<Value>, rest: Octets)
    requires ParseMany(body, n) == Got(values, rest)
    ensures Parse(Frame('*', Decimal(n)) + body) == Got(List(values), rest)
  {
    NumberLine('*', n, body);
  }

  lemma EncodeArray(items: seq<Reply>)
    ensures Encode(Array(items)) == Frame('*', Decimal(|items|)) + EncodeAll(items)
  {
  }

  lemma EncodeCons(items: seq<Reply>)
    requires items != []
    ensures EncodeAll(items) == Encode(items[0]) + EncodeAll(items[1..])
  {
  }

  lemma EncodeArraySplits(items: seq<Reply>, rest: Octets)
    ensures Encode(Array(items)) + rest == Frame('*', Decimal(|items|)) + (EncodeAll(items) + rest)
  {
    EncodeArray(items);
    Reassociate(Frame('*', Decimal(|items|)), EncodeAll(items), rest);
  }

  lemma EncodeAllSplits(items: seq<Reply>, rest: Octets)
    requires items != []
    ensures EncodeAll(items) + rest == Encode(items[0]) + (EncodeAll(items[1..]) + rest)
  {
    EncodeCons(items);
    Reassociate(Encode(items[0]), EncodeAll(items[1..]), rest);
  }

  lemma ParseArrayHeader(items: seq<Reply>, rest: Octets)
    requires ParseMany(EncodeAll(items) + rest, |items|) == Got(Meanings(items), rest)
    ensures Parse(Encode(Array(items)) + rest) == Got(List(Meanings(items)), rest)
  {
    ArrayLine(|items|, EncodeAll(items) + rest, Meanings(items), rest);
    EncodeArraySplits(items, rest);
  }

  lemma ManyStep(s: Octets, n: nat, v: Value, rest: Octets, vs: seq<Value>, rest': Octets)
    requires Parse(s) == Got(v, rest) && ParseMany(rest, n) == Got(vs, rest')
    ensures ParseMany(s, n + 1) == Got([v] + vs, rest')
  {
  }

  /** Decoding an encoded reply gives its meaning and leaves exactly the bytes that follow. */
  lemma {:induction false} ParseEncode(r: Reply, rest: Octets)
    requires Encodable(r)
    ensures Parse(Encode(r) + rest) == Got(Meaning(r), rest)
    decreases r, 1
  {
    match r
    case Simple(text) =>
      FrameLine('+', text, rest);
      assert (['+' as int] + text)[1..] == text;
    case Integer(n) =>
      NumberLine(':', n, rest);
    case Bulk(data) =>
      ParseEncodeBulk(data, rest);
    case NullBulk =>
      NumberLine('$', -1, rest);
    case Array(items) =>
      ParseEncodeAll(r, items, rest);
      ParseArrayHeader(items, rest);
    case NullArray =>
      NumberLine('*', -1, rest);
  }

  lemma NumberLine(tag: char, n: int, rest: Octets)
    requires tag as int != CR
    ensures Parse(Frame(tag, Decimal(n)) + rest) == ParseLine(Frame(tag, Decimal(n)) + rest, [tag as int] + Decimal(n), rest)
    ensures ([tag as int] + Decimal(n))[1..] == Decimal(n) && ParseInt(Decimal(n)) == Some(n)
  {
    DecimalRoundTrip(n);
    DecimalOneLine(n);
    NoCrNoCrlf(Decimal(n));
    FrameLine(tag, Decimal(n), rest);
  }

  lemma TailSmaller(whole: Reply, items: seq<Reply>)
    requires items != []
    requires forall k :: 0 <= k < |items| ==> Encodable(items[k]) && items[k] < whole
    ensures forall k :: 0 <= k < |items[1..]| ==> Encodable(items[1..][k]) && items[1..][k] < whole
  {
    forall k | 0 <= k < |items[1..]| ensures Encodable(items[1..][k]) && items[1..][k] < whole {
      assert items[1..][k] == items[k + 1];
    }
  }

  /** One reply more in front of what decodes. */
  lemma ManyMore(items: seq<Reply>, rest: Octets)
    requires items != []
    requires Parse(Encode(items[0]) + (EncodeAll(items[1..]) + rest)) == Got(Meaning(items[0]), EncodeAll(items[1..]) + rest)
    requires ParseMany(EncodeAll(items[1..]) + rest, |items| - 1) == Got(Meanings(items[1..]), rest)
    ensures ParseMany(EncodeAll(items) + rest, |items|) == Got(Meanings(items), rest)
  {
    var after := EncodeAll(items[1..]) + rest;
    EncodeAllSplits(items, rest);
    MeaningsCons(items);
    ManyStep(Encode(items[0]) + after, |items| - 1, Meaning(items[0]), after, Meanings(items[1..]), rest);
  }

  lemma MeaningsCons(items: seq<Reply>)
    requires items != []
    ensures Meanings(items) == [Meaning(items[0])] + Meanings(items[1..])
  {
  }

  lemma {:induction false} ParseEncodeAll(whole: Reply, items: seq<Reply>, rest: Octets)
    requires forall k :: 0 <= k < |items| ==> Encodable(items[k]) && items[k] < whole
    ensures ParseMany(EncodeAll(items) + rest, |items|) == Got(Meanings(items), rest)
    decreases whole, 0, |items|
  {
    if items == [] {
      assert EncodeAll(items) + rest == rest;
    } else {
      ParseEncode(items[0], EncodeAll(items[1..]) + rest);
      TailSmaller(whole, items);
      ParseEncodeAll(whole, items[1..], rest);
      ManyMore(items, rest);
    }
  }

  // ---- commands ----

  function Command(args: seq<Octets>): Reply {
    Array(seq(|args|, k requires 0 <= k < |args| => Bulk(args[k])))
  }

  lemma {:induction false} MeaningsAt(items: seq<Reply>, k: nat)
    requires k < |items|
    ensures Meanings(items)[k] == Meaning(items[k])
  {
    if k > 0 {
      MeaningsAt(items[1..], k - 1);
    }
  }

  /** A server that decodes a command gets its arguments back, whatever bytes they hold. */
  lemma CommandRoundTrip(args: seq<Octets>, rest: Octets)
    ensures Parse(Encode(Command(args)) + rest) == Got(List(seq(|args|, k requires 0 <= k < |args| => Bytes(args[k]))), rest)
  {
    ParseEncode(Command(args), rest);
    var items := Command(args).items;
    forall k | 0 <= k < |args| ensures Meanings(items)[k] == Bytes(args[k]) {
      MeaningsAt(items, k);
    }
    assert Meanings(items) == seq(|args|, k requires 0 <= k < |args| => Bytes(args[k]));
  }
}
