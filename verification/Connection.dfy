/** Reading replies from a connection whose bytes arrive in chunks. */
module Connection {
  import opened Wrappers
  import opened Lines
  import opened Resp

  /** What has been received and not consumed, and the chunks still to come before the connection closes. */
  datatype Conn = Conn(buf: Octets, chunks: seq<Octets>)

  datatype Read<+T> = Read(result: Result<T, Error>, conn: Conn)

  /** Every byte not yet consumed, received or not. */
  function Stream(c: Conn): Octets {
    c.buf + Flatten(c.chunks)
  }

  /** A chunk that is received is not empty: an empty one means that the connection is closed. */
  predicate Live(c: Conn) {
    forall k :: 0 <= k < |c.chunks| ==> c.chunks[k] != []
  }

  function Refill(c: Conn): (r: Conn)
    requires Live(c) && c.chunks != []
    ensures Live(r) && Stream(r) == Stream(c)
  {
    FlattenCons(c.chunks);
    Conn(c.buf + c.chunks[0], c.chunks[1..])
  }

  /** A terminator found in what has arrived is the first one of the whole stream. */
  lemma {:induction false} FindInPrefix(s: Octets, more: Octets)
    requires FindCrlf(s).Some?
    ensures FindCrlf(s + more) == FindCrlf(s)
  {
    if !(s[0] == CR && s[1] == LF) {
      assert (s + more)[1..] == s[1..] + more;
      FindInPrefix(s[1..], more);
    }
  }

  /** The bytes up to the first terminator of the stream, which is consumed too. */
  function LineOf(c: Conn): (r: Read<Octets>)
    requires Live(c)
    ensures Live(r.conn)
    ensures match FindCrlf(Stream(c))
      case Some(i) => r.result == Ok(Stream(c)[..i]) && Stream(r.conn) == Stream(c)[i + 2..]
      case None => r.result == Err(Closed)
    decreases |c.chunks|
  {
    match FindCrlf(c.buf)
    case Some(i) =>
      FindInPrefix(c.buf, Flatten(c.chunks));
      assert Stream(c)[..i] == c.buf[..i] && Stream(c)[i + 2..] == c.buf[i + 2..] + Flatten(c.chunks);
      Read(Ok(c.buf[..i]), Conn(c.buf[i + 2..], c.chunks))
    case None =>
      if c.chunks == [] then
        assert Stream(c) == c.buf;
        Read(Err(Closed), c)
      else LineOf(Refill(c))
  }

  /** Exactly `n` bytes of the stream; the two after them are dropped. */
  function ExactlyOf(c: Conn, n: nat): (r: Read<Octets>)
    requires Live(c)
    ensures Live(r.conn)
    ensures if |Stream(c)| < n + 2 then r.result == Err(Closed)
      else r.result == Ok(Stream(c)[..n]) && Stream(r.conn) == Stream(c)[n + 2..]
    decreases |c.chunks|
  {
    if |c.buf| >= n + 2 then
      assert Stream(c)[..n] == c.buf[..n] && Stream(c)[n + 2..] == c.buf[n + 2..] + Flatten(c.chunks);
      Read(Ok(c.buf[..n]), Conn(c.buf[n + 2..], c.chunks))
    else if c.chunks == [] then Read(Err(Closed), c)
    else ExactlyOf(Refill(c), n)
  }

  /** A slice bound of a Python sequence of `len` elements. */
  function Bound(n: int, len: nat): (k: nat)
    ensures k <= len
  {
    if n >= 0 then (if n <= len then n else len) else if len + n >= 0 then len + n else 0
  }

  /** For a negative length the same slices count from the end of what has arrived. */
  function BackwardsOf(c: Conn, n: int): (r: Read<Octets>)
    requires Live(c) && n < -1
    ensures Live(r.conn) && Stream(r.conn) == Stream(c)[Bound(n + 2, |c.buf|)..]
  {
    var k := Bound(n + 2, |c.buf|);
    assert Stream(c)[k..] == c.buf[k..] + Flatten(c.chunks);
    Read(Ok(c.buf[..Bound(n, |c.buf|)]), Conn(c.buf[k..], c.chunks))
  }

  function BulkOf(c: Conn, n: int): (r: Read<Value>)
    requires Live(c) && n != -1
    ensures Live(r.conn) && (r.result.Ok? ==> |Stream(r.conn)| <= |Stream(c)|)
  {
    var data := if n < 0 then BackwardsOf(c, n) else ExactlyOf(c, n);
    match data.result
    case Ok(bytes) => Read(Ok(Bytes(bytes)), data.conn)
    case Err(e) => Read(Err(e), data.conn)
  }

  /** One reply. */
  function ReplyOf(c: Conn): (r: Read<Value>)
    requires Live(c)
    ensures Live(r.conn) && (r.result.Ok? ==> |Stream(r.conn)| < |Stream(c)|)
    decreases |Stream(c)|, 0
  {
    var line := LineOf(c);
    match line.result
    case Err(e) => Read(Err(e), line.conn)
    case Ok(text) => TypedOf(Stream(c), text, line.conn)
  }

  function TypedOf(ghost stream: Octets, line: Octets, c: Conn): (r: Read<Value>)
    requires Live(c) && |Stream(c)| < |stream|
    ensures Live(r.conn) && (r.result.Ok? ==> |Stream(r.conn)| < |stream|)
    decreases |stream|, 0, 0
  {
    if line == [] then Read(Err(Unexpected(line)), c)
    else
      var text := line[1..];
      if line[0] == '+' as int then Read(Ok(Text(text)), c)
      else if line[0] == '-' as int then Read(Err(RedisError(text)), c)
      else if line[0] !in {':' as int, '$' as int, '*' as int} then Read(Err(Unexpected(line)), c)
      else match ParseInt(text)
        case None => Read(Err(BadNumber), c)
        case Some(n) =>
          if line[0] == ':' as int then Read(Ok(Int(n)), c)
          else if n == -1 then Read(Ok(Nothing), c)
          else if line[0] == '$' as int then BulkOf(c, n)
          else
            var items := RepliesOf(c, if n < 0 then 0 else n);
            match items.result
            case Ok(vs) => Read(Ok(List(vs)), items.conn)
            case Err(e) => Read(Err(e), items.conn)
  }

  /** `n` replies in a row, stopping at the first error. */
  function RepliesOf(c: Conn, n: nat): (r: Read<seq<Value>>)
    requires Live(c)
    ensures Live(r.conn) && (r.result.Ok? ==> |Stream(r.conn)| <= |Stream(c)|)
    decreases |Stream(c)|, 1
  {
    if n == 0 then Read(Ok([]), c)
    else
      var first := ReplyOf(c);
      match first.result
      case Err(e) => Read(Err(e), first.conn)
      case Ok(v) => Prepended([v], RepliesOf(first.conn, n - 1))
  }

  function Prepended(items: seq<Value>, r: Read<seq<Value>>): Read<seq<Value>> {
    match r.result
    case Ok(vs) => Read(Ok(items + vs), r.conn)
    case Err(e) => r
  }

  // ---- the cut does not matter, but for negative lengths ----

  /** What is read is what the decoder finds at the front of the stream, and leaves the bytes after it. */
  ghost predicate Agrees<T>(p: Parsed<T>, r: Read<T>) {
    match p
    case Got(v, rest) => r.result == Ok(v) && Stream(r.conn) == rest
    case Failed(e) => r.result == Err(e)
    case Unsettled => true
  }

  lemma {:induction false} ReplyAgrees(c: Conn)
    requires Live(c)
    ensures Agrees(Parse(Stream(c)), ReplyOf(c))
    decreases |Stream(c)|, 0
  {
    var line := LineOf(c);
    if line.result.Ok? {
      TypedAgrees(Stream(c), line.result.value, line.conn);
    }
  }

  lemma {:induction false} TypedAgrees(stream: Octets, line: Octets, c: Conn)
    requires Live(c) && |Stream(c)| < |stream|
    ensures Agrees(ParseLine(stream, line, Stream(c)), TypedOf(stream, line, c))
    decreases |stream|, 0, 0
  {
    if line != [] && line[0] == '*' as int {
      match ParseInt(line[1..])
      case Some(n) => RepliesAgree(c, if n < 0 then 0 else n);
      case None =>
    }
  }

  lemma {:induction false} RepliesAgree(c: Conn, n: nat)
    requires Live(c)
    ensures Agrees(ParseMany(Stream(c), n), RepliesOf(c, n))
    decreases |Stream(c)|, 1
  {
    if n > 0 {
      ReplyAgrees(c);
      var first := ReplyOf(c);
      if first.result.Ok? {
        RepliesAgree(first.conn, n - 1);
      }
    }
  }

  // ---- negative lengths ----

  /** The reply to a bulk length below -1: its value and its rest depend on how many bytes came with the header. */
  lemma NegativeBulk(c: Conn, n: int, rest: Octets)
    requires Live(c) && n < -1 && Stream(c) == Frame('$', Decimal(n)) + rest
    ensures var h := |LineOf(c).conn.buf|;
      && h <= |rest|
      && ReplyOf(c).result == Ok(Bytes(rest[..Bound(n, h)]))
      && Stream(ReplyOf(c).conn) == rest[Bound(n + 2, h)..]
  {
    HeaderLine('$', n, rest);
    var after := LineOf(c).conn;
    assert LineOf(c).result == Ok(['$' as int] + Decimal(n));
    assert Stream(after) == rest;
    NegativeLine(Stream(c), n, after);
    assert after.buf[..Bound(n, |after.buf|)] == rest[..Bound(n, |after.buf|)];
  }

  lemma NegativeLine(stream: Octets, n: int, after: Conn)
    requires Live(after) && |Stream(after)| < |stream| && n < -1
    ensures var r := TypedOf(stream, ['$' as int] + Decimal(n), after); var h := |after.buf|;
      r.result == Ok(Bytes(after.buf[..Bound(n, h)])) && Stream(r.conn) == Stream(after)[Bound(n + 2, h)..]
  {
    DecimalRoundTrip(n);
    assert (['$' as int] + Decimal(n))[1..] == Decimal(n);
  }

  lemma HeaderLine(tag: char, n: int, rest: Octets)
    requires tag as int != CR
    ensures FindCrlf(Frame(tag, Decimal(n)) + rest) == Some(1 + |Decimal(n)|)
    ensures var s := Frame(tag, Decimal(n)) + rest; var i := 1 + |Decimal(n)|;
      s[..i] == [tag as int] + Decimal(n) && s[i + 2..] == rest
  {
    var line, s := [tag as int] + Decimal(n), Frame(tag, Decimal(n)) + rest;
    DecimalOneLine(n);
    assert CR !in line;
    NoCrNoCrlf(line);
    FirstCrlf(line, rest);
    assert s == line + CRLF + rest;
  }

  /** The header and `h` bytes in one chunk, the others in the next. */
  function CutAfter(header: Octets, rest: Octets, h: nat): (c: Conn)
    requires h <= |rest| && header != []
    ensures Live(c) && Stream(c) == header + rest
  {
    var first := header + rest[..h];
    FlattenOne(first);
    if h == |rest| then Conn([], [first])
    else
      FlattenCons([first, rest[h..]]);
      FlattenOne(rest[h..]);
      assert first + rest[h..] == header + rest;
      Conn([], [first, rest[h..]])
  }

  lemma FlattenOne(chunk: Octets)
    ensures Flatten([chunk]) == chunk
  {
    assert [chunk][..0] == [];
  }

  lemma CutArrives(n: int, rest: Octets, h: nat)
    requires h <= |rest|
    ensures |LineOf(CutAfter(Frame('$', Decimal(n)), rest, h)).conn.buf| == h
  {
    var header := Frame('$', Decimal(n));
    var c := CutAfter(header, rest, h);
    var c' := Refill(c);
    assert c'.buf == header + rest[..h];
    HeaderLine('$', n, rest[..h]);
    assert LineOf(c) == LineOf(c');
  }

  ghost predicate Cut(c: Conn, n: int, rest: Octets) {
    Live(c) && Stream(c) == Frame('$', Decimal(n)) + rest
  }

  /** However it is cut, the value is the same. */
  ghost predicate SameValue(n: int, rest: Octets) {
    forall c1, c2 :: Cut(c1, n, rest) && Cut(c2, n, rest) ==> ReplyOf(c1).result == ReplyOf(c2).result
  }

  /** However it is cut, the bytes left are the same. */
  ghost predicate SameRest(n: int, rest: Octets) {
    forall c1, c2 :: Cut(c1, n, rest) && Cut(c2, n, rest) ==> Stream(ReplyOf(c1).conn) == Stream(ReplyOf(c2).conn)
  }

  /** The value depends on the cut exactly when more bytes follow than the negative length counts back. */
  lemma ValueDependsOnCut(n: int, rest: Octets)
    requires n < -1
    ensures SameValue(n, rest) <==> |rest| <= -n
  {
    if |rest| <= -n {
      forall c1, c2 | Cut(c1, n, rest) && Cut(c2, n, rest) ensures ReplyOf(c1).result == ReplyOf(c2).result {
        NegativeBulk(c1, n, rest);
        NegativeBulk(c2, n, rest);
      }
    } else {
      var none, all := TwoCuts(n, rest);
      assert ReplyOf(none).result.value.data == [];
      assert |ReplyOf(all).result.value.data| == |rest| + n;
    }
  }

  /** The bytes left depend on the cut exactly when the length is below -2 and enough bytes follow to drop some. */
  lemma RestDependsOnCut(n: int, rest: Octets)
    requires n < -1
    ensures SameRest(n, rest) <==> n == -2 || |rest| <= -n - 2
  {
    if n == -2 || |rest| <= -n - 2 {
      forall c1, c2 | Cut(c1, n, rest) && Cut(c2, n, rest) ensures Stream(ReplyOf(c1).conn) == Stream(ReplyOf(c2).conn) {
        NegativeBulk(c1, n, rest);
        NegativeBulk(c2, n, rest);
      }
    } else {
      var none, all := TwoCuts(n, rest);
      assert |Stream(ReplyOf(none).conn)| == |rest|;
      assert |Stream(ReplyOf(all).conn)| == -n - 2;
    }
  }

  /** The header alone, or with everything after it. */
  lemma TwoCuts(n: int, rest: Octets) returns (none: Conn, all: Conn)
    requires n < -1
    ensures Cut(none, n, rest) && Cut(all, n, rest)
    ensures ReplyOf(none).result == Ok(Bytes([])) && Stream(ReplyOf(none).conn) == rest
    ensures ReplyOf(all).result == Ok(Bytes(rest[..Bound(n, |rest|)]))
    ensures Stream(ReplyOf(all).conn) == rest[Bound(n + 2, |rest|)..]
  {
    var header := Frame('$', Decimal(n));
    none, all := CutAfter(header, rest, 0), CutAfter(header, rest, |rest|);
    CutArrives(n, rest, 0);
    CutArrives(n, rest, |rest|);
    NegativeBulk(none, n, rest);
    NegativeBulk(all, n, rest);
    assert rest[0..] == rest;
  }

  /** For instance `$-2` before three bytes: nothing when they come later, the first of them when they come along. */
  lemma MinusTwo(a: int, b: int, c: int) returns (none: Conn, all: Conn)
    ensures Cut(none, -2, [a, b, c]) && Cut(all, -2, [a, b, c])
    ensures ReplyOf(none).result == Ok(Bytes([])) && ReplyOf(all).result == Ok(Bytes([a]))
  {
    none, all := TwoCuts(-2, [a, b, c]);
    assert [a, b, c][..1] == [a];
  }
}
