/** The Redis client: a buffer refilled from the socket, consumed reply by reply. */
module RedisClient {
  import opened Wrappers
  import opened Resp
  import opened Connection

  class Client {
    var buf: Octets
    var socket: seq<Octets>    // the chunks still to be received, then the connection closes
    var sent: Octets

    constructor (chunks: seq<Octets>)
      ensures buf == [] && socket == chunks && sent == []
    {
      buf, socket, sent := [], chunks, [];
    }

    /** The client as a value. */
    ghost function Now(): Conn
      reads this
    {
      Conn(buf, socket)
    }

    ghost predicate Valid()
      reads this
    {
      Live(Now())
    }

    /** Receives the next chunk into the buffer, or reports that the connection is closed. */
    method Fill() returns (ok: bool)
      requires Valid()
      modifies this`buf, this`socket
      ensures ok == (old(socket) != [])
      ensures if ok then Now() == Refill(old(Now())) else Now() == old(Now())
    {
      if socket == [] {
        return false;
      }
      var chunk := socket[0];
      buf, socket := buf + chunk, socket[1..];
      return true;
    }

    /** The bytes up to the first terminator of the stream, which is consumed too. */
    method Line() returns (line: Result<Octets, Error>)
      requires Valid()
      modifies this`buf, this`socket
      ensures Valid() && Read(line, Now()) == LineOf(old(Now()))
      ensures match FindCrlf(old(Stream(Now())))
        case Some(i) => line == Ok(old(Stream(Now()))[..i]) && Stream(Now()) == old(Stream(Now()))[i + 2..]
        case None => line == Err(Closed)
    {
      while FindCrlf(buf).None?
        invariant Valid() && LineOf(Now()) == LineOf(old(Now()))
        decreases |socket|
      {
        var ok := Fill();
        if !ok {
          return Err(Closed);
        }
      }
      var i := FindCrlf(buf).value;
      line := Ok(buf[..i]);
      buf := buf[i + 2..];
    }

    /** Exactly `n` bytes of the stream; the two after them, the terminator, are dropped. */
    method Exactly(n: nat) returns (data: Result<Octets, Error>)
      requires Valid()
      modifies this`buf, this`socket
      ensures Valid() && Read(data, Now()) == ExactlyOf(old(Now()), n)
      ensures if old(|Stream(Now())|) < n + 2 then data == Err(Closed)
        else data == Ok(old(Stream(Now()))[..n]) && Stream(Now()) == old(Stream(Now()))[n + 2..]
    {
      while |buf| < n + 2
        invariant Valid() && ExactlyOf(Now(), n) == ExactlyOf(old(Now()), n)
        decreases |socket|
      {
        var ok := Fill();
        if !ok {
          return Err(Closed);
        }
      }
      data := Ok(buf[..n]);
      buf := buf[n + 2..];
    }

    /** What the same slices yield for a length below -1: they count from the end of the buffer. */
    method Backwards(n: int) returns (data: Octets)
      requires Valid() && n < -1
      modifies this`buf
      ensures Valid() && data == old(buf)[..Bound(n, old(|buf|))] && buf == old(buf)[Bound(n + 2, old(|buf|))..]
    {
      data := buf[..Bound(n, |buf|)];
      buf := buf[Bound(n + 2, |buf|)..];
    }

    /**
     One reply. Whatever the chunks, it is what the decoder finds at the front of the
     whole stream, and exactly the bytes that follow it are left. Where the decoder is
     undecided, it is what the chunks make of it.
     */
    method Reply() returns (r: Result<Value, Error>)
      requires Valid()
      modifies this`buf, this`socket
      ensures Valid() && Read(r, Now()) == ReplyOf(old(Now()))
      ensures Agrees(Parse(old(Stream(Now()))), Read(r, Now()))
      decreases |Stream(Now())|, 0
    {
      ReplyAgrees(Now());
      var first := Line();
      if first.Err? {
        return Err(first.error);
      }
      var line := first.value;
      if line == [] {
        return Err(Unexpected(line));
      }
      var t, text := line[0], line[1..];
      if t == '+' as int {
        return Ok(Text(text));
      }
      if t == '-' as int {
        return Err(RedisError(text));
      }
      if t !in {':' as int, '$' as int, '*' as int} {
        return Err(Unexpected(line));
      }
      var number := ParseInt(text);
      if number.None? {
        return Err(BadNumber);
      }
      var n := number.value;
      if t == ':' as int {
        return Ok(Int(n));
      }
      if n == -1 {
        return Ok(Nothing);
      }
      if t == '$' as int {
        if n < -1 {
          var data := Backwards(n);
          return Ok(Bytes(data));
        }
        var data := Exactly(n);
        return if data.Ok? then Ok(Bytes(data.value)) else Err(data.error);
      }
      var items := Replies(if n < 0 then 0 else n);
      return if items.Ok? then Ok(List(items.value)) else Err(items.error);
    }

    /** `n` replies in a row, stopping at the first error. */
    method Replies(n: nat) returns (r: Result<seq<Value>, Error>)
      requires Valid()
      modifies this`buf, this`socket
      ensures Valid() && Read(r, Now()) == RepliesOf(old(Now()), n)
      ensures Agrees(ParseMany(old(Stream(Now())), n), Read(r, Now()))
      decreases |Stream(Now())|, 1
    {
      RepliesAgree(Now(), n);
      ghost var all := RepliesOf(Now(), n);
      var items: seq<Value> := [];
      PrependedNone(all);
      for i := 0 to n
        invariant Valid() && |Stream(Now())| <= old(|Stream(Now())|)
        invariant all == Prepended(items, RepliesOf(Now(), n - i))
      {
        PrependedTwice(items, Now(), n - i);
        var item := Reply();
        if item.Err? {
          return Err(item.error);
        }
        items := items + [item.value];
      }
      PrependedLast(items, Now());
      return Ok(items);
    }

    /** Sends a command and reads its reply. */
    method Cmd(args: seq<Octets>) returns (r: Result<Value, Error>)
      requires Valid()
      modifies this
      ensures Valid() && sent == old(sent) + Encode(Command(args))
      ensures Read(r, Now()) == ReplyOf(old(Now()))
      ensures Agrees(Parse(old(Stream(Now()))), Read(r, Now()))
    {
      var parts := Frame('*', Decimal(|args|));
      ghost var bulks := Command(args).items;
      assert bulks[0..] == bulks;
      for i := 0 to |args|
        invariant Encode(Command(args)) == parts + EncodeAll(bulks[i..])
        invariant Valid() && sent == old(sent) && Now() == old(Now())
      {
        BulkNext(parts, bulks, i);
        parts := parts + (Frame('$', Decimal(|args[i]|)) + args[i] + CRLF);
      }
      assert bulks[|args|..] == [] && parts + [] == parts;
      sent := sent + parts;
      r := Reply();
    }

    /** For every encoded reply and every way the socket cuts it. */
    method ReplyToEncoded(ghost reply: Resp.Reply, ghost rest: Octets) returns (r: Result<Value, Error>)
      requires Valid() && Encodable(reply) && Stream(Now()) == Encode(reply) + rest
      modifies this`buf, this`socket
      ensures r == Ok(Meaning(reply)) && Stream(Now()) == rest
    {
      ParseEncode(reply, rest);
      r := Reply();
    }
  }

  lemma PrependedNone(r: Read<seq<Value>>)
    ensures Prepended([], r) == r
  {
    if r.result.Ok? {
      assert [] + r.result.value == r.result.value;
    }
  }

  lemma PrependedLast(items: seq<Value>, c: Conn)
    requires Live(c)
    ensures Prepended(items, RepliesOf(c, 0)) == Read(Ok(items), c)
  {
    assert items + [] == items;
  }

  lemma BulkNext(parts: Octets, bulks: seq<Resp.Reply>, i: nat)
    requires i < |bulks|
    ensures parts + EncodeAll(bulks[i..]) == (parts + Encode(bulks[i])) + EncodeAll(bulks[i + 1..])
  {
    assert bulks[i..][0] == bulks[i] && bulks[i..][1..] == bulks[i + 1..];
    assert parts + (Encode(bulks[i]) + EncodeAll(bulks[i + 1..])) == (parts + Encode(bulks[i])) + EncodeAll(bulks[i + 1..]);
  }

  /** One more reply moves from the rest to those read. */
  lemma PrependedTwice(items: seq<Value>, c: Conn, n: nat)
    requires Live(c) && n > 0
    ensures var first := ReplyOf(c);
      match first.result
      case Ok(v) => Prepended(items, RepliesOf(c, n)) == Prepended(items + [v], RepliesOf(first.conn, n - 1))
      case Err(e) => Prepended(items, RepliesOf(c, n)) == Read(Err(e), first.conn)
  {
    var first := ReplyOf(c);
    if first.result.Ok? {
      var rest := RepliesOf(first.conn, n - 1);
      if rest.result.Ok? {
        assert items + ([first.result.value] + rest.result.value) == (items + [first.result.value]) + rest.result.value;
      }
    }
  }
}
