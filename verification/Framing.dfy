/** Line framing over a stream that arrives in arbitrary pieces. */
module Framing {
  import opened Wrappers
  import opened Lines

  // ---- provider lines, bounded ----

  type Octets = seq<int>

  const LF := 10
  const CR := 13

  function StripCr(s: Octets): Octets {
    if s != [] && Last(s) == CR then StripCr(s[..|s| - 1]) else s
  }

  /** What is yielded for complete lines. */
  function Decoded(decode: Octets -> string, pieces: seq<Octets>): seq<string> {
    seq(|pieces|, k requires 0 <= k < |pieces| => decode(StripCr(pieces[k])))
  }

  /** The complete lines of what has been received. */
  function CompleteLines(decode: Octets -> string, text: Octets): seq<string> {
    Decoded(decode, Complete(text, LF))
  }

  /** All the lines of a whole body; what follows the last newline counts when there is something. */
  function WholeLines(decode: Octets -> string, text: Octets): seq<string> {
    CompleteLines(decode, text) + if Tail(text, LF) == [] then [] else [decode(Tail(text, LF))]
  }

  /** Carriage returns in front of the newline are no part of a line, however many. */
  lemma {:induction false} CrsStripped(line: Octets, crs: Octets)
    requires forall k :: 0 <= k < |crs| ==> crs[k] == CR
    requires line != [] ==> Last(line) != CR
    ensures StripCr(line + crs) == line
  {
    if crs == [] {
      assert line + crs == line;
    } else {
      var n := |crs| - 1;
      assert (line + crs)[..|line| + n] == line + crs[..n];
      CrsStripped(line, crs[..n]);
    }
  }

  /** The lines, each with its carriage returns and a newline. */
  function Terminated(lines: seq<Octets>, crs: seq<Octets>): Octets
    requires |lines| == |crs|
  {
    if lines == [] then []
    else Terminated(lines[..|lines| - 1], crs[..|crs| - 1]) + (Last(lines) + Last(crs) + [LF])
  }

  predicate Clean(line: Octets) {
    LF !in line && (line != [] ==> Last(line) != CR)
  }

  predicate AllCr(crs: Octets) {
    forall k :: 0 <= k < |crs| ==> crs[k] == CR
  }

  function Texts(decode: Octets -> string, lines: seq<Octets>): seq<string> {
    seq(|lines|, k requires 0 <= k < |lines| => decode(lines[k]))
  }

  /** One line more at the end of a body that ends in a newline. */
  lemma LineMore(decode: Octets -> string, body: Octets, line: Octets, crs: Octets)
    requires Tail(body, LF) == [] && Clean(line) && AllCr(crs)
    ensures var more := body + (line + crs + [LF]);
      Tail(more, LF) == [] && CompleteLines(decode, more) == CompleteLines(decode, body) + [decode(line)]
  {
    var end := line + crs;
    assert LF !in end;
    Feed(body, end + [LF], LF);
    assert [] + (end + [LF]) == end + [LF];
    OneLine(end);
    CrsStripped(line, crs);
  }

  lemma OneLine(line: Octets)
    requires LF !in line
    ensures Complete(line + [LF], LF) == [line] && Tail(line + [LF], LF) == []
  {
    PiecesLine(line, [], LF);
    assert line + [LF] + [] == line + [LF];
  }

  /** Whatever line ends a body is written with, its lines are read as they were written. */
  lemma {:induction false} TerminatedLines(decode: Octets -> string, lines: seq<Octets>, crs: seq<Octets>)
    requires |lines| == |crs|
    requires forall k :: 0 <= k < |lines| ==> Clean(lines[k]) && AllCr(crs[k])
    ensures WholeLines(decode, Terminated(lines, crs)) == Texts(decode, lines)
    ensures Tail(Terminated(lines, crs), LF) == []
  {
    if lines != [] {
      var n := |lines| - 1;
      TerminatedLines(decode, lines[..n], crs[..n]);
      LineMore(decode, Terminated(lines[..n], crs[..n]), lines[n], crs[n]);
      assert Texts(decode, lines) == Texts(decode, lines[..n]) + [decode(lines[n])];
    }
  }

  /** A partial line longer than the limit is left after the first `i` chunks. */
  predicate TooLong(chunks: seq<Octets>, limit: nat, i: nat)
    requires i <= |chunks|
  {
    |Tail(Flatten(chunks[..i]), LF)| > limit
  }

  /** The complete lines of `buf`, in order, and what is left of it. */
  method TakeLines(buf: Octets, decode: Octets -> string) returns (lines: seq<string>, rest: Octets)
    ensures lines == CompleteLines(decode, buf) && rest == Tail(buf, LF)
  {
    lines, rest := [], buf;
    ghost var taken: seq<Octets> := [];
    while LF in rest
      invariant Pieces(buf, LF) == taken + Pieces(rest, LF)
      invariant lines == Decoded(decode, taken)
      decreases |rest|
    {
      var nl := IndexOf(rest, LF);
      var line, after := rest[..nl], rest[nl + 1..];
      assert rest == line + [LF] + after;
      PiecesLine(line, after, LF);
      taken := taken + [line];
      lines := lines + [decode(StripCr(line))];
      rest := after;
    }
    PiecesWhole(rest, LF);
    assert Pieces(buf, LF) == taken + [rest];
  }

  function IndexOf<T(==)>(s: seq<T>, x: T): (i: nat)
    requires x in s
    ensures i < |s| && s[i] == x && x !in s[..i]
  {
    if s[0] == x then 0 else 1 + IndexOf(s[1..], x)
  }

  /**
   Refuses the stream exactly when some read leaves a partial line over the limit;
   otherwise yields the lines of the whole body, however it was cut.
   */
  method BoundedLines(chunks: seq<Octets>, limit: nat, decode: Octets -> string) returns (lines: seq<string>, ok: bool)
    ensures ok <==> forall i :: 0 < i <= |chunks| ==> !TooLong(chunks, limit, i)
    ensures ok ==> lines == WholeLines(decode, Flatten(chunks))
    ensures !ok ==> exists i: nat :: FirstTooLong(chunks, limit, i) && lines == CompleteLines(decode, Flatten(chunks[..i]))
  {
    lines := [];
    var buf: Octets := [];
    for i := 0 to |chunks|
      invariant lines == CompleteLines(decode, Flatten(chunks[..i])) && buf == Tail(Flatten(chunks[..i]), LF)
      invariant forall j :: 0 < j <= i ==> !TooLong(chunks, limit, j)
    {
      var more, rest := TakeLines(buf + chunks[i], decode);
      LinesStep(decode, chunks, i);
      lines, buf := lines + more, rest;
      if |buf| > limit {
        assert FirstTooLong(chunks, limit, i + 1);
        return lines, false;
      }
    }
    assert chunks[..|chunks|] == chunks;
    if buf != [] {
      lines := lines + [decode(buf)];
    }
    ok := true;
  }

  ghost predicate FirstTooLong(chunks: seq<Octets>, limit: nat, i: nat) {
    0 < i <= |chunks| && TooLong(chunks, limit, i) && forall j :: 0 < j < i ==> !TooLong(chunks, limit, j)
  }

  lemma LinesStep(decode: Octets -> string, chunks: seq<Octets>, i: nat)
    requires i < |chunks|
    ensures var seen, now := Flatten(chunks[..i]), Flatten(chunks[..i + 1]);
      && CompleteLines(decode, now) == CompleteLines(decode, seen) + CompleteLines(decode, Tail(seen, LF) + chunks[i])
      && Tail(now, LF) == Tail(Tail(seen, LF) + chunks[i], LF)
  {
    FlattenStep(chunks, i);
    Feed(Flatten(chunks[..i]), chunks[i], LF);
  }

  /** No read of these chunks leaves too long a partial line. */
  ghost predicate Passes(chunks: seq<Octets>, limit: nat) {
    forall i :: 0 < i <= |chunks| ==> !TooLong(chunks, limit, i)
  }

  /** Every line of the body, the last one included, is within the limit. */
  ghost predicate ShortLines(body: Octets, limit: nat) {
    forall k :: 0 <= k < |Pieces(body, LF)| ==> |Pieces(body, LF)[k]| <= limit
  }

  lemma {:induction false} FlattenPrefix(chunks: seq<Octets>, i: nat)
    requires i <= |chunks|
    ensures Flatten(chunks[..i]) <= Flatten(chunks)
    decreases |chunks| - i
  {
    if i == |chunks| {
      assert chunks[..i] == chunks;
    } else {
      FlattenStep(chunks, i);
      FlattenPrefix(chunks, i + 1);
    }
  }

  /** The partial line a read leaves is the beginning of a line of the body. */
  lemma PartialLine(chunks: seq<Octets>, limit: nat, i: nat)
    requires 0 < i <= |chunks| && ShortLines(Flatten(chunks), limit)
    ensures !TooLong(chunks, limit, i)
  {
    var seen, body := Flatten(chunks[..i]), Flatten(chunks);
    FlattenPrefix(chunks, i);
    PiecesOfPrefix(seen, body, LF, |Pieces(seen, LF)| - 1);
  }

  /** Some prefix of the body ends with the whole of any of its lines. */
  lemma {:induction false} EndOfLine(body: Octets, k: nat) returns (e: nat)
    requires k < |Pieces(body, LF)|
    ensures e <= |body| && Tail(body[..e], LF) == Pieces(body, LF)[k]
  {
    if k == |Pieces(body, LF)| - 1 {
      e := |body|;
      assert body[..e] == body;
    } else {
      var init := body[..|body| - 1];
      assert Pieces(init, LF)[k] == Pieces(body, LF)[k];
      e := EndOfLine(init, k);
      assert init[..e] == body[..e];
    }
  }

  /** A read that ends just before a long line does. */
  lemma LongLineRefused(body: Octets, limit: nat, k: nat) returns (chunks: seq<Octets>)
    requires k < |Pieces(body, LF)| && |Pieces(body, LF)[k]| > limit
    ensures Flatten(chunks) == body && !Passes(chunks, limit)
  {
    var e := EndOfLine(body, k);
    chunks := [body[..e], body[e..]];
    assert chunks[..1] == [body[..e]] && [body[..e]][..0] == [];
    assert Flatten(chunks[..1]) == [] + body[..e] == body[..e];
    FlattenStep(chunks, 1);
    assert chunks[..2] == chunks;
    assert TooLong(chunks, limit, 1);
  }

  /** A body passes however it is cut exactly when no line of it is over the limit. */
  lemma EveryCutPasses(body: Octets, limit: nat)
    ensures (forall chunks :: Flatten(chunks) == body ==> Passes(chunks, limit)) <==> ShortLines(body, limit)
  {
    if ShortLines(body, limit) {
      forall chunks: seq<Octets> | Flatten(chunks) == body ensures Passes(chunks, limit) {
        forall i | 0 < i <= |chunks| ensures !TooLong(chunks, limit, i) {
          PartialLine(chunks, limit, i);
        }
      }
    } else {
      var k :| 0 <= k < |Pieces(body, LF)| && |Pieces(body, LF)[k]| > limit;
      var chunks := LongLineRefused(body, limit, k);
    }
  }

  /** In one read, lines of any length pass, as long as what follows the last newline is within the limit. */
  lemma OneReadPasses(body: Octets, limit: nat)
    requires |Tail(body, LF)| <= limit
    ensures Flatten([body]) == body && Passes([body], limit)
  {
    assert [body][..1] == [body] && [body][..0] == [];
    assert Flatten([body]) == [] + body == body;
  }

  /**
   So whether a body is refused depends on the cut exactly when one of its lines is over the
   limit and it ends within the limit: read at once it passes, and cut before the end of that line it does not.
   */
  lemma RefusalDependsOnCut(body: Octets, limit: nat)
    ensures (exists chunks :: Flatten(chunks) == body && Passes(chunks, limit)) <==> |Tail(body, LF)| <= limit
    ensures (exists chunks :: Flatten(chunks) == body && !Passes(chunks, limit)) <==> !ShortLines(body, limit)
  {
    EveryCutPasses(body, limit);
    if |Tail(body, LF)| <= limit {
      OneReadPasses(body, limit);
    }
    forall chunks: seq<Octets> | Flatten(chunks) == body && Passes(chunks, limit) ensures |Tail(body, LF)| <= limit {
      assert chunks[..|chunks|] == chunks;
      assert |chunks| > 0 ==> !TooLong(chunks, limit, |chunks|);
    }
  }

  // ---- the chat stream: one JSON event a line ----

  const NL := '\n'

  /** The events of the lines, in order, up to the first that does not parse; blank lines are skipped. */
  function Events<E>(blank: string -> bool, parse: string -> Option<E>, lines: seq<string>): (seq<E>, bool) {
    if lines == [] then ([], true)
    else After(blank, parse, Events(blank, parse, lines[..|lines| - 1]), Last(lines))
  }

  /** One more line. */
  function After<E>(blank: string -> bool, parse: string -> Option<E>, r: (seq<E>, bool), line: string): (seq<E>, bool) {
    if !r.1 || blank(line) then r
    else match parse(line)
      case Some(e) => (r.0 + [e], true)
      case None => (r.0, false)
  }

  function Joined<E>(a: (seq<E>, bool), b: (seq<E>, bool)): (seq<E>, bool) {
    if a.1 then (a.0 + b.0, b.1) else a
  }

  lemma {:induction false} EventsConcat<E>(blank: string -> bool, parse: string -> Option<E>, a: seq<string>, b: seq<string>)
    ensures Events(blank, parse, a + b) == Joined(Events(blank, parse, a), Events(blank, parse, b))
  {
    if b == [] {
      assert a + b == a;
      assert Events(blank, parse, a).0 + [] == Events(blank, parse, a).0;
    } else {
      var n := |b| - 1;
      assert (a + b)[..|a| + n] == a + b[..n] && Last(a + b) == Last(b);
      EventsConcat(blank, parse, a, b[..n]);
      var ea, eb := Events(blank, parse, a), Events(blank, parse, b[..n]);
      AfterJoined(blank, parse, ea, eb, Last(b));
    }
  }

  lemma AfterJoined<E>(blank: string -> bool, parse: string -> Option<E>, a: (seq<E>, bool), b: (seq<E>, bool), line: string)
    ensures After(blank, parse, Joined(a, b), line) == Joined(a, After(blank, parse, b, line))
  {
    if a.1 && b.1 && !blank(line) && parse(line).Some? {
      assert a.0 + (b.0 + [parse(line).value]) == (a.0 + b.0) + [parse(line).value];
    }
  }

  /** Calls back for each line in turn; false when one does not parse. */
  method Deliver<E>(blank: string -> bool, parse: string -> Option<E>, lines: seq<string>) returns (events: seq<E>, ok: bool)
    ensures (events, ok) == Events(blank, parse, lines)
  {
    events, ok := [], true;
    for k := 0 to |lines|
      invariant ok && (events, ok) == Events(blank, parse, lines[..k])
    {
      assert lines[..k + 1][..k] == lines[..k];
      if !blank(lines[k]) {
        var e := parse(lines[k]);
        if e.None? {
          ok := false;
          EventsConcat(blank, parse, lines[..k + 1], lines[k + 1..]);
          assert lines == lines[..k + 1] + lines[k + 1..];
          return;
        }
        events := events + [e.value];
      }
    }
    assert lines[..|lines|] == lines;
  }

  /** Delivers the events of the whole text, once each and in order, however it was cut. */
  method StreamNdjson<E>(blank: string -> bool, parse: string -> Option<E>, chunks: seq<string>)
    returns (events: seq<E>, ok: bool)
    ensures (events, ok) == Events(blank, parse, Pieces(Flatten(chunks), NL))
  {
    events, ok := [], true;
    var buffer := "";
    for i := 0 to |chunks|
      invariant ok && buffer == Tail(Flatten(chunks[..i]), NL)
      invariant (events, ok) == Events(blank, parse, Complete(Flatten(chunks[..i]), NL))
    {
      EventsStep(blank, parse, chunks, i);
      var lines := Pieces(buffer + chunks[i], NL);
      buffer, lines := Last(lines), lines[..|lines| - 1];
      var more, fine := Deliver(blank, parse, lines);
      events := events + more;
      if !fine {
        ok := false;
        RestIgnored(blank, parse, chunks, i + 1);
        return;
      }
    }
    assert chunks[..|chunks|] == chunks;
    assert Pieces(Flatten(chunks), NL) == Complete(Flatten(chunks), NL) + [buffer];
    if !blank(buffer) {
      var e := parse(buffer);
      if e.None? {
        ok := false;
        return;
      }
      events := events + [e.value];
    }
  }

  lemma EventsStep<E>(blank: string -> bool, parse: string -> Option<E>, chunks: seq<string>, i: nat)
    requires i < |chunks|
    ensures var seen, now := Flatten(chunks[..i]), Flatten(chunks[..i + 1]);
      && Events(blank, parse, Complete(now, NL)) ==
           Joined(Events(blank, parse, Complete(seen, NL)), Events(blank, parse, Complete(Tail(seen, NL) + chunks[i], NL)))
      && Tail(now, NL) == Tail(Tail(seen, NL) + chunks[i], NL)
  {
    var seen := Flatten(chunks[..i]);
    FlattenStep(chunks, i);
    Feed(seen, chunks[i], NL);
    EventsConcat(blank, parse, Complete(seen, NL), Complete(Tail(seen, NL) + chunks[i], NL));
  }

  /** Once a complete line has failed to parse, later chunks change nothing. */
  lemma {:induction false} RestIgnored<E>(blank: string -> bool, parse: string -> Option<E>, chunks: seq<string>, i: nat)
    requires i <= |chunks| && !Events(blank, parse, Complete(Flatten(chunks[..i]), NL)).1
    ensures Events(blank, parse, Pieces(Flatten(chunks), NL)) == Events(blank, parse, Complete(Flatten(chunks[..i]), NL))
    decreases |chunks| - i
  {
    if i == |chunks| {
      assert chunks[..i] == chunks;
      var p := Pieces(Flatten(chunks), NL);
      EventsConcat(blank, parse, p[..|p| - 1], [Last(p)]);
      assert p == p[..|p| - 1] + [Last(p)];
    } else {
      EventsStep(blank, parse, chunks, i);
      RestIgnored(blank, parse, chunks, i + 1);
    }
  }

  /** The lines that parse are delivered up to the first that does not, which ends the delivery. */
  lemma BadLineStops<E>(blank: string -> bool, parse: string -> Option<E>, good: seq<string>, events: seq<E>, bad: string, rest: seq<string>)
    requires |events| == |good| && forall k :: 0 <= k < |good| ==> !blank(good[k]) && parse(good[k]) == Some(events[k])
    requires !blank(bad) && parse(bad).None?
    ensures Events(blank, parse, good) == (events, true)
    ensures Events(blank, parse, good + [bad] + rest) == (events, false)
  {
    GoodLines(blank, parse, good, events);
    assert (good + [bad])[..|good|] == good;
    EventsConcat(blank, parse, good + [bad], rest);
  }

  lemma {:induction false} GoodLines<E>(blank: string -> bool, parse: string -> Option<E>, good: seq<string>, events: seq<E>)
    requires |events| == |good| && forall k :: 0 <= k < |good| ==> !blank(good[k]) && parse(good[k]) == Some(events[k])
    ensures Events(blank, parse, good) == (events, true)
  {
    if good != [] {
      var n := |good| - 1;
      GoodLines(blank, parse, good[..n], events[..n]);
      assert events == events[..n] + [events[n]];
    }
  }

  /** Blank lines make no difference, wherever they are. */
  lemma BlankSkipped<E>(blank: string -> bool, parse: string -> Option<E>, a: seq<string>, line: string, b: seq<string>)
    requires blank(line)
    ensures Events(blank, parse, a + [line] + b) == Events(blank, parse, a + b)
  {
    assert (a + [line])[..|a|] == a;
    EventsConcat(blank, parse, a + [line], b);
    EventsConcat(blank, parse, a, b);
  }

  /** What the server writes: every event printed on a line of its own. */
  function Written<E>(print_: E -> string, events: seq<E>): string {
    if events == [] then "" else print_(events[0]) + [NL] + Written(print_, events[1..])
  }

  /** Printed events hold no newline, are not blank, and parse back. */
  ghost predicate PrintsLines<E>(print_: E -> string, blank: string -> bool, parse: string -> Option<E>, events: seq<E>) {
    forall k :: 0 <= k < |events| ==>
      NL !in print_(events[k]) && !blank(print_(events[k])) && parse(print_(events[k])) == Some(events[k])
  }

  lemma {:induction false} WrittenEvents<E>(print_: E -> string, blank: string -> bool, parse: string -> Option<E>, events: seq<E>)
    requires blank("") && PrintsLines(print_, blank, parse, events)
    ensures Events(blank, parse, Pieces(Written(print_, events), NL)) == (events, true)
  {
    if events != [] {
      var line, rest := print_(events[0]), Written(print_, events[1..]);
      WrittenEvents(print_, blank, parse, events[1..]);
      PiecesLine(line, rest, NL);
      EventsConcat(blank, parse, [line], Pieces(rest, NL));
      assert [line][..0] == [];
      assert parse(line) == Some(events[0]) && !blank(line);
      assert Events(blank, parse, [line]) == After(blank, parse, Events(blank, parse, []), line);
      assert Events(blank, parse, [line]).0 == [events[0]];
      assert [events[0]] + events[1..] == events;
    }
  }

  /** From writer to reader: the same events, once each, in order, whatever the chunks. */
  method ReadWritten<E>(print_: E -> string, blank: string -> bool, parse: string -> Option<E>,
                        ghost written: seq<E>, chunks: seq<string>) returns (events: seq<E>, ok: bool)
    requires blank("") && PrintsLines(print_, blank, parse, written)
    requires Flatten(chunks) == Written(print_, written)
    ensures ok && events == written
  {
    WrittenEvents(print_, blank, parse, written);
    events, ok := StreamNdjson(blank, parse, chunks);
  }
}
