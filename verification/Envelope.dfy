/** The private proposal envelope: hidden from the stream, and taken off the stored answer. */
module Envelope {
  import opened Wrappers
  import opened Text
  import opened Lines

  const MARKER := "<karna_proposal>"
  const CLOSING := "</karna_proposal>"

  predicate At(s: string, m: string, i: nat) {
    i + |m| <= |s| && s[i..i + |m|] == m
  }

  /** The first place `m` occurs at or after `i`, as `str.find`. */
  function FindFrom(s: string, m: string, i: nat): (r: Option<nat>)
    requires i <= |s|
    ensures r.Some? ==> i <= r.value && At(s, m, r.value) && forall k :: i <= k < r.value ==> !At(s, m, k)
    ensures r.None? ==> forall k :: i <= k ==> !At(s, m, k)
    decreases |s| - i
  {
    if i + |m| > |s| then None
    else if At(s, m, i) then Some(i)
    else FindFrom(s, m, i + 1)
  }

  function Find(s: string, m: string): (r: Option<nat>)
    ensures r.Some? ==> At(s, m, r.value) && forall k :: 0 <= k < r.value ==> !At(s, m, k)
    ensures r.None? ==> forall k: nat :: !At(s, m, k)
  {
    FindFrom(s, m, 0)
  }

  /** What the reader may see: everything before the first marker. */
  function Visible(text: string): string {
    match Find(text, MARKER)
    case Some(i) => text[..i]
    case None => text
  }

  lemma VisibleIs(text: string, i: nat)
    requires At(text, MARKER, i) && forall k :: 0 <= k < i ==> !At(text, MARKER, k)
    ensures Visible(text) == text[..i] && Find(text, MARKER) == Some(i)
  {
  }

  /** An occurrence in a suffix is one in the whole. */
  lemma AtShift(a: string, b: string, m: string, i: nat)
    ensures At(b, m, i) <==> At(a + b, m, |a| + i)
  {
    if i + |m| <= |b| {
      assert b[i..i + |m|] == (a + b)[|a| + i..|a| + i + |m|];
    }
  }

  lemma AtPrefix(a: string, b: string, m: string, i: nat)
    requires i + |m| <= |a|
    ensures At(a, m, i) <==> At(a + b, m, i)
  {
    assert a[i..i + |m|] == (a + b)[i..i + |m|];
  }

  class ProposalStreamFilter {
    var pending: string
    var hidden: bool
    ghost var fed: string      // everything given so far
    ghost var shown: string    // everything let through so far

    /** The last characters are held back, as many as could begin a marker. */
    ghost predicate Valid()
      reads this
    {
      if hidden then Find(fed, MARKER).Some? && shown == Visible(fed)
      else
        && fed == shown + pending
        && |pending| == (if |fed| < |MARKER| - 1 then |fed| else |MARKER| - 1)
        && Find(fed, MARKER).None?
    }

    constructor ()
      ensures Valid() && fed == "" && shown == ""
    {
      pending, hidden, fed, shown := "", false, "", "";
    }

    method Feed(chunk: string) returns (visible: string)
      requires Valid()
      modifies this
      ensures Valid() && fed == old(fed) + chunk && shown == old(shown) + visible
    {
      ghost var before, text := fed, fed + chunk;
      fed := text;
      if hidden {
        FirstStays(before, chunk);
        return "";
      }
      pending := pending + chunk;
      Pending(shown, old(pending), before, chunk);
      var index := Find(pending, MARKER);
      if index.Some? {
        visible := pending[..index.value];
        MarkerSeen(shown, pending, text);
        pending, hidden, shown := "", true, shown + visible;
        return;
      }
      var safe := if |pending| - |MARKER| + 1 > 0 then |pending| - |MARKER| + 1 else 0;
      visible := pending[..safe];
      NoMarkerYet(shown, pending, text, safe);
      pending, shown := pending[safe..], shown + visible;
    }

    method Finish() returns (visible: string)
      requires Valid()
      modifies this
      ensures fed == old(fed) && shown == old(shown) + visible && shown == Visible(fed)
    {
      if hidden {
        return "";
      }
      visible, pending := pending, "";
      shown := shown + visible;
    }
  }

  /** However the text is cut, what the filter lets through is the text before the first marker. */
  method FilterAll(chunks: seq<string>) returns (visible: string)
    ensures visible == Visible(Flatten(chunks))
  {
    var filter := new ProposalStreamFilter();
    visible := "";
    for i := 0 to |chunks|
      invariant filter.Valid() && fresh(filter)
      invariant filter.fed == Flatten(chunks[..i]) && filter.shown == visible
    {
      FlattenStep(chunks, i);
      var part := filter.Feed(chunks[i]);
      visible := visible + part;
    }
    assert chunks[..|chunks|] == chunks;
    var last := filter.Finish();
    visible := visible + last;
  }

  /** Once a marker has been seen, more text does not change what comes before it. */
  lemma FirstStays(text: string, more: string)
    requires Find(text, MARKER).Some?
    ensures Find(text + more, MARKER) == Find(text, MARKER) && Visible(text + more) == Visible(text)
  {
    var i := Find(text, MARKER).value;
    AtPrefix(text, more, MARKER, i);
    forall k | 0 <= k < i ensures !At(text + more, MARKER, k) {
      AtPrefix(text, more, MARKER, k);
    }
    VisibleIs(text + more, i);
    assert (text + more)[..i] == text[..i];
  }

  /** With a full tail held back, no marker can start in what was already let through. */
  lemma NothingBefore(shown: string, pending: string, before: string, chunk: string)
    requires shown + pending == before + chunk && Find(before, MARKER).None?
    requires |shown| > 0 ==> |shown| + |MARKER| - 1 <= |before|
    ensures forall k :: 0 <= k < |shown| ==> !At(shown + pending, MARKER, k)
  {
    forall k | 0 <= k < |shown| ensures !At(shown + pending, MARKER, k) {
      AtPrefix(before, chunk, MARKER, k);
    }
  }

  /** What has been let through, and what is held back with the new chunk. */
  ghost predicate Split(shown: string, pending: string, text: string) {
    && text == shown + pending
    && (forall k :: 0 <= k < |shown| ==> !At(text, MARKER, k))
    && (|pending| < |MARKER| - 1 ==> shown == "")
  }

  lemma Pending(shown: string, held: string, before: string, chunk: string)
    requires before == shown + held && Find(before, MARKER).None?
    requires |held| == if |before| < |MARKER| - 1 then |before| else |MARKER| - 1
    ensures Split(shown, held + chunk, before + chunk)
  {
    assert before + chunk == shown + (held + chunk);
    NothingBefore(shown, held + chunk, before, chunk);
  }

  /** The marker is in: what may be shown ends where it begins. */
  lemma MarkerSeen(shown: string, pending: string, text: string)
    requires Split(shown, pending, text) && Find(pending, MARKER).Some?
    ensures Find(text, MARKER).Some? && Visible(text) == shown + pending[..Find(pending, MARKER).value]
  {
    FirstShifts(shown, pending);
    assert text[..|shown| + Find(pending, MARKER).value] == shown + pending[..Find(pending, MARKER).value];
  }

  /** No marker yet: all is let through but a tail that could begin one. */
  lemma NoMarkerYet(shown: string, pending: string, text: string, safe: nat)
    requires Split(shown, pending, text) && Find(pending, MARKER).None?
    requires safe == if |pending| >= |MARKER| then |pending| - |MARKER| + 1 else 0
    ensures Find(text, MARKER).None? && text == (shown + pending[..safe]) + pending[safe..]
    ensures |pending[safe..]| == if |text| < |MARKER| - 1 then |text| else |MARKER| - 1
  {
    NoneShifts(shown, pending);
    KeptApart(shown, pending, safe);
  }

  lemma KeptApart(shown: string, pending: string, safe: nat)
    requires safe <= |pending|
    ensures shown + pending == (shown + pending[..safe]) + pending[safe..] && |pending[safe..]| == |pending| - safe
  {
    assert pending == pending[..safe] + pending[safe..];
  }

  lemma FirstShifts(shown: string, pending: string)
    requires Find(pending, MARKER).Some?
    requires forall k :: 0 <= k < |shown| ==> !At(shown + pending, MARKER, k)
    ensures Find(shown + pending, MARKER) == Some(|shown| + Find(pending, MARKER).value)
  {
    var i := Find(pending, MARKER).value;
    AtShift(shown, pending, MARKER, i);
    forall k | 0 <= k < |shown| + i ensures !At(shown + pending, MARKER, k) {
      if k >= |shown| {
        AtShift(shown, pending, MARKER, k - |shown|);
      }
    }
    VisibleIs(shown + pending, |shown| + i);
  }

  lemma NoneShifts(shown: string, pending: string)
    requires Find(pending, MARKER).None?
    requires forall k :: 0 <= k < |shown| ==> !At(shown + pending, MARKER, k)
    ensures Find(shown + pending, MARKER).None?
  {
    forall k: nat ensures !At(shown + pending, MARKER, k) {
      if k >= |shown| {
        AtShift(shown, pending, MARKER, k - |shown|);
      }
    }
  }

  // ---- the envelope at the end of a whole answer ----

  /** A marker at `m`, a closing tag at `e` after it, and nothing but white space after that. */
  predicate EnvelopeAt(text: string, m: nat, e: nat) {
    At(text, MARKER, m) && m + |MARKER| <= e && At(text, CLOSING, e) && AllSpace(text[e + |CLOSING|..])
  }

  ghost predicate HasEnvelope(text: string) {
    exists m: nat, e: nat :: EnvelopeAt(text, m, e)
  }

  /** The first closing tag from `e` on that only white space follows. */
  function ClosingFrom(text: string, m: nat, e: nat): (r: Option<nat>)
    requires m + |MARKER| <= e <= |text| && At(text, MARKER, m)
    ensures r.Some? ==> EnvelopeAt(text, m, r.value)
    ensures r.None? ==> forall k :: e <= k ==> !EnvelopeAt(text, m, k)
    decreases |text| - e
  {
    if At(text, CLOSING, e) && AllSpace(text[e + |CLOSING|..]) then Some(e)
    else if e == |text| then None
    else ClosingFrom(text, m, e + 1)
  }

  /** The leftmost match of the envelope pattern: where it starts, and the bounds of its body. */
  datatype Match = Match(start: nat, bodyStart: nat, bodyEnd: nat)

  function MatchAt(text: string, p: nat): (r: Option<Match>)
    requires p <= |text|
    ensures r.Some? ==> p == r.value.start <= r.value.bodyStart <= r.value.bodyEnd <= |text|
  {
    var m := if p < |text| && text[p] == '\n' then p + 1 else p;
    if !At(text, MARKER, m) then None
    else match ClosingFrom(text, m, m + |MARKER|)
      case Some(e) => Some(Match(p, m + |MARKER|, e))
      case None => None
  }

  function SearchFrom(text: string, p: nat): (r: Option<Match>)
    requires p <= |text|
    ensures r.Some? ==> p <= r.value.start <= r.value.bodyStart <= r.value.bodyEnd <= |text|
    decreases |text| - p
  {
    if MatchAt(text, p).Some? then MatchAt(text, p)
    else if p == |text| then None
    else SearchFrom(text, p + 1)
  }

  const NO_PROPOSAL := "I could not produce a valid change proposal."
  const PROPOSAL_MADE := "I prepared a change proposal for review."

  /** The answer that is stored, and the proposal; `parse` is the JSON decoder of the envelope's body. */
  function ExtractProposal<P>(text: string, parse: string -> Option<P>): (string, Option<P>) {
    match SearchFrom(text, 0)
    case None => (Strip(text), None)
    case Some(found) =>
      var answer := Strip(text[..found.start]);
      match parse(text[found.bodyStart..found.bodyEnd])
      case None => (if answer != "" then answer else NO_PROPOSAL, None)
      case Some(p) => (if answer != "" then answer else PROPOSAL_MADE, Some(p))
  }

  ghost predicate NoneBetween(text: string, p: nat, q: nat)
    requires q <= |text|
  {
    forall k :: p <= k < q ==> MatchAt(text, k).None?
  }

  lemma {:induction false} SearchSkips(text: string, p: nat, q: nat)
    requires p <= q <= |text| && NoneBetween(text, p, q)
    ensures SearchFrom(text, p) == SearchFrom(text, q)
    decreases q - p
  {
    if p < q {
      assert MatchAt(text, p).None?;
      SearchSkips(text, p + 1, q);
    }
  }

  /** Any envelope makes the first marker begin one. */
  lemma FirstMarkerOpens(text: string)
    requires HasEnvelope(text)
    ensures var f := Find(text, MARKER); f.Some? && exists e: nat :: EnvelopeAt(text, f.value, e)
  {
    var m: nat, e: nat :| EnvelopeAt(text, m, e);
    var f := Find(text, MARKER).value;
    assert EnvelopeAt(text, f, e);
  }

  /** No match begins before the first marker, but for the newline in front of it. */
  lemma NoneBeforeMarker(text: string, f: nat, p: nat)
    requires Find(text, MARKER) == Some(f) && p <= f && (p == f || p + 1 == f)
    requires p == f ==> f == 0 || text[f - 1] != '\n'
    ensures NoneBetween(text, 0, p)
  {
    assert text[f] == MARKER[0];
    forall k | 0 <= k < p ensures MatchAt(text, k).None? {
    }
  }

  /** The position a search stops at: the first marker, or the newline in front of it. */
  function MatchStart(text: string, f: nat): (p: nat)
    requires f <= |text|
    ensures p <= f
  {
    if f > 0 && text[f - 1] == '\n' then f - 1 else f
  }

  lemma MatchStarts(text: string, f: nat)
    requires exists e: nat :: EnvelopeAt(text, f, e)
    ensures f <= |text| && MatchAt(text, MatchStart(text, f)).Some?
  {
    var e: nat :| EnvelopeAt(text, f, e);
    assert text[f] == MARKER[0];
    assert ClosingFrom(text, f, f + |MARKER|).Some?;
  }

  lemma EnvelopeFound(text: string)
    requires HasEnvelope(text)
    ensures var f := Find(text, MARKER);
      && f.Some? && SearchFrom(text, 0).Some?
      && SearchFrom(text, 0).value.start == MatchStart(text, f.value)
  {
    FirstMarkerOpens(text);
    var f := Find(text, MARKER).value;
    var p := MatchStart(text, f);
    NoneBeforeMarker(text, f, p);
    SearchSkips(text, 0, p);
    MatchStarts(text, f);
  }

  lemma NoEnvelopeFound(text: string)
    requires !HasEnvelope(text)
    ensures SearchFrom(text, 0).None?
  {
    forall k | 0 <= k < |text| ensures MatchAt(text, k).None? {
      NoMatch(text, k);
    }
    SearchSkips(text, 0, |text|);
    NoMatch(text, |text|);
  }

  /** So a match is found exactly when there is an envelope, and starts at the first marker or its newline. */
  lemma SearchFinds(text: string)
    ensures SearchFrom(text, 0).Some? <==> HasEnvelope(text)
    ensures HasEnvelope(text) ==> var f := Find(text, MARKER);
      && f.Some?
      && (SearchFrom(text, 0).value.start == f.value
          || (SearchFrom(text, 0).value.start + 1 == f.value && text[f.value - 1] == '\n'))
  {
    if HasEnvelope(text) {
      EnvelopeFound(text);
    } else {
      NoEnvelopeFound(text);
    }
  }

  lemma NoMatch(text: string, k: nat)
    requires !HasEnvelope(text) && k <= |text|
    ensures MatchAt(text, k).None?
  {
  }

  // ---- the proposal that is read ----

  /** Both tags open with a bracket and hold no other, so neither overlaps another tag. */
  lemma OneBracket(m: string, k: nat)
    requires m == MARKER || m == CLOSING
    requires k < |m|
    ensures m[k] == '<' <==> k == 0
  {
  }

  /** Only one closing tag can be the last thing in a text. */
  lemma OneClosing(text: string, m: nat, e: nat, e': nat)
    requires EnvelopeAt(text, m, e) && EnvelopeAt(text, m, e') && e <= e'
    ensures e == e'
  {
    var k := if e' < e + |CLOSING| then e' - e else 0;
    AtChar(text, CLOSING, e, k);
    AtChar(text, CLOSING, e', 0);
    OneBracket(CLOSING, k);
    SpaceFrom(text, e + |CLOSING|);
  }

  lemma AtChar(s: string, m: string, i: nat, k: nat)
    requires At(s, m, i) && k < |m|
    ensures s[i + k] == m[k]
  {
    assert s[i..i + |m|][k] == m[k];
  }

  lemma SpaceFrom(s: string, i: nat)
    requires i <= |s| && AllSpace(s[i..])
    ensures forall k :: i <= k < |s| ==> IsSpace(s[k])
  {
    assert forall k :: i <= k < |s| ==> s[k] == s[i..][k - i];
  }

  lemma EnvelopeBody(text: string, f: nat, e: nat)
    requires Find(text, MARKER) == Some(f) && EnvelopeAt(text, f, e)
    ensures SearchFrom(text, 0) == Some(Match(MatchStart(text, f), f + |MARKER|, e))
  {
    var p := MatchStart(text, f);
    assert text[f] == MARKER[0];
    NoneBeforeMarker(text, f, p);
    SearchSkips(text, 0, p);
    var e' := ClosingFrom(text, f, f + |MARKER|).value;
    if e <= e' {
      OneClosing(text, f, e, e');
    } else {
      OneClosing(text, f, e', e);
    }
  }

  /** Text without a marker is all shown, and a marker that follows it is the first and hides what comes next. */
  lemma MarkerIsFirst(before: string, rest: string)
    requires Find(before, MARKER).None?
    ensures Visible(before) == before
    ensures Find(before + MARKER + rest, MARKER) == Some(|before|) && Visible(before + MARKER + rest) == before
  {
    var text := before + MARKER + rest;
    assert text == before + (MARKER + rest);
    assert text[|before|..|before| + |MARKER|] == MARKER;
    AtChar(text, MARKER, |before|, 0);
    forall k | 0 <= k < |before| ensures !At(text, MARKER, k) {
      if k + |MARKER| <= |before| {
        AtPrefix(before, MARKER + rest, MARKER, k);
      } else {
        OneBracket(MARKER, |before| - k);
      }
    }
    VisibleIs(text, |before|);
    assert text[..|before|] == before;
  }

  /**
   An answer that ends in an envelope: whatever is in it, tags included, the decoder is given exactly
   that, its proposal is the one returned, and the answer is what came before, or else a sentence.
   */
  lemma ProposalRead<P>(before: string, body: string, after: string, parse: string -> Option<P>)
    requires Find(before, MARKER).None? && AllSpace(after)
    ensures var (answer, proposal) := ExtractProposal(before + MARKER + body + CLOSING + after, parse);
      && proposal == parse(body)
      && (if !AllSpace(before) then answer == Strip(before)
          else if parse(body).Some? then answer == "I prepared a change proposal for review."
          else answer == "I could not produce a valid change proposal.")
  {
    var text := before + MARKER + body + CLOSING + after;
    var f := |before|;
    var e := f + |MARKER| + |body|;
    MarkerIsFirst(before, body + CLOSING + after);
    assert text == before + MARKER + (body + CLOSING + after);
    assert text[e..e + |CLOSING|] == CLOSING && text[e + |CLOSING|..] == after;
    EnvelopeBody(text, f, e);
    assert text[f + |MARKER|..e] == body && text[..f] == before;
    BeforeNewline(before);
    assert text[..MatchStart(text, f)] == before[..MatchStart(before, f)];
    StripEmpty(before);
  }

  /** The newline in front of the marker does not matter. */
  lemma BeforeNewline(before: string)
    ensures Strip(before[..MatchStart(before, |before|)]) == Strip(before)
  {
    var p := MatchStart(before, |before|);
    if p < |before| {
      assert before == before[..p] + ['\n'];
      StripTrailing(before[..p], ['\n']);
    } else {
      assert before[..p] == before;
    }
  }

  /** What is left of the text when the envelope, if there is one, is taken off. */
  function AnswerText(text: string): string {
    match SearchFrom(text, 0)
    case None => text
    case Some(found) => text[..found.start]
  }

  lemma StoredAnswer<P>(text: string, parse: string -> Option<P>)
    ensures SearchFrom(text, 0).None? || !AllSpace(AnswerText(text)) ==> ExtractProposal(text, parse).0 == Strip(AnswerText(text))
    ensures SearchFrom(text, 0).Some? && AllSpace(AnswerText(text)) ==> ExtractProposal(text, parse).0 in {NO_PROPOSAL, PROPOSAL_MADE}
    ensures ExtractProposal(text, parse).1.Some? ==> SearchFrom(text, 0).Some?
  {
    StripEmpty(AnswerText(text));
  }

  /**
   The stored answer is the streamed text, stripped, exactly when there is no marker, or the
   text ends in a proper envelope with something visible before it. An unclosed marker hides
   the rest of the stream, yet the stored answer keeps it; and where nothing was shown, the
   stored answer says that a proposal was or was not made.
   */
  lemma StreamAgreesWithAnswer<P>(text: string, parse: string -> Option<P>)
    ensures ExtractProposal(text, parse).0 == Strip(Visible(text)) <==>
      Find(text, MARKER).None? || (HasEnvelope(text) && !AllSpace(Visible(text)))
    ensures ExtractProposal(text, parse).1.Some? ==> HasEnvelope(text)
  {
    SearchFinds(text);
    StreamAgrees(text);
    StoredAnswer(text, parse);
    StripEmpty(Visible(text));
    StripEmpty(AnswerText(text));
  }

  /** The texts themselves, before any such sentence: equal after stripping exactly when there is no marker or an envelope. */
  lemma StreamAgrees(text: string)
    ensures Strip(Visible(text)) == Strip(AnswerText(text)) <==> Find(text, MARKER).None? || HasEnvelope(text)
  {
    SearchFinds(text);
    var f := Find(text, MARKER);
    if HasEnvelope(text) {
      var start := SearchFrom(text, 0).value.start;
      if start + 1 == f.value {
        assert text[..f.value] == text[..start] + ['\n'];
        StripTrailing(text[..start], ['\n']);
      }
    } else if f.Some? {
      var rest := text[f.value..];
      assert text == Visible(text) + rest;
      assert rest[0] == MARKER[0];
      StripVisible(Visible(text), rest);
    }
  }

  /** A marker that is never closed: the reader saw less than what is stored. */
  lemma UnclosedMarkerDiffers<P>(text: string, parse: string -> Option<P>)
    requires Find(text, MARKER).Some? && Find(text, CLOSING).None?
    ensures ExtractProposal(text, parse).0 == Strip(text) != Strip(Visible(text))
  {
    EnvelopeCloses(text);
    StreamAgreesWithAnswer(text, parse);
    NoEnvelopeFound(text);
  }

  lemma EnvelopeCloses(text: string)
    ensures HasEnvelope(text) ==> Find(text, CLOSING).Some?
  {
    if HasEnvelope(text) {
      var m: nat, e: nat :| EnvelopeAt(text, m, e);
      assert At(text, CLOSING, e);
    }
  }

  /** For instance a bare marker: nothing is shown, and the marker itself is stored. */
  lemma BareMarkerDiffers<P>(parse: string -> Option<P>)
    ensures Visible(MARKER) == "" && ExtractProposal(MARKER, parse).0 != Strip(Visible(MARKER))
  {
    assert At(MARKER, MARKER, 0);
    VisibleIs(MARKER, 0);
    UnclosedMarkerDiffers(MARKER, parse);
  }

  /** And an answer that is only an envelope: nothing is shown, and a sentence is stored. */
  lemma BareEnvelopeDiffers<P>(parse: string -> Option<P>)
    ensures var text := MARKER + CLOSING;
      HasEnvelope(text) && Visible(text) == "" && ExtractProposal(text, parse).0 != Strip(Visible(text))
  {
    var text := MARKER + CLOSING;
    assert At(text, MARKER, 0) && At(text, CLOSING, |MARKER|);
    assert EnvelopeAt(text, 0, |MARKER|);
    VisibleIs(text, 0);
    StreamAgreesWithAnswer(text, parse);
  }
}
