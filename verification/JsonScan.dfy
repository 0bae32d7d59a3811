/** The editor's cursor scanner: string state and open containers up to a position. */
module JsonScan {
  import opened Wrappers

  // ---- the scanner ----

  /** One open container; `role` is the name of the property it belongs to. */
  datatype Frame = Frame(kind: char, role: Option<string>, curKey: Option<string>, expectValue: bool, strStart: int)

  datatype State = State(st: seq<Frame>, inStr: bool, esc: bool, openAt: int)

  const START := State([], false, false, -1)

  /** `text.slice(a, b)`, empty when the bounds cross. */
  function Slice(text: string, a: int, b: int): string {
    if 0 <= a <= b <= |text| then text[a..b] else ""
  }

  function Top(st: seq<Frame>): Option<Frame> {
    if st == [] then None else Some(st[|st| - 1])
  }

  function SetTop(st: seq<Frame>, f: Frame): seq<Frame>
    requires st != []
  {
    st[|st| - 1 := f]
  }

  /** The role of a container opened here. */
  function RoleHere(st: seq<Frame>): Option<string> {
    match Top(st)
    case None => Some("root")
    case Some(parent) =>
      if parent.kind == '{' then (if parent.expectValue then parent.curKey else Some("root")) else parent.role
  }

  function InString(text: string, i: nat, s: State): State
    requires i < |text|
  {
    if s.esc then s.(esc := false)
    else if text[i] == '\\' then s.(esc := true)
    else if text[i] == '"' then
      match Top(s.st)
      case Some(top) =>
        if top.kind == '{' && !top.expectValue then
          s.(inStr := false, st := SetTop(s.st, top.(curKey := Some(Slice(text, top.strStart + 1, i)))))
        else s.(inStr := false)
      case None => s.(inStr := false)
    else s
  }

  function Step(text: string, i: nat, s: State): State
    requires i < |text|
  {
    var ch := text[i];
    if s.inStr then InString(text, i, s)
    else if ch == '"' then
      s.(inStr := true, openAt := i,
         st := match Top(s.st) case Some(top) => SetTop(s.st, top.(strStart := i)) case None => s.st)
    else if ch == '{' || ch == '[' then
      s.(st := s.st + [Frame(ch, RoleHere(s.st), None, false, -1)])
    else if ch == '}' || ch == ']' then
      s.(st := if s.st == [] then [] else s.st[..|s.st| - 1])
    else
      match Top(s.st)
      case None => s
      case Some(top) =>
        if ch == ':' && top.kind == '{' then s.(st := SetTop(s.st, top.(expectValue := true)))
        else if ch == ',' && top.kind == '{' then s.(st := SetTop(s.st, top.(expectValue := false, curKey := None)))
        else s
  }

  function Scan(text: string, s: State, i: nat, j: nat): State
    requires i <= j <= |text|
    decreases j - i
  {
    if i == j then s else Step(text, j - 1, Scan(text, s, i, j - 1))
  }

  /** The forward scan from the start of the text to the cursor. */
  method ScanText(text: string, pos: nat) returns (top: Option<Frame>, inStr: bool, strStart: int)
    requires pos <= |text|
    ensures var s := Scan(text, START, 0, pos);
      top == Top(s.st) && inStr == s.inStr && strStart == s.openAt
  {
    var st: seq<Frame> := [];
    var esc, openAt := false, -1;
    inStr := false;
    for i := 0 to pos
      invariant State(st, inStr, esc, openAt) == Scan(text, START, 0, i)
    {
      var ch := text[i];
      var current := Top(st);
      if inStr {
        if esc {
          esc := false;
        } else if ch == '\\' {
          esc := true;
        } else if ch == '"' {
          inStr := false;
          if current.Some? && current.value.kind == '{' && !current.value.expectValue {
            st := SetTop(st, current.value.(curKey := Some(Slice(text, current.value.strStart + 1, i))));
          }
        }
        continue;
      }
      if ch == '"' {
        inStr, openAt := true, i;
        if current.Some? {
          st := SetTop(st, current.value.(strStart := i));
        }
      } else if ch == '{' || ch == '[' {
        st := st + [Frame(ch, RoleHere(st), None, false, -1)];
      } else if ch == '}' || ch == ']' {
        st := if st == [] then [] else st[..|st| - 1];
      } else if ch == ':' {
        if current.Some? && current.value.kind == '{' {
          st := SetTop(st, current.value.(expectValue := true));
        }
      } else if ch == ',' {
        if current.Some? && current.value.kind == '{' {
          st := SetTop(st, current.value.(expectValue := false, curKey := None));
        }
      }
    }
    return Top(st), inStr, openAt;
  }

  // ---- documents, with their white space ----

  datatype Json =
    | Atom(text: string)               // a number, true, false or null
    | Str(body: string)                // what stands between the quotes
    | EmptyArr(gap: string)
    | Arr(elems: Elems)
    | EmptyObj(gap: string)
    | Obj(members: Members)

  datatype Padded = Padded(before: string, value: Json, after: string)

  datatype Elems = LastElem(e: Padded) | MoreElems(e: Padded, rest: Elems)

  datatype Member = Member(before: string, key: string, mid: string, value: Padded)

  datatype Members = LastMember(m: Member) | MoreMembers(m: Member, rest: Members)

  /** Characters that mean nothing to the scanner outside a string. */
  predicate Plain(s: string) {
    forall k :: 0 <= k < |s| ==> s[k] !in {'"', '{', '[', '}', ']', ':', ','}
  }

  /** The inside of a string: no bare quote, and every backslash escapes something. */
  predicate Body(s: string)
    decreases |s|
  {
    if s == "" then true
    else if s[0] == '\\' then |s| >= 2 && Body(s[2..])
    else s[0] != '"' && Body(s[1..])
  }

  predicate OkValue(v: Json) {
    match v
    case Atom(text) => Plain(text)
    case Str(body) => Body(body)
    case EmptyArr(gap) => Plain(gap)
    case Arr(elems) => OkElems(elems)
    case EmptyObj(gap) => Plain(gap)
    case Obj(members) => OkMembers(members)
  }

  predicate OkPadded(e: Padded) {
    Plain(e.before) && OkValue(e.value) && Plain(e.after)
  }

  predicate OkElems(es: Elems) {
    match es
    case LastElem(e) => OkPadded(e)
    case MoreElems(e, rest) => OkPadded(e) && OkElems(rest)
  }

  predicate OkMember(m: Member) {
    Plain(m.before) && Body(m.key) && Plain(m.mid) && OkPadded(m.value)
  }

  predicate OkMembers(ms: Members) {
    match ms
    case LastMember(m) => OkMember(m)
    case MoreMembers(m, rest) => OkMember(m) && OkMembers(rest)
  }

  function Quoted(body: string): string {
    "\"" + body + "\""
  }

  function PrintValue(v: Json): string {
    match v
    case Atom(text) => text
    case Str(body) => Quoted(body)
    case EmptyArr(gap) => "[" + gap + "]"
    case Arr(elems) => "[" + PrintElems(elems) + "]"
    case EmptyObj(gap) => "{" + gap + "}"
    case Obj(members) => "{" + PrintMembers(members) + "}"
  }

  function PrintPadded(e: Padded): string {
    e.before + PrintValue(e.value) + e.after
  }

  function PrintElems(es: Elems): string {
    match es
    case LastElem(e) => PrintPadded(e)
    case MoreElems(e, rest) => PrintPadded(e) + "," + PrintElems(rest)
  }

  function MemberHead(m: Member): string {
    m.before + Quoted(m.key) + m.mid + ":"
  }

  function PrintMember(m: Member): string {
    MemberHead(m) + PrintPadded(m.value)
  }

  function PrintMembers(ms: Members): string {
    match ms
    case LastMember(m) => PrintMember(m)
    case MoreMembers(m, rest) => PrintMember(m) + "," + PrintMembers(rest)
  }

  // ---- what is open at a position, read off the document ----

  datatype Open = Open(kind: char, role: Option<string>)

  /** How far a container has come: whether the value of a member is awaited or under way, and which member's key was last complete. */
  datatype Progress = Progress(expectValue: bool, curKey: Option<string>)

  /** A container that has just been opened; in an array it stays like that. */
  const NEW := Progress(false, None)

  /**
   The containers the position is inside of, outermost first, where the string around it
   starts, and how far the innermost container has come.
   */
  datatype Context = Context(open: seq<Open>, str: Option<nat>, here: Option<Progress>)

  function Outside(here: Option<Progress>): Context {
    Context([], None, here)
  }

  /** The same context seen from `shift` characters earlier, inside one more container or none. */
  function Within(open: seq<Open>, shift: nat, c: Context): Context {
    Context(open + c.open, match c.str case Some(q) => Some(shift + q) case None => None, c.here)
  }

  /** `here` is how far the container around the value has come, which the value does not change. */
  function ValueContext(v: Json, role: Option<string>, here: Option<Progress>, p: nat): Context
    requires p <= |PrintValue(v)|
  {
    match v
    case Atom(_) => Outside(here)
    case Str(body) => if 0 < p <= |body| + 1 then Context([], Some(0), here) else Outside(here)
    case EmptyArr(gap) => if 0 < p < |gap| + 2 then Context([Open('[', role)], None, Some(NEW)) else Outside(here)
    case EmptyObj(gap) => if 0 < p < |gap| + 2 then Context([Open('{', role)], None, Some(NEW)) else Outside(here)
    case Arr(elems) =>
      if 0 < p < |PrintElems(elems)| + 2 then Within([Open('[', role)], 1, ElemsContext(elems, role, p - 1)) else Outside(here)
    case Obj(members) =>
      if 0 < p < |PrintMembers(members)| + 2 then Within([Open('{', role)], 1, MembersContext(members, p - 1)) else Outside(here)
  }

  function PaddedContext(e: Padded, role: Option<string>, here: Option<Progress>, p: nat): Context
    requires p <= |PrintPadded(e)|
  {
    if |e.before| <= p <= |e.before| + |PrintValue(e.value)| then
      Within([], |e.before|, ValueContext(e.value, role, here, p - |e.before|))
    else Outside(here)
  }

  /** Every element of an array belongs to the property the array belongs to. */
  function ElemsContext(es: Elems, role: Option<string>, p: nat): Context
    requires p <= |PrintElems(es)|
  {
    match es
    case LastElem(e) => PaddedContext(e, role, Some(NEW), p)
    case MoreElems(e, rest) =>
      var n := |PrintPadded(e)|;
      if p <= n then PaddedContext(e, role, Some(NEW), p) else Within([], n + 1, ElemsContext(rest, role, p - n - 1))
  }

  /** The value of a member belongs to its key, which is complete after its closing quote, and awaited after the colon. */
  function MemberContext(m: Member, p: nat): Context
    requires p <= |PrintMember(m)|
  {
    var b, h := |m.before|, |MemberHead(m)|;
    if p <= b then Outside(Some(NEW))
    else if p < b + |Quoted(m.key)| then Context([], Some(b), Some(NEW))
    else if p < h then Outside(Some(Progress(false, Some(m.key))))
    else Within([], h, PaddedContext(m.value, Some(m.key), Some(Progress(true, Some(m.key))), p - h))
  }

  function MembersContext(ms: Members, p: nat): Context
    requires p <= |PrintMembers(ms)|
  {
    match ms
    case LastMember(m) => MemberContext(m, p)
    case MoreMembers(m, rest) =>
      var n := |PrintMember(m)|;
      if p <= n then MemberContext(m, p) else Within([], n + 1, MembersContext(rest, p - n - 1))
  }

  // ---- the scan sees exactly that ----

  predicate At(text: string, off: nat, w: string) {
    off + |w| <= |text| && text[off..off + |w|] == w
  }

  lemma AtParts(text: string, off: nat, a: string, b: string)
    requires At(text, off, a + b)
    ensures At(text, off, a) && At(text, off + |a|, b)
  {
    assert (a + b)[..|a|] == a && (a + b)[|a|..] == b;
    assert text[off..off + |a|] == text[off..off + |a + b|][..|a|];
    assert text[off + |a|..off + |a| + |b|] == text[off..off + |a + b|][|a|..];
  }

  // A whole scan is handled as its trace: `t[i]` is the state before character `i`.

  ghost predicate StepAt(text: string, t: seq<State>, i: nat)
    requires i < |text| && |t| == |text| + 1
  {
    t[i + 1] == Step(text, i, t[i])
  }

  ghost predicate Trace(text: string, t: seq<State>) {
    |t| == |text| + 1 && forall i :: 0 <= i < |text| ==> StepAt(text, t, i)
  }

  lemma TextChar(text: string, off: nat, ch: char)
    requires At(text, off, [ch])
    ensures off < |text| && text[off] == ch
  {
    assert text[off..off + 1][0] == ch;
  }

  lemma TextAt(text: string, off: nat, w: string, k: nat)
    requires At(text, off, w) && k < |w|
    ensures text[off + k] == w[k]
  {
    assert text[off..off + |w|][k] == w[k];
  }

  predicate Calm(s: State) {
    !s.inStr && !s.esc
  }

  lemma PlainStep(text: string, i: nat, s: State)
    requires Calm(s) && i < |text| && Plain([text[i]])
    ensures Step(text, i, s) == s
  {
    assert [text[i]][0] == text[i];
  }

  lemma {:induction false} ScanPlain(text: string, t: seq<State>, off: nat, w: string, p: nat)
    requires Trace(text, t) && off <= |text| && Calm(t[off]) && Plain(w) && At(text, off, w) && p <= |w|
    ensures t[off + p] == t[off]
  {
    if p > 0 {
      ScanPlain(text, t, off, w, p - 1);
      TextAt(text, off, w, p - 1);
      assert StepAt(text, t, off + p - 1);
      PlainStep(text, off + p - 1, t[off]);
    }
  }

  /** Inside a string nothing else changes, and the end of its body is not escaped. */
  lemma {:induction false} ScanBody(text: string, t: seq<State>, off: nat, body: string, p: nat)
    requires Trace(text, t) && off <= |text| && t[off].inStr && !t[off].esc
    requires Body(body) && At(text, off, body) && p <= |body|
    ensures t[off + p].(esc := false) == t[off] && (p == |body| ==> !t[off + p].esc)
    decreases |body|
  {
    if p > 0 {
      TextAt(text, off, body, 0);
      assert StepAt(text, t, off);
      var n := if body[0] == '\\' then 2 else 1;
      if p >= n {
        if n == 2 {
          assert StepAt(text, t, off + 1);
        }
        assert body == body[..n] + body[n..];
        AtParts(text, off, body[..n], body[n..]);
        ScanBody(text, t, off + n, body[n..], p - n);
      }
    }
  }

  /** The frames after a string that starts at `off`: at a key position it becomes the current key. */
  function AfterString(st: seq<Frame>, off: nat, body: string): seq<Frame> {
    if st == [] then []
    else
      var top := st[|st| - 1].(strStart := off);
      SetTop(st, if top.kind == '{' && !top.expectValue then top.(curKey := Some(body)) else top)
  }

  function Opened(s: State, off: nat): State {
    s.(inStr := true, openAt := off,
       st := match Top(s.st) case Some(top) => SetTop(s.st, top.(strStart := off)) case None => s.st)
  }

  lemma QuotedParts(text: string, off: nat, body: string)
    requires At(text, off, Quoted(body))
    ensures off + |body| + 1 < |text| && text[off] == '"' && At(text, off + 1, body) && text[off + |body| + 1] == '"'
  {
    AtParts(text, off, "\"" + body, "\"");
    AtParts(text, off, "\"", body);
    TextChar(text, off, '"');
    TextChar(text, off + 1 + |body|, '"');
  }

  lemma ScanQuoted(text: string, t: seq<State>, off: nat, body: string, p: nat)
    requires Trace(text, t) && off <= |text| && Calm(t[off])
    requires Body(body) && At(text, off, Quoted(body)) && p <= |body| + 2
    ensures 0 < p <= |body| + 1 ==> t[off + p].(esc := false) == Opened(t[off], off)
    ensures p == |body| + 2 ==> t[off + p] == State(AfterString(t[off].st, off, body), false, false, off)
  {
    if p > 0 {
      QuotedParts(text, off, body);
      assert StepAt(text, t, off);
      assert t[off + 1] == Opened(t[off], off);
      if p <= |body| + 1 {
        ScanBody(text, t, off + 1, body, p - 1);
      } else {
        ScanBody(text, t, off + 1, body, |body|);
        ScanClosed(text, t, off, body);
      }
    }
  }

  lemma ScanClosed(text: string, t: seq<State>, off: nat, body: string)
    requires Trace(text, t) && off + 1 + |body| < |text| && Calm(t[off]) && text[off + 1 + |body|] == '"' && At(text, off + 1, body)
    requires t[off + 1 + |body|] == Opened(t[off], off)
    ensures t[off + |body| + 2] == State(AfterString(t[off].st, off, body), false, false, off)
  {
    assert StepAt(text, t, off + 1 + |body|);
    assert Slice(text, off + 1, off + 1 + |body|) == body;
  }

  /** Frames but for where their last string started, which only key completion uses. */
  function Bare(st: seq<Frame>): (b: seq<Frame>)
    ensures |b| == |st| && forall k :: 0 <= k < |b| ==> b[k] == st[k].(strStart := -1)
  {
    seq(|st|, k requires 0 <= k < |st| => st[k].(strStart := -1))
  }

  function Opens(st: seq<Frame>): (o: seq<Open>)
    ensures |o| == |st| && forall k :: 0 <= k < |o| ==> o[k] == Open(st[k].kind, st[k].role)
  {
    seq(|st|, k requires 0 <= k < |st| => Open(st[k].kind, st[k].role))
  }

  function ProgressOf(st: seq<Frame>): Option<Progress> {
    match Top(st)
    case None => None
    case Some(top) => Some(Progress(top.expectValue, top.curKey))
  }

  /** A place where a value may stand. */
  predicate ValueSpot(st: seq<Frame>) {
    Top(st).Some? && Top(st).value.kind == '{' ==> Top(st).value.expectValue
  }

  lemma BareSame(a: seq<Frame>, b: seq<Frame>)
    requires Bare(a) == Bare(b)
    ensures Opens(a) == Opens(b) && RoleHere(a) == RoleHere(b) && ValueSpot(a) == ValueSpot(b) && |a| == |b|
    ensures ProgressOf(a) == ProgressOf(b)
    ensures a != [] ==> Top(a).value.(strStart := -1) == Top(b).value.(strStart := -1)
  {
    assert forall k :: 0 <= k < |a| ==> Bare(a)[k] == Bare(b)[k];
    if a != [] {
      var n := |a| - 1;
      assert Bare(a)[n] == a[n].(strStart := -1) && Bare(b)[n] == b[n].(strStart := -1);
    }
    forall k | 0 <= k < |a| ensures Opens(a)[k] == Opens(b)[k] {
      assert Bare(a)[k] == a[k].(strStart := -1) && Bare(b)[k] == b[k].(strStart := -1);
    }
  }

  /** A whole value leaves the scanner as it found it. */
  predicate Kept(s: State, s': State) {
    Calm(s') && Bare(s'.st) == Bare(s.st)
  }

  /** Part of the way, it shows the open containers on top of those there were, and the string. */
  predicate Sees(base: seq<Frame>, off: nat, s': State, c: Context) {
    && Opens(s'.st) == Opens(base) + c.open
    && ProgressOf(s'.st) == c.here
    && s'.inStr == c.str.Some?
    && (c.str.Some? ==> s'.openAt == off + c.str.value)
  }

  // ---- whole values ----

  lemma BareAfterString(st: seq<Frame>, off: nat, body: string)
    requires ValueSpot(st)
    ensures Bare(AfterString(st, off, body)) == Bare(st)
  {
  }

  function Pushed(s: State, kind: char): State {
    s.(st := s.st + [Frame(kind, RoleHere(s.st), None, false, -1)])
  }

  lemma BarePushed(s: State, kind: char)
    ensures Bare(Pushed(s, kind).st)[..|s.st|] == Bare(s.st)
    ensures Opens(Pushed(s, kind).st) == Opens(s.st) + [Open(kind, RoleHere(s.st))]
    ensures ProgressOf(Pushed(s, kind).st) == Some(NEW)
  {
  }

  /** A container's text: its brackets and what is between them. */
  predicate Bracketed(text: string, off: nat, kind: char, n: nat) {
    && off + n + 1 < |text| && kind in {'{', '['} && text[off] == kind && text[off + n + 1] in {'}', ']'}
  }

  lemma BracketParts(text: string, off: nat, kind: char, inner: string, close: char)
    requires kind in {'{', '['} && close in {'}', ']'}
    requires At(text, off, [kind] + inner + [close])
    ensures Bracketed(text, off, kind, |inner|) && At(text, off + 1, inner)
  {
    AtParts(text, off, [kind] + inner, [close]);
    AtParts(text, off, [kind], inner);
    TextChar(text, off, kind);
    TextChar(text, off + 1 + |inner|, close);
  }

  lemma OpenContainer(text: string, t: seq<State>, off: nat, kind: char)
    requires Trace(text, t) && off < |text| && text[off] == kind && kind in {'{', '['} && Calm(t[off])
    ensures t[off + 1] == Pushed(t[off], kind)
  {
    assert StepAt(text, t, off);
  }

  /** Closing the container brings back the frames below it. */
  lemma CloseContainer(text: string, t: seq<State>, off: nat, base: seq<Frame>)
    requires Trace(text, t) && off < |text| && text[off] in {'}', ']'} && Calm(t[off])
    requires |t[off].st| == |base| + 1 && Bare(t[off].st)[..|base|] == Bare(base)
    ensures Calm(t[off + 1]) && Bare(t[off + 1].st) == Bare(base)
  {
    assert StepAt(text, t, off);
    var st := t[off].st;
    assert Bare(st[..|base|]) == Bare(st)[..|base|];
  }

  lemma FullEmpty(text: string, t: seq<State>, off: nat, kind: char, gap: string)
    requires Trace(text, t) && Bracketed(text, off, kind, |gap|) && Calm(t[off]) && Plain(gap) && At(text, off + 1, gap)
    ensures Kept(t[off], t[off + |gap| + 2])
  {
    OpenContainer(text, t, off, kind);
    ScanPlain(text, t, off + 1, gap, |gap|);
    BarePushed(t[off], kind);
    CloseContainer(text, t, off + 1 + |gap|, t[off].st);
  }

  lemma FullValue(text: string, t: seq<State>, off: nat, v: Json)
    requires Trace(text, t) && off <= |text| && Calm(t[off]) && ValueSpot(t[off].st)
    requires OkValue(v) && At(text, off, PrintValue(v))
    ensures Kept(t[off], t[off + |PrintValue(v)|])
    decreases v, 1
  {
    match v
    case Atom(w) => ScanPlain(text, t, off, w, |w|);
    case Str(body) =>
      ScanQuoted(text, t, off, body, |body| + 2);
      BareAfterString(t[off].st, off, body);
    case EmptyArr(gap) =>
      BracketParts(text, off, '[', gap, ']');
      FullEmpty(text, t, off, '[', gap);
    case EmptyObj(gap) =>
      BracketParts(text, off, '{', gap, '}');
      FullEmpty(text, t, off, '{', gap);
    case Arr(elems) => FullArr(text, t, off, elems);
    case Obj(members) => FullObj(text, t, off, members);
  }

  lemma FullArr(text: string, t: seq<State>, off: nat, elems: Elems)
    requires Trace(text, t) && off <= |text| && Calm(t[off])
    requires OkElems(elems) && At(text, off, PrintValue(Arr(elems)))
    ensures Kept(t[off], t[off + |PrintValue(Arr(elems))|])
    decreases elems, 2
  {
    var n := |PrintElems(elems)|;
    BracketParts(text, off, '[', PrintElems(elems), ']');
    OpenContainer(text, t, off, '[');
    FullElems(text, t, off + 1, elems);
    BarePushed(t[off], '[');
    CloseContainer(text, t, off + 1 + n, t[off].st);
  }

  lemma FullObj(text: string, t: seq<State>, off: nat, members: Members)
    requires Trace(text, t) && off <= |text| && Calm(t[off])
    requires OkMembers(members) && At(text, off, PrintValue(Obj(members)))
    ensures Kept(t[off], t[off + |PrintValue(Obj(members))|])
    decreases members, 2
  {
    var n := |PrintMembers(members)|;
    BracketParts(text, off, '{', PrintMembers(members), '}');
    OpenContainer(text, t, off, '{');
    FullMembers(text, t, off + 1, members);
    BarePushed(t[off], '{');
    CloseContainer(text, t, off + 1 + n, t[off].st);
  }

  lemma PaddedParts(text: string, off: nat, e: Padded)
    requires At(text, off, PrintPadded(e))
    ensures At(text, off, e.before) && At(text, off + |e.before|, PrintValue(e.value))
    ensures At(text, off + |e.before| + |PrintValue(e.value)|, e.after)
    ensures |PrintPadded(e)| == |e.before| + |PrintValue(e.value)| + |e.after|
  {
    AtParts(text, off, e.before + PrintValue(e.value), e.after);
    AtParts(text, off, e.before, PrintValue(e.value));
  }

  lemma FullPadded(text: string, t: seq<State>, off: nat, e: Padded)
    requires Trace(text, t) && off <= |text| && Calm(t[off]) && ValueSpot(t[off].st)
    requires OkPadded(e) && At(text, off, PrintPadded(e))
    ensures Kept(t[off], t[off + |PrintPadded(e)|])
    decreases e, 1
  {
    PaddedParts(text, off, e);
    var a, b := off + |e.before|, off + |e.before| + |PrintValue(e.value)|;
    ScanPlain(text, t, off, e.before, |e.before|);
    FullValue(text, t, a, e.value);
    ScanPlain(text, t, b, e.after, |e.after|);
  }

  predicate InArray(st: seq<Frame>) {
    st != [] && st[|st| - 1].kind == '[' && ProgressOf(st) == Some(NEW)
  }

  lemma ElemsParts(text: string, off: nat, e: Padded, rest: Elems)
    requires At(text, off, PrintElems(MoreElems(e, rest)))
    ensures At(text, off, PrintPadded(e))
    ensures var n := off + |PrintPadded(e)|; n < |text| && text[n] == ',' && At(text, n + 1, PrintElems(rest))
    ensures |PrintElems(MoreElems(e, rest))| == |PrintPadded(e)| + 1 + |PrintElems(rest)|
  {
    AtParts(text, off, PrintPadded(e) + ",", PrintElems(rest));
    AtParts(text, off, PrintPadded(e), ",");
    TextChar(text, off + |PrintPadded(e)|, ',');
  }

  /** An element and the comma after it. */
  lemma ElemAndComma(text: string, t: seq<State>, off: nat, e: Padded, n: nat)
    requires Trace(text, t) && off <= |text| && Calm(t[off]) && InArray(t[off].st)
    requires OkPadded(e) && At(text, off, PrintPadded(e)) && n == off + |PrintPadded(e)| < |text| && text[n] == ','
    ensures Kept(t[off], t[n + 1]) && InArray(t[n + 1].st)
    decreases e, 2
  {
    FullPadded(text, t, off, e);
    BareSame(t[n].st, t[off].st);
    assert StepAt(text, t, n);
  }

  lemma FullElems(text: string, t: seq<State>, off: nat, es: Elems)
    requires Trace(text, t) && off <= |text| && Calm(t[off]) && InArray(t[off].st)
    requires OkElems(es) && At(text, off, PrintElems(es))
    ensures Kept(t[off], t[off + |PrintElems(es)|])
    ensures |t[off + |PrintElems(es)|].st| == |t[off].st|
    decreases es, 1
  {
    match es
    case LastElem(e) =>
      FullPadded(text, t, off, e);
      BareSame(t[off + |PrintPadded(e)|].st, t[off].st);
    case MoreElems(e, rest) =>
      ElemsParts(text, off, e, rest);
      FullMoreElems(text, t, off, e, rest, off + |PrintPadded(e)|);
  }

  lemma FullMoreElems(text: string, t: seq<State>, off: nat, e: Padded, rest: Elems, n: nat)
    requires Trace(text, t) && off <= |text| && Calm(t[off]) && InArray(t[off].st)
    requires OkPadded(e) && At(text, off, PrintPadded(e)) && n == off + |PrintPadded(e)| < |text| && text[n] == ','
    requires OkElems(rest) && At(text, n + 1, PrintElems(rest))
    ensures Kept(t[off], t[n + 1 + |PrintElems(rest)|])
    ensures |t[n + 1 + |PrintElems(rest)|].st| == |t[off].st|
    decreases MoreElems(e, rest), 0
  {
    ElemAndComma(text, t, off, e, n);
    FullElems(text, t, n + 1, rest);
    BareSame(t[n + 1].st, t[off].st);
  }

  predicate AtKey(st: seq<Frame>) {
    st != [] && st[|st| - 1].kind == '{' && ProgressOf(st) == Some(NEW)
  }

  /** After `key :` the object waits for that key's value. */
  function Keyed(st: seq<Frame>, at: nat, key: string): seq<Frame>
    requires st != []
  {
    SetTop(st, st[|st| - 1].(strStart := at, curKey := Some(key), expectValue := true))
  }

  lemma MemberParts(text: string, off: nat, m: Member)
    requires At(text, off, PrintMember(m))
    ensures At(text, off, m.before) && At(text, off + |m.before|, Quoted(m.key))
    ensures At(text, off + |m.before| + |m.key| + 2, m.mid)
    ensures |MemberHead(m)| == |m.before| + |m.key| + 2 + |m.mid| + 1
    ensures |PrintMember(m)| == |MemberHead(m)| + |PrintPadded(m.value)|
    ensures At(text, off + |MemberHead(m)|, PrintPadded(m.value))
    ensures var n := off + |MemberHead(m)| - 1; n < |text| && text[n] == ':'
  {
    AtParts(text, off, MemberHead(m), PrintPadded(m.value));
    AtParts(text, off, m.before + Quoted(m.key) + m.mid, ":");
    AtParts(text, off, m.before + Quoted(m.key), m.mid);
    AtParts(text, off, m.before, Quoted(m.key));
    TextChar(text, off + |MemberHead(m)| - 1, ':');
  }

  lemma ScanHead(text: string, t: seq<State>, off: nat, m: Member)
    requires Trace(text, t) && off <= |text| && Calm(t[off]) && AtKey(t[off].st)
    requires OkMember(m) && At(text, off, PrintMember(m))
    ensures |MemberHead(m)| <= |PrintMember(m)|
    ensures t[off + |MemberHead(m)|] == State(Keyed(t[off].st, off + |m.before|, m.key), false, false, off + |m.before|)
  {
    MemberParts(text, off, m);
    var a := off + |m.before|;
    var b := a + |m.key| + 2;
    ScanPlain(text, t, off, m.before, |m.before|);
    ScanQuoted(text, t, a, m.key, |m.key| + 2);
    ScanPlain(text, t, b, m.mid, |m.mid|);
    assert StepAt(text, t, b + |m.mid|);
  }

  lemma FullMember(text: string, t: seq<State>, off: nat, m: Member)
    requires Trace(text, t) && off <= |text| && Calm(t[off]) && AtKey(t[off].st)
    requires OkMember(m) && At(text, off, PrintMember(m))
    ensures var s' := t[off + |PrintMember(m)|];
      Calm(s') && SameObject(t[off].st, s'.st) && s'.st[|s'.st| - 1].expectValue
    decreases m, 0
  {
    MemberParts(text, off, m);
    ScanHead(text, t, off, m);
    var h := off + |MemberHead(m)|;
    FullPadded(text, t, h, m.value);
    SameKeyed(t[off].st, off + |m.before|, m.key);
    BareSameObject(t[off].st, t[h].st, t[h + |PrintPadded(m.value)|].st);
  }

  /** `b` has the frames of `a`, but for the progress of the object on top. */
  predicate SameObject(a: seq<Frame>, b: seq<Frame>) {
    && a != [] && |b| == |a| && Bare(b)[..|a| - 1] == Bare(a)[..|a| - 1]
    && b[|a| - 1].kind == a[|a| - 1].kind && b[|a| - 1].role == a[|a| - 1].role
  }

  lemma SameKeyed(st: seq<Frame>, at: nat, key: string)
    requires st != []
    ensures SameObject(st, Keyed(st, at, key))
  {
  }

  lemma SameObjectTrans(a: seq<Frame>, b: seq<Frame>, c: seq<Frame>)
    requires SameObject(a, b) && SameObject(b, c)
    ensures SameObject(a, c)
  {
  }

  lemma BareSameObject(a: seq<Frame>, b: seq<Frame>, c: seq<Frame>)
    requires SameObject(a, b) && Bare(b) == Bare(c)
    ensures SameObject(a, c) && c[|c| - 1].expectValue == b[|b| - 1].expectValue
  {
    BareSame(b, c);
  }

  lemma MembersParts(text: string, off: nat, m: Member, rest: Members)
    requires At(text, off, PrintMembers(MoreMembers(m, rest)))
    ensures At(text, off, PrintMember(m))
    ensures var n := off + |PrintMember(m)|; n < |text| && text[n] == ',' && At(text, n + 1, PrintMembers(rest))
    ensures |PrintMembers(MoreMembers(m, rest))| == |PrintMember(m)| + 1 + |PrintMembers(rest)|
  {
    AtParts(text, off, PrintMember(m) + ",", PrintMembers(rest));
    AtParts(text, off, PrintMember(m), ",");
    TextChar(text, off + |PrintMember(m)|, ',');
  }

  /** A comma in an object: ready for the next key. */
  lemma CommaInObject(text: string, t: seq<State>, n: nat)
    requires Trace(text, t) && n < |text| && text[n] == ',' && Calm(t[n])
    requires t[n].st != [] && t[n].st[|t[n].st| - 1].kind == '{'
    ensures Calm(t[n + 1]) && AtKey(t[n + 1].st) && SameObject(t[n].st, t[n + 1].st)
  {
    assert StepAt(text, t, n);
  }

  lemma MemberAndComma(text: string, t: seq<State>, off: nat, m: Member, n: nat)
    requires Trace(text, t) && off <= |text| && Calm(t[off]) && AtKey(t[off].st)
    requires OkMember(m) && At(text, off, PrintMember(m)) && n == off + |PrintMember(m)| < |text| && text[n] == ','
    ensures Calm(t[n + 1]) && AtKey(t[n + 1].st) && SameObject(t[off].st, t[n + 1].st)
    decreases m, 1
  {
    FullMember(text, t, off, m);
    CommaInObject(text, t, n);
    SameObjectTrans(t[off].st, t[n].st, t[n + 1].st);
  }

  lemma FullMembers(text: string, t: seq<State>, off: nat, ms: Members)
    requires Trace(text, t) && off <= |text| && Calm(t[off]) && AtKey(t[off].st)
    requires OkMembers(ms) && At(text, off, PrintMembers(ms))
    ensures var s' := t[off + |PrintMembers(ms)|];
      Calm(s') && SameObject(t[off].st, s'.st)
    decreases ms, 1
  {
    match ms
    case LastMember(m) => FullMember(text, t, off, m);
    case MoreMembers(m, rest) =>
      MembersParts(text, off, m, rest);
      FullMoreMembers(text, t, off, m, rest, off + |PrintMember(m)|);
  }

  lemma FullMoreMembers(text: string, t: seq<State>, off: nat, m: Member, rest: Members, n: nat)
    requires Trace(text, t) && off <= |text| && Calm(t[off]) && AtKey(t[off].st)
    requires OkMember(m) && At(text, off, PrintMember(m)) && n == off + |PrintMember(m)| < |text| && text[n] == ','
    requires OkMembers(rest) && At(text, n + 1, PrintMembers(rest))
    ensures var s' := t[n + 1 + |PrintMembers(rest)|];
      Calm(s') && SameObject(t[off].st, s'.st)
    decreases MoreMembers(m, rest), 0
  {
    MemberAndComma(text, t, off, m, n);
    FullMembers(text, t, n + 1, rest);
    SameObjectTrans(t[off].st, t[n + 1].st, t[n + 1 + |PrintMembers(rest)|].st);
  }

  // ---- part of the way ----

  lemma SeesWithin(base: seq<Frame>, base': seq<Frame>, open: seq<Open>, off: nat, shift: nat, s': State, c: Context)
    requires Sees(base', off + shift, s', c) && Opens(base') == Opens(base) + open
    ensures Sees(base, off, s', Within(open, shift, c))
  {
    assert Opens(base) + (open + c.open) == (Opens(base) + open) + c.open;
  }

  lemma SeesNothing(base: seq<Frame>, off: nat, s': State)
    requires Calm(s') && Bare(s'.st) == Bare(base)
    ensures Sees(base, off, s', Outside(ProgressOf(base)))
  {
    BareSame(s'.st, base);
    assert Opens(base) + [] == Opens(base);
  }

  lemma SeesString(text: string, t: seq<State>, off: nat, body: string, p: nat)
    requires Trace(text, t) && off <= |text| && Calm(t[off])
    requires Body(body) && At(text, off, Quoted(body)) && 0 < p <= |body| + 1
    ensures Sees(t[off].st, off, t[off + p], Context([], Some(0), ProgressOf(t[off].st)))
  {
    ScanQuoted(text, t, off, body, p);
    var s := Opened(t[off], off);
    assert Bare(s.st) == Bare(t[off].st);
    BareSame(s.st, t[off].st);
    assert Opens(t[off].st) + [] == Opens(t[off].st);
  }

  lemma AtValue(text: string, t: seq<State>, off: nat, v: Json, p: nat)
    requires Trace(text, t) && off <= |text| && Calm(t[off]) && ValueSpot(t[off].st)
    requires OkValue(v) && At(text, off, PrintValue(v)) && p <= |PrintValue(v)|
    ensures Sees(t[off].st, off, t[off + p], ValueContext(v, RoleHere(t[off].st), ProgressOf(t[off].st), p))
    decreases v, 1
  {
    if p == 0 {
      SeesNothing(t[off].st, off, t[off]);
    } else if p == |PrintValue(v)| {
      FullValue(text, t, off, v);
      SeesNothing(t[off].st, off, t[off + p]);
    } else {
      match v
      case Atom(w) =>
        ScanPlain(text, t, off, w, p);
        SeesNothing(t[off].st, off, t[off + p]);
      case Str(body) => SeesString(text, t, off, body, p);
      case EmptyArr(gap) =>
        BracketParts(text, off, '[', gap, ']');
        InGap(text, t, off, '[', gap, p);
      case EmptyObj(gap) =>
        BracketParts(text, off, '{', gap, '}');
        InGap(text, t, off, '{', gap, p);
      case Arr(elems) => InArr(text, t, off, elems, p);
      case Obj(members) => InObj(text, t, off, members, p);
    }
  }

  lemma InGap(text: string, t: seq<State>, off: nat, kind: char, gap: string, p: nat)
    requires Trace(text, t) && Bracketed(text, off, kind, |gap|) && Calm(t[off])
    requires Plain(gap) && At(text, off + 1, gap) && 0 < p < |gap| + 2
    ensures Sees(t[off].st, off, t[off + p], Context([Open(kind, RoleHere(t[off].st))], None, Some(NEW)))
  {
    OpenContainer(text, t, off, kind);
    ScanPlain(text, t, off + 1, gap, p - 1);
    BarePushed(t[off], kind);
  }

  lemma InArr(text: string, t: seq<State>, off: nat, elems: Elems, p: nat)
    requires Trace(text, t) && off <= |text| && Calm(t[off])
    requires OkElems(elems) && At(text, off, PrintValue(Arr(elems))) && 0 < p < |PrintElems(elems)| + 2
    ensures Sees(t[off].st, off, t[off + p], ValueContext(Arr(elems), RoleHere(t[off].st), ProgressOf(t[off].st), p))
    decreases elems, 1
  {
    BracketParts(text, off, '[', PrintElems(elems), ']');
    OpenContainer(text, t, off, '[');
    AtElems(text, t, off + 1, elems, p - 1);
    BarePushed(t[off], '[');
    var role := RoleHere(t[off].st);
    SeesWithin(t[off].st, t[off + 1].st, [Open('[', role)], off, 1, t[off + p], ElemsContext(elems, role, p - 1));
  }

  lemma InObj(text: string, t: seq<State>, off: nat, members: Members, p: nat)
    requires Trace(text, t) && off <= |text| && Calm(t[off])
    requires OkMembers(members) && At(text, off, PrintValue(Obj(members))) && 0 < p < |PrintMembers(members)| + 2
    ensures Sees(t[off].st, off, t[off + p], ValueContext(Obj(members), RoleHere(t[off].st), ProgressOf(t[off].st), p))
    decreases members, 1
  {
    BracketParts(text, off, '{', PrintMembers(members), '}');
    OpenContainer(text, t, off, '{');
    AtMembers(text, t, off + 1, members, p - 1);
    BarePushed(t[off], '{');
    var role := RoleHere(t[off].st);
    SeesWithin(t[off].st, t[off + 1].st, [Open('{', role)], off, 1, t[off + p], MembersContext(members, p - 1));
  }

  lemma AtPadded(text: string, t: seq<State>, off: nat, e: Padded, p: nat)
    requires Trace(text, t) && off <= |text| && Calm(t[off]) && ValueSpot(t[off].st)
    requires OkPadded(e) && At(text, off, PrintPadded(e)) && p <= |PrintPadded(e)|
    ensures Sees(t[off].st, off, t[off + p], PaddedContext(e, RoleHere(t[off].st), ProgressOf(t[off].st), p))
    decreases e, 1
  {
    PaddedParts(text, off, e);
    var b, n := |e.before|, |PrintValue(e.value)|;
    if p < b {
      ScanPlain(text, t, off, e.before, p);
      SeesNothing(t[off].st, off, t[off + p]);
    } else if p <= b + n {
      ScanPlain(text, t, off, e.before, b);
      AtValue(text, t, off + b, e.value, p - b);
      SeesShifted(t[off].st, off, b, t[off + p], ValueContext(e.value, RoleHere(t[off].st), ProgressOf(t[off].st), p - b));
    } else {
      AfterPadded(text, t, off, e, p);
    }
  }

  lemma SeesShifted(base: seq<Frame>, off: nat, shift: nat, s': State, c: Context)
    requires Sees(base, off + shift, s', c)
    ensures Sees(base, off, s', Within([], shift, c))
  {
    assert Opens(base) + [] == Opens(base);
    SeesWithin(base, base, [], off, shift, s', c);
  }

  /** In the white space after a value, everything is as before it. */
  lemma AfterPadded(text: string, t: seq<State>, off: nat, e: Padded, p: nat)
    requires Trace(text, t) && off <= |text| && Calm(t[off]) && ValueSpot(t[off].st)
    requires OkPadded(e) && At(text, off, PrintPadded(e)) && |e.before| + |PrintValue(e.value)| < p <= |PrintPadded(e)|
    ensures Sees(t[off].st, off, t[off + p], Outside(ProgressOf(t[off].st)))
  {
    PaddedParts(text, off, e);
    var b, n := |e.before|, |PrintValue(e.value)|;
    ScanPlain(text, t, off, e.before, b);
    FullValue(text, t, off + b, e.value);
    ScanPlain(text, t, off + b + n, e.after, p - b - n);
    SeesNothing(t[off].st, off, t[off + p]);
  }

  lemma AtElems(text: string, t: seq<State>, off: nat, es: Elems, p: nat)
    requires Trace(text, t) && off <= |text| && Calm(t[off]) && InArray(t[off].st)
    requires OkElems(es) && At(text, off, PrintElems(es)) && p <= |PrintElems(es)|
    ensures Sees(t[off].st, off, t[off + p], ElemsContext(es, t[off].st[|t[off].st| - 1].role, p))
    decreases es, 0
  {
    match es
    case LastElem(e) => AtPadded(text, t, off, e, p);
    case MoreElems(e, rest) =>
      ElemsParts(text, off, e, rest);
      var n := |PrintPadded(e)|;
      if p <= n {
        AtPadded(text, t, off, e, p);
      } else {
        ElemAndComma(text, t, off, e, off + n);
        var s1 := t[off + n + 1];
        BareSame(s1.st, t[off].st);
        AtElems(text, t, off + n + 1, rest, p - n - 1);
        assert Opens(s1.st) == Opens(t[off].st) + [];
        SeesWithin(t[off].st, s1.st, [], off, n + 1, t[off + p],
                   ElemsContext(rest, t[off].st[|t[off].st| - 1].role, p - n - 1));
      }
  }

  lemma AtMember(text: string, t: seq<State>, off: nat, m: Member, p: nat)
    requires Trace(text, t) && off <= |text| && Calm(t[off]) && AtKey(t[off].st)
    requires OkMember(m) && At(text, off, PrintMember(m)) && p <= |PrintMember(m)|
    ensures Sees(t[off].st, off, t[off + p], MemberContext(m, p))
    decreases m, 0
  {
    MemberParts(text, off, m);
    var h := |MemberHead(m)|;
    if p < h {
      InHead(text, t, off, m, p);
    } else {
      ScanHead(text, t, off, m);
      var s1 := t[off + h];
      AtPadded(text, t, off + h, m.value, p - h);
      SameKeyed(t[off].st, off + |m.before|, m.key);
      OpensSameObject(t[off].st, s1.st);
      SeesWithin(t[off].st, s1.st, [], off, h, t[off + p], PaddedContext(m.value, Some(m.key), Some(Progress(true, Some(m.key))), p - h));
    }
  }

  lemma InKey(text: string, t: seq<State>, off: nat, m: Member, p: nat)
    requires Trace(text, t) && off <= |text| && Calm(t[off]) && AtKey(t[off].st)
    requires OkMember(m) && At(text, off, PrintMember(m))
    requires |m.before| < p < |m.before| + |m.key| + 2
    ensures p <= |PrintMember(m)| && Sees(t[off].st, off, t[off + p], Context([], Some(|m.before|), Some(NEW)))
  {
    MemberParts(text, off, m);
    ScanPlain(text, t, off, m.before, |m.before|);
    SeesString(text, t, off + |m.before|, m.key, p - |m.before|);
  }

  lemma AfterKey(text: string, t: seq<State>, off: nat, m: Member, p: nat)
    requires Trace(text, t) && off <= |text| && Calm(t[off]) && AtKey(t[off].st)
    requires OkMember(m) && At(text, off, PrintMember(m))
    requires |m.before| + |m.key| + 2 <= p < |MemberHead(m)|
    ensures p <= |PrintMember(m)| && Sees(t[off].st, off, t[off + p], Outside(Some(Progress(false, Some(m.key)))))
  {
    MemberParts(text, off, m);
    var a := off + |m.before|;
    var b := a + |m.key| + 2;
    ScanPlain(text, t, off, m.before, |m.before|);
    ScanQuoted(text, t, a, m.key, |m.key| + 2);
    ScanPlain(text, t, b, m.mid, off + p - b);
    OpensAfterString(t[off].st, a, m.key);
  }

  lemma InHead(text: string, t: seq<State>, off: nat, m: Member, p: nat)
    requires Trace(text, t) && off <= |text| && Calm(t[off]) && AtKey(t[off].st)
    requires OkMember(m) && At(text, off, PrintMember(m)) && p < |MemberHead(m)|
    ensures p <= |PrintMember(m)| && Sees(t[off].st, off, t[off + p], MemberContext(m, p))
  {
    MemberParts(text, off, m);
    if p <= |m.before| {
      ScanPlain(text, t, off, m.before, p);
      SeesNothing(t[off].st, off, t[off + p]);
    } else if p < |m.before| + |m.key| + 2 {
      InKey(text, t, off, m, p);
    } else {
      AfterKey(text, t, off, m, p);
    }
  }

  lemma OpensAfterString(st: seq<Frame>, off: nat, body: string)
    ensures Opens(AfterString(st, off, body)) == Opens(st) + []
  {
  }

  lemma AtMembers(text: string, t: seq<State>, off: nat, ms: Members, p: nat)
    requires Trace(text, t) && off <= |text| && Calm(t[off]) && AtKey(t[off].st)
    requires OkMembers(ms) && At(text, off, PrintMembers(ms)) && p <= |PrintMembers(ms)|
    ensures Sees(t[off].st, off, t[off + p], MembersContext(ms, p))
    decreases ms, 0
  {
    match ms
    case LastMember(m) => AtMember(text, t, off, m, p);
    case MoreMembers(m, rest) =>
      MembersParts(text, off, m, rest);
      var n := |PrintMember(m)|;
      if p <= n {
        AtMember(text, t, off, m, p);
      } else {
        AtLaterMember(text, t, off, m, rest, p);
      }
  }

  lemma AtLaterMember(text: string, t: seq<State>, off: nat, m: Member, rest: Members, p: nat)
    requires Trace(text, t) && off <= |text| && Calm(t[off]) && AtKey(t[off].st)
    requires OkMember(m) && OkMembers(rest) && At(text, off, PrintMembers(MoreMembers(m, rest)))
    requires |PrintMember(m)| < p <= |PrintMembers(MoreMembers(m, rest))|
    ensures Sees(t[off].st, off, t[off + p], MembersContext(MoreMembers(m, rest), p))
    decreases rest, 2
  {
    var n := |PrintMember(m)|;
    MembersParts(text, off, m, rest);
    LaterContext(m, rest, p);
    PastMember(text, t, off, m, off + n, rest, p - n - 1);
  }

  /** Past a member and its comma, what is seen of the others is seen of the whole. */
  lemma PastMember(text: string, t: seq<State>, off: nat, m: Member, n: nat, rest: Members, p: nat)
    requires Trace(text, t) && off <= |text| && Calm(t[off]) && AtKey(t[off].st)
    requires OkMember(m) && At(text, off, PrintMember(m)) && n == off + |PrintMember(m)| < |text| && text[n] == ','
    requires OkMembers(rest) && At(text, n + 1, PrintMembers(rest)) && p <= |PrintMembers(rest)|
    ensures Sees(t[off].st, off, t[n + 1 + p], Within([], n - off + 1, MembersContext(rest, p)))
    decreases rest, 1
  {
    MemberAndComma(text, t, off, m, n);
    AtMembers(text, t, n + 1, rest, p);
    SeesNextMember(t[off].st, t[n + 1].st, off, n - off + 1, t[n + 1 + p], MembersContext(rest, p));
  }

  lemma LaterContext(m: Member, rest: Members, p: nat)
    requires |PrintMember(m)| < p <= |PrintMembers(MoreMembers(m, rest))|
    ensures p - |PrintMember(m)| - 1 <= |PrintMembers(rest)|
    ensures MembersContext(MoreMembers(m, rest), p) ==
      Within([], |PrintMember(m)| + 1, MembersContext(rest, p - |PrintMember(m)| - 1))
  {
  }

  lemma SeesNextMember(base: seq<Frame>, base': seq<Frame>, off: nat, shift: nat, s': State, c: Context)
    requires SameObject(base, base') && Sees(base', off + shift, s', c)
    ensures Sees(base, off, s', Within([], shift, c))
  {
    OpensSameObject(base, base');
    SeesWithin(base, base', [], off, shift, s', c);
  }

  lemma OpensSameObject(a: seq<Frame>, b: seq<Frame>)
    requires SameObject(a, b)
    ensures Opens(b) == Opens(a) + []
  {
    var n := |a| - 1;
    forall k | 0 <= k < |a| ensures Opens(b)[k] == Opens(a)[k] {
      if k < n {
        assert Bare(b)[..n][k] == b[k].(strStart := -1) && Bare(a)[..n][k] == a[k].(strStart := -1);
      }
    }
  }

  /**
   For every document and every cursor position: the scan is inside a string exactly when
   the cursor is, with the right start; its stack is the open containers, each with the
   property it belongs to; and a whole document leaves nothing open.
   */
  lemma CursorContext(doc: Padded, pos: nat)
    requires OkPadded(doc) && pos <= |PrintPadded(doc)|
    ensures var text := PrintPadded(doc);
      var s := Scan(text, START, 0, pos);
      var c := PaddedContext(doc, Some("root"), None, pos);
      && Opens(s.st) == c.open
      && ProgressOf(s.st) == c.here
      && s.inStr == c.str.Some?
      && (c.str.Some? ==> s.openAt == c.str.value)
      && (pos == |text| ==> s.st == [] && !s.inStr)
  {
    SeesDocument(doc, pos);
    WholeDocument(doc);
  }

  lemma SeesDocument(doc: Padded, pos: nat)
    requires OkPadded(doc) && pos <= |PrintPadded(doc)|
    ensures Sees([], 0, Scan(PrintPadded(doc), START, 0, pos), PaddedContext(doc, Some("root"), None, pos))
    ensures Opens([]) == []
  {
    var text := PrintPadded(doc);
    var t := ScanTrace(text);
    assert text[0..|text|] == text;
    AtPadded(text, t, 0, doc, pos);
  }

  lemma WholeDocument(doc: Padded)
    requires OkPadded(doc)
    ensures var s := Scan(PrintPadded(doc), START, 0, |PrintPadded(doc)|); s.st == [] && !s.inStr
  {
    var text := PrintPadded(doc);
    var t := ScanTrace(text);
    assert text[0..|text|] == text;
    FullPadded(text, t, 0, doc);
    assert |Bare(t[|text|].st)| == |Bare([])|;
  }

  lemma ScanTrace(text: string) returns (t: seq<State>)
    ensures Trace(text, t) && forall i :: 0 <= i <= |text| ==> t[i] == Scan(text, START, 0, i)
  {
    t := seq(|text| + 1, i requires 0 <= i < |text| + 1 => Scan(text, START, 0, i));
    assert forall i :: 0 <= i < |text| ==> StepAt(text, t, i);
  }

  lemma PrefixSlice(text: string, other: string, n: nat, a: nat, b: nat)
    requires n <= |text| && n <= |other| && text[..n] == other[..n] && a <= b <= n
    ensures text[a..b] == other[a..b]
  {
    forall k | a <= k < b ensures text[k] == other[k] {
      assert text[k] == text[..n][k];
      assert other[k] == other[..n][k];
    }
  }

  lemma StepPrefix(text: string, other: string, i: nat, s: State)
    requires i < |text| && i < |other| && text[..i + 1] == other[..i + 1]
    ensures Step(text, i, s) == Step(other, i, s)
  {
    assert text[..i + 1][i] == text[i];
    assert other[..i + 1][i] == other[i];
    match Top(s.st)
    case None =>
    case Some(top) =>
      if 0 <= top.strStart + 1 <= i {
        PrefixSlice(text, other, i + 1, top.strStart + 1, i);
      }
  }

  lemma {:induction false} ScanPrefix(text: string, other: string, pos: nat)
    requires pos <= |text| && pos <= |other| && text[..pos] == other[..pos]
    ensures Scan(text, START, 0, pos) == Scan(other, START, 0, pos)
  {
    if pos > 0 {
      PrefixSlice(text, other, pos, 0, pos - 1);
      ScanPrefix(text, other, pos - 1);
      StepPrefix(text, other, pos - 1, Scan(text, START, 0, pos - 1));
    }
  }

  /**
   While typing: text that agrees with some document up to the cursor is scanned as that
   document is, however incomplete or broken it is after the cursor.
   */
  lemma TypingContext(text: string, doc: Padded, pos: nat)
    requires OkPadded(doc) && pos <= |text| && pos <= |PrintPadded(doc)| && text[..pos] == PrintPadded(doc)[..pos]
    ensures var s := Scan(text, START, 0, pos);
      var c := PaddedContext(doc, Some("root"), None, pos);
      Opens(s.st) == c.open && ProgressOf(s.st) == c.here && s.inStr == c.str.Some? && (c.str.Some? ==> s.openAt == c.str.value)
  {
    ScanPrefix(text, PrintPadded(doc), pos);
    CursorContext(doc, pos);
  }
}
