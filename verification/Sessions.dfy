/** Session tokens: signed, dated, and tied to the version of the account. */
module Sessions {
  import opened Wrappers
  import opened Bytes
  import Base64

  const TOKEN_TTL := 43200

  datatype Payload = Payload(sub: string, exp: int, ver: int)

  datatype Account = Account(email: string, passwordHash: string, version: int)

  /**
   The parts taken as given: the JSON form of a payload and its reader, and the keyed
   hash under the console's secret.
   */
  datatype Codec = Codec(print_: Payload -> seq<byte>, parse: seq<byte> -> Option<Payload>, mac: seq<byte> -> seq<byte>)
  {
    ghost predicate ReadsBack() {
      forall p :: parse(print_(p)) == Some(p)
    }
  }

  /** The parts before and after the first dot. */
  function SplitDot(token: string): Option<(string, string)> {
    if token == "" then None
    else if token[0] == '.' then Some(("", token[1..]))
    else match SplitDot(token[1..])
      case Some((p, s)) => Some(([token[0]] + p, s))
      case None => None
  }

  lemma {:induction false} SplitFirst(p: string, s: string)
    requires '.' !in p
    ensures SplitDot(p + "." + s) == Some((p, s))
  {
    var token := p + "." + s;
    if p != "" {
      assert token[1..] == p[1..] + "." + s;
      SplitFirst(p[1..], s);
      assert [p[0]] + p[1..] == p;
    }
  }

  lemma {:induction false} SplitParts(token: string)
    ensures match SplitDot(token)
      case Some((p, s)) => token == p + "." + s && '.' !in p
      case None => '.' !in token
  {
    if token != "" && token[0] != '.' {
      SplitParts(token[1..]);
      assert token == [token[0]] + token[1..];
    }
  }

  /** `now` is the clock in whole seconds. */
  function Token(codec: Codec, email: string, version: int, now: int): string {
    var payload := codec.print_(Payload(email, now + TOKEN_TTL, version));
    Base64.Encode(payload) + "." + Base64.Encode(codec.mac(payload))
  }

  /** The account a token stands for, if it verifies now. */
  function Verified(codec: Codec, token: string, account: Option<Account>, now: int): Option<string> {
    match SplitDot(token)
    case None => None
    case Some((p, s)) =>
      var payload, sig := Base64.Decode(p), Base64.Decode(s);
      if payload.None? || sig.None? || sig.value != codec.mac(payload.value) then None
      else match codec.parse(payload.value)
        case None => None
        case Some(data) =>
          if data.exp < now || account.None? || account.value.email != data.sub || data.ver != account.value.version
          then None else Some(data.sub)
  }

  /**
   The token is made of two parts around its first dot: some bytes, and their keyed hash; the
   bytes say `e` until some time not past, at the version of the account, which is `e`'s.
   */
  ghost predicate Attests(codec: Codec, token: string, account: Option<Account>, now: int, e: string,
                          p: string, s: string, bytes: seq<byte>, d: Payload)
  {
    && token == p + "." + s && '.' !in p
    && Base64.Decode(p) == Some(bytes) && Base64.Decode(s) == Some(codec.mac(bytes))
    && codec.parse(bytes) == Some(d) && d.exp >= now && d.sub == e
    && account.Some? && account.value.email == e && account.value.version == d.ver
  }

  ghost predicate Attested(codec: Codec, token: string, account: Option<Account>, now: int, e: string) {
    exists p, s, bytes, d :: Attests(codec, token, account, now, e, p, s, bytes, d)
  }

  /** For every token whatever: it verifies exactly when it is signed, unexpired and of the account at its version. */
  lemma VerifiedExactly(codec: Codec, token: string, account: Option<Account>, now: int, e: string)
    ensures Verified(codec, token, account, now) == Some(e) <==> Attested(codec, token, account, now, e)
  {
    SplitParts(token);
    if Verified(codec, token, account, now) == Some(e) {
      var (p, s) := SplitDot(token).value;
      var bytes := Base64.Decode(p).value;
      assert Attests(codec, token, account, now, e, p, s, bytes, codec.parse(bytes).value);
    }
    if Attested(codec, token, account, now, e) {
      var p, s, bytes, d :| Attests(codec, token, account, now, e, p, s, bytes, d);
      SplitFirst(p, s);
    }
  }

  /** So a token whose second part is not the keyed hash of its first is refused. */
  lemma UnsignedRefused(codec: Codec, p: string, s: string, account: Option<Account>, now: int)
    requires '.' !in p
    requires Base64.Decode(p).Some? ==> Base64.Decode(s) != Some(codec.mac(Base64.Decode(p).value))
    ensures Verified(codec, p + "." + s, account, now).None?
  {
    SplitFirst(p, s);
  }

  /** An issued token verifies exactly while it is unexpired and the account is the same, at the same version. */
  lemma IssuedVerifies(codec: Codec, email: string, version: int, issued: int, account: Option<Account>, now: int)
    requires codec.ReadsBack()
    ensures Verified(codec, Token(codec, email, version, issued), account, now) ==
      if now <= issued + 43_200 && account.Some? && account.value.email == email && account.value.version == version
      then Some(email) else None
  {
    var payload := codec.print_(Payload(email, issued + TOKEN_TTL, version));
    Base64.RoundTrip(payload);
    Base64.RoundTrip(codec.mac(payload));
    SplitFirst(Base64.Encode(payload), Base64.Encode(codec.mac(payload)));
  }

  // ---- the account over time ----

  datatype Event =
    | Register(email: string, passwordHash: string)
    | Issue                                             // a successful login
    | ChangePassword(currentHash: string, newHash: string, longEnough: bool)
    | SignOutEverywhere
    | Tick(seconds: nat)

  /** `issued` records every token handed out, with when and at what version; `bumps` counts version changes. */
  datatype Issued = Issued(token: string, email: string, at: int, version: int, bumps: nat)

  datatype State = State(account: Option<Account>, now: int, issued: seq<Issued>, bumps: nat)

  function Handed(codec: Codec, s: State): State
    requires s.account.Some?
  {
    var a := s.account.value;
    s.(issued := s.issued + [Issued(Token(codec, a.email, a.version, s.now), a.email, s.now, a.version, s.bumps)])
  }

  function Bumped(s: State, passwordHash: string): State
    requires s.account.Some?
  {
    s.(account := Some(s.account.value.(version := s.account.value.version + 1, passwordHash := passwordHash)),
       bumps := s.bumps + 1)
  }

  function Step(codec: Codec, s: State, e: Event): State {
    match e
    case Register(email, passwordHash) =>
      if s.account.Some? then s else Handed(codec, s.(account := Some(Account(email, passwordHash, 0))))
    case Issue => if s.account.Some? then Handed(codec, s) else s
    case ChangePassword(currentHash, newHash, longEnough) =>
      if s.account.None? || currentHash != s.account.value.passwordHash || !longEnough then s
      else Handed(codec, Bumped(s, newHash))
    case SignOutEverywhere => if s.account.None? then s else Bumped(s, s.account.value.passwordHash)
    case Tick(seconds) => s.(now := s.now + seconds)
  }

  function Run(codec: Codec, s: State, events: seq<Event>): State
    decreases |events|
  {
    if events == [] then s else Run(codec, Step(codec, s, events[0]), events[1..])
  }

  function Start(now: int): State {
    State(None, now, [], 0)
  }

  /** Every token handed out belongs to the account, and its version is as far behind as there were bumps since. */
  ghost predicate InStep(codec: Codec, s: State, t: Issued) {
    && s.account.Some? && t.email == s.account.value.email
    && t.token == Token(codec, t.email, t.version, t.at)
    && t.at <= s.now && t.bumps <= s.bumps
    && s.account.value.version - t.version == s.bumps - t.bumps
  }

  ghost predicate Inv(codec: Codec, s: State) {
    forall k :: 0 <= k < |s.issued| ==> InStep(codec, s, s.issued[k])
  }

  lemma HandedKeepsInv(codec: Codec, s: State)
    requires Inv(codec, s) && s.account.Some?
    ensures Inv(codec, Handed(codec, s))
  {
    var s' := Handed(codec, s);
    forall k | 0 <= k < |s'.issued| ensures InStep(codec, s', s'.issued[k]) {
      assert k < |s.issued| ==> s'.issued[k] == s.issued[k] && InStep(codec, s, s.issued[k]);
    }
  }

  lemma BumpedKeepsInv(codec: Codec, s: State, passwordHash: string)
    requires Inv(codec, s) && s.account.Some?
    ensures Inv(codec, Bumped(s, passwordHash))
  {
    var s' := Bumped(s, passwordHash);
    forall k | 0 <= k < |s'.issued| ensures InStep(codec, s', s'.issued[k]) {
      assert InStep(codec, s, s.issued[k]);
    }
  }

  lemma NoneIssued(codec: Codec, s: State)
    requires Inv(codec, s)
    ensures s.account.None? ==> s.issued == []
  {
    assert s.issued != [] ==> InStep(codec, s, s.issued[0]);
  }

  lemma StepKeepsInv(codec: Codec, s: State, e: Event)
    requires Inv(codec, s)
    ensures Inv(codec, Step(codec, s, e))
  {
    match e
    case Register(email, passwordHash) =>
      if s.account.None? {
        NoneIssued(codec, s);
        HandedKeepsInv(codec, s.(account := Some(Account(email, passwordHash, 0))));
      }
    case Issue =>
      if s.account.Some? {
        HandedKeepsInv(codec, s);
      }
    case ChangePassword(currentHash, newHash, longEnough) =>
      if s.account.Some? {
        BumpedKeepsInv(codec, s, newHash);
        HandedKeepsInv(codec, Bumped(s, newHash));
      }
    case SignOutEverywhere =>
      if s.account.Some? {
        BumpedKeepsInv(codec, s, s.account.value.passwordHash);
      }
    case Tick(seconds) =>
      forall k | 0 <= k < |s.issued| ensures InStep(codec, s.(now := s.now + seconds), s.issued[k]) {
        assert InStep(codec, s, s.issued[k]);
      }
  }

  lemma {:induction false} RunKeepsInv(codec: Codec, s: State, events: seq<Event>)
    requires Inv(codec, s)
    ensures Inv(codec, Run(codec, s, events))
    decreases |events|
  {
    if events != [] {
      StepKeepsInv(codec, s, events[0]);
      RunKeepsInv(codec, Step(codec, s, events[0]), events[1..]);
    }
  }

  lemma VerifiesNow(codec: Codec, s: State, k: nat)
    requires codec.ReadsBack() && Inv(codec, s) && k < |s.issued|
    ensures var t := s.issued[k];
      Verified(codec, t.token, s.account, s.now) ==
        if s.now <= t.at + 43_200 && s.bumps == t.bumps then Some(t.email) else None
  {
    var t := s.issued[k];
    assert InStep(codec, s, t);
    IssuedVerifies(codec, t.email, t.version, t.at, s.account, s.now);
  }

  /**
   Over every run, a token handed out verifies exactly while it is unexpired and no
   password change or sign-out has happened since.
   */
  lemma VerifiesUntilRevoked(codec: Codec, now: int, events: seq<Event>, k: nat)
    requires codec.ReadsBack() && k < |Run(codec, Start(now), events).issued|
    ensures var s := Run(codec, Start(now), events); var t := s.issued[k];
      Verified(codec, t.token, s.account, s.now) ==
        if s.now <= t.at + 43_200 && s.bumps == t.bumps then Some(t.email) else None
  {
    RunKeepsInv(codec, Start(now), events);
    VerifiesNow(codec, Run(codec, Start(now), events), k);
  }

  lemma {:induction false} RunGoesOn(codec: Codec, s: State, events: seq<Event>)
    ensures var s' := Run(codec, s, events);
      s.issued <= s'.issued && s.bumps <= s'.bumps && s.now <= s'.now
    decreases |events|
  {
    if events != [] {
      RunGoesOn(codec, Step(codec, s, events[0]), events[1..]);
    }
  }

  /** Signing out everywhere stops every token handed out so far. */
  lemma SignedOut(codec: Codec, s: State, k: nat)
    requires codec.ReadsBack() && Inv(codec, s) && k < |s.issued|
    ensures var s' := Step(codec, s, SignOutEverywhere);
      s'.issued == s.issued && Verified(codec, s.issued[k].token, s'.account, s'.now).None?
  {
    StepKeepsInv(codec, s, SignOutEverywhere);
    assert InStep(codec, s, s.issued[k]);
    VerifiesNow(codec, Step(codec, s, SignOutEverywhere), k);
  }

  /** A password change stops every older token, hands out one that verifies, and only the new password counts from then on. */
  lemma PasswordChanged(codec: Codec, s: State, newHash: string)
    requires codec.ReadsBack() && Inv(codec, s) && s.account.Some?
    ensures var s' := Step(codec, s, ChangePassword(s.account.value.passwordHash, newHash, true)); var n := |s.issued|;
      && s'.account.Some? && s'.account.value.email == s.account.value.email && s'.account.value.passwordHash == newHash
      && |s'.issued| == n + 1 && s'.issued[..n] == s.issued
      && Verified(codec, s'.issued[n].token, s'.account, s'.now) == Some(s.account.value.email)
      && forall k :: 0 <= k < n ==> Verified(codec, s.issued[k].token, s'.account, s'.now).None?
  {
    var e := ChangePassword(s.account.value.passwordHash, newHash, true);
    var s', n := Step(codec, s, e), |s.issued|;
    StepKeepsInv(codec, s, e);
    VerifiesNow(codec, s', n);
    forall k | 0 <= k < n ensures Verified(codec, s.issued[k].token, s'.account, s'.now).None? {
      assert InStep(codec, s, s.issued[k]);
      assert s'.issued[k] == s.issued[k];
      VerifiesNow(codec, s', k);
    }
  }

  /** A login hands out a token that verifies. */
  lemma LoggedIn(codec: Codec, s: State)
    requires codec.ReadsBack() && Inv(codec, s) && s.account.Some?
    ensures var s' := Step(codec, s, Issue); var n := |s.issued|;
      |s'.issued| == n + 1 && Verified(codec, s'.issued[n].token, s'.account, s'.now) == Some(s.account.value.email)
  {
    StepKeepsInv(codec, s, Issue);
    VerifiesNow(codec, Step(codec, s, Issue), |s.issued|);
  }

  /** A token that has stopped verifying never verifies again, whatever follows. */
  lemma RevokedForGood(codec: Codec, s: State, events: seq<Event>, k: nat)
    requires codec.ReadsBack() && Inv(codec, s)
    requires k < |s.issued| && Verified(codec, s.issued[k].token, s.account, s.now).None?
    ensures var s' := Run(codec, s, events);
      k < |s'.issued| && s'.issued[k] == s.issued[k] && Verified(codec, s.issued[k].token, s'.account, s'.now).None?
  {
    var s' := Run(codec, s, events);
    VerifiesNow(codec, s, k);
    RunKeepsInv(codec, s, events);
    RunGoesOn(codec, s, events);
    VerifiesNow(codec, s', k);
  }

  /** The saved account, updated in place. */
  class Auth {
    const codec: Codec
    var account: Option<Account>
    var now: int
    ghost var issued: seq<Issued>
    ghost var bumps: nat

    constructor (codec: Codec, now: int)
      ensures this.codec == codec && View() == Start(now)
    {
      this.codec := codec;
      this.now := now;
      account, issued, bumps := None, [], 0;
    }

    ghost function View(): State
      reads this
    {
      State(account, now, issued, bumps)
    }

    method IssueToken() returns (token: string)
      requires account.Some?
      modifies this`issued
      ensures View() == Handed(codec, old(View()))
      ensures token == issued[|issued| - 1].token
    {
      var payload := codec.print_(Payload(account.value.email, now + TOKEN_TTL, account.value.version));
      token := Base64.Encode(payload) + "." + Base64.Encode(codec.mac(payload));
      issued := issued + [Issued(token, account.value.email, now, account.value.version, bumps)];
    }

    /** The status and, when the change is made, a fresh token; every older one stops verifying. */
    method ChangePassword(email: string, currentHash: string, newHash: string, longEnough: bool)
      returns (status: int, token: string)
      modifies this
      ensures status == if old(account).None? || old(account).value.email != email then 401
                        else if currentHash != old(account).value.passwordHash then 403
                        else if !longEnough then 422 else 200
      ensures View() == if status == 401 then old(View())
                        else Step(codec, old(View()), Event.ChangePassword(currentHash, newHash, longEnough))
      ensures status == 200 ==> token == issued[|issued| - 1].token
      ensures status == 200 ==>
        account == Some(old(account).value.(passwordHash := newHash, version := old(account).value.version + 1))
      ensures status != 200 ==> account == old(account)
    {
      token := "";
      if account.None? || account.value.email != email {
        return 401, token;
      }
      if currentHash != account.value.passwordHash {
        return 403, token;
      }
      if !longEnough {
        return 422, token;
      }
      account := Some(account.value.(passwordHash := newHash, version := account.value.version + 1));
      bumps := bumps + 1;
      token := IssueToken();
      return 200, token;
    }

    method RevokeSessions()
      modifies this`account, this`bumps
      ensures View() == Step(codec, old(View()), SignOutEverywhere)
      ensures account == match old(account)
        case Some(a) => Some(a.(version := a.version + 1))
        case None => None
    {
      if account.None? {
        return;
      }
      account := Some(account.value.(version := account.value.version + 1));
      bumps := bumps + 1;
    }

    method VerifyToken(token: string) returns (sub: Option<string>)
      ensures sub == Verified(codec, token, account, now)
      ensures forall e :: sub == Some(e) <==> Attested(codec, token, account, now, e)
    {
      forall e ensures Verified(codec, token, account, now) == Some(e) <==> Attested(codec, token, account, now, e) {
        VerifiedExactly(codec, token, account, now, e);
      }
      var parts := SplitDot(token);
      if parts.None? {
        return None;
      }
      var payload, sig := Base64.Decode(parts.value.0), Base64.Decode(parts.value.1);
      if payload.None? || sig.None? || sig.value != codec.mac(payload.value) {
        return None;
      }
      var data := codec.parse(payload.value);
      if data.None? || data.value.exp < now {
        return None;
      }
      if account.None? || account.value.email != data.value.sub || data.value.ver != account.value.version {
        return None;
      }
      return Some(data.value.sub);
    }
  }
}
