/** What the free-text fields of an exclusion read as, whatever was typed. */
module FreeText {
  import opened Lines
  import opened Exclusions

  // ---- trimming ----

  predicate Blank(s: string) {
    forall k :: 0 <= k < |s| ==> IsSpace(s[k])
  }

  lemma {:induction false} TrimBlank(s: string)
    ensures Trim(s) == "" <==> Blank(s)
    decreases |s|
  {
    if s != "" && IsSpace(s[0]) {
      TrimBlank(s[1..]);
      assert s == [s[0]] + s[1..];
    } else if s != "" && IsSpace(s[|s| - 1]) {
      TrimBlank(s[..|s| - 1]);
      assert s == s[..|s| - 1] + [s[|s| - 1]];
    }
  }

  /** Trimming takes characters off the ends only, and trims all it can. */
  lemma {:induction false} TrimKeeps(s: string)
    ensures |Trim(s)| <= |s| && (forall c :: c in Trim(s) ==> c in s)
    ensures Trim(Trim(s)) == Trim(s)
    decreases |s|
  {
    if s != "" && IsSpace(s[0]) {
      TrimKeeps(s[1..]);
    } else if s != "" && IsSpace(s[|s| - 1]) {
      TrimKeeps(s[..|s| - 1]);
    }
  }

  /** What trimming leaves: the text between the first and the last character that is not white space. */
  lemma TrimEdges(s: string) returns (i: nat, j: nat)
    ensures i <= j <= |s| && Trim(s) == s[i..j] && Blank(s[..i]) && Blank(s[j..])
    ensures i < j ==> !IsSpace(s[i]) && !IsSpace(s[j - 1])
  {
    assert s[0..|s|] == s;
    i, j := TrimBetween(s, 0, |s|);
  }

  lemma {:induction false} TrimBetween(s: string, lo: nat, hi: nat) returns (i: nat, j: nat)
    requires lo <= hi <= |s|
    ensures lo <= i <= j <= hi && Trim(s[lo..hi]) == s[i..j]
    ensures forall k :: lo <= k < i || j <= k < hi ==> IsSpace(s[k])
    ensures i < j ==> !IsSpace(s[i]) && !IsSpace(s[j - 1])
    decreases hi - lo
  {
    i, j := lo, hi;
    if lo < hi && IsSpace(s[lo]) {
      assert s[lo..hi][1..] == s[lo + 1..hi];
      i, j := TrimBetween(s, lo + 1, hi);
    } else if lo < hi && IsSpace(s[hi - 1]) {
      assert s[lo..hi][..hi - lo - 1] == s[lo..hi - 1];
      i, j := TrimBetween(s, lo, hi - 1);
    }
  }

  predicate FirstAt(xs: seq<string>, x: string, i: nat) {
    i < |xs| && xs[i] == x && forall j :: 0 <= j < i ==> xs[j] != x
  }

  /** The repeats that are dropped are later ones, and the order stays. */
  lemma {:induction false} DedupOrder(xs: seq<string>) returns (at: seq<nat>)
    ensures |at| == |Dedup(xs)| && forall k :: 0 <= k < |at| ==> FirstAt(xs, Dedup(xs)[k], at[k])
    ensures forall i, k :: 0 <= i < k < |at| ==> at[i] < at[k]
  {
    at := [];
    if xs != [] {
      var n := |xs| - 1;
      var init := xs[..n];
      at := DedupOrder(init);
      if xs[n] !in Dedup(init) {
        assert Dedup(xs) == Dedup(init) + [xs[n]];
        assert FirstAt(xs, xs[n], n);
        at := at + [n];
      }
      forall k | 0 <= k < |Dedup(init)| ensures FirstAt(xs, Dedup(xs)[k], at[k]) {
        assert FirstAt(init, Dedup(init)[k], at[k]);
      }
    }
  }

  // ---- what the controls are, for any fields ----

  /** `u`, as read from a field, names this target: its first 240 characters, and a bare name a parameter's value. */
  predicate Names(u: string, target: string) {
    var clipped := if |u| <= 240 then u else u[..240];
    target == if "request." <= clipped then clipped else "request.arg.value:" + clipped
  }

  /** One group pairs this selector with this target. */
  predicate Pairs(g: Group, selector: string, target: string) {
    selector in SplitValues(g.selectors) && exists u :: u in SplitValues(g.targets) && Names(u, target)
  }

  lemma ReadTargets(text: string)
    ensures forall u :: u in SplitValues(text) ==> Names(u, Normalize(u))
  {
    SplitCanon(text);
    forall u | u in SplitValues(text) ensures Names(u, Normalize(u)) {
      assert Canon(u);
    }
  }

  lemma GroupPairs(g: Group, selector: string, target: string)
    ensures RuleTarget(selector, target) in Cross(RuleControl, GroupValues(g).0, GroupValues(g).1) <==> Pairs(g, selector, target)
    ensures TagTarget(selector, target) in Cross(TagControl, GroupValues(g).0, GroupValues(g).1) <==> Pairs(g, selector, target)
  {
    CrossMembers(RuleControl, GroupValues(g).0, GroupValues(g).1, RuleTarget(selector, target));
    CrossMembers(TagControl, GroupValues(g).0, GroupValues(g).1, TagTarget(selector, target));
    ReadTargets(g.targets);
    if Pairs(g, selector, target) {
      var u :| u in SplitValues(g.targets) && Names(u, target);
      assert RuleControl(selector, u) == RuleTarget(selector, target) && TagControl(selector, u) == TagTarget(selector, target);
    }
  }

  /** A group with neither selectors nor targets pairs nothing, so it does not matter that it is left out. */
  lemma UnpopulatedPairs(g: Group, selector: string, target: string)
    requires !Populated(g)
    ensures !Pairs(g, selector, target)
  {
    TrimBlank(g.selectors);
    SplitsToNothing(g.selectors);
  }

  predicate Makes(mk: Maker, g: Group, c: Control) {
    Populated(g) && c in Cross(mk, GroupValues(g).0, GroupValues(g).1)
  }

  lemma CrossAllMore(mk: Maker, groups: seq<(seq<string>, seq<string>)>, g: (seq<string>, seq<string>))
    ensures CrossAll(mk, groups + [g]) == CrossAll(mk, groups) + Cross(mk, g.0, g.1)
  {
    assert (groups + [g])[..|groups|] == groups;
  }

  lemma CrossAllStep(mk: Maker, init: seq<Group>, g: Group, c: Control)
    ensures c in CrossAll(mk, PopulatedGroups(init + [g])) <==> c in CrossAll(mk, PopulatedGroups(init)) || Makes(mk, g, c)
  {
    var all := init + [g];
    assert all[..|init|] == init && Last(all) == g;
    if Populated(g) {
      CrossAllMore(mk, PopulatedGroups(init), GroupValues(g));
    } else {
      assert PopulatedGroups(init) + [] == PopulatedGroups(init);
    }
  }

  lemma {:induction false} CrossAllHas(mk: Maker, groups: seq<Group>, c: Control)
    ensures c in CrossAll(mk, PopulatedGroups(groups)) <==> exists k :: 0 <= k < |groups| && Makes(mk, groups[k], c)
  {
    if groups != [] {
      var n := |groups| - 1;
      var init := groups[..n];
      CrossAllHas(mk, init, c);
      CrossAllStep(mk, init, groups[n], c);
      assert groups == init + [groups[n]];
    }
  }

  /** A selector is paired with a target exactly when one group does so. */
  lemma GroupsPair(groups: seq<Group>, selector: string, target: string)
    ensures RuleTarget(selector, target) in CrossAll(RuleControl, PopulatedGroups(groups)) <==>
      exists k :: 0 <= k < |groups| && Pairs(groups[k], selector, target)
    ensures TagTarget(selector, target) in CrossAll(TagControl, PopulatedGroups(groups)) <==>
      exists k :: 0 <= k < |groups| && Pairs(groups[k], selector, target)
  {
    var rule, tag := RuleTarget(selector, target), TagTarget(selector, target);
    CrossAllHas(RuleControl, groups, rule);
    CrossAllHas(TagControl, groups, tag);
    forall k | 0 <= k < |groups|
      ensures Pairs(groups[k], selector, target) <==> Makes(RuleControl, groups[k], rule)
      ensures Pairs(groups[k], selector, target) <==> Makes(TagControl, groups[k], tag)
    {
      GroupPairs(groups[k], selector, target);
      if !Populated(groups[k]) {
        UnpopulatedPairs(groups[k], selector, target);
      }
    }
  }

  /**
   The controls of a form, exactly: the rules and tags named for removal, and every selector with
   every target named in the same group.
   */
  lemma ControlsHave(f: Fields, selector: string, target: string)
    ensures RemoveRule(selector) in Controls(f) <==> selector in SplitValues(f.removeRuleIds)
    ensures RemoveByTag(selector) in Controls(f) <==> selector in SplitValues(f.removeTags)
    ensures RuleTarget(selector, target) in Controls(f) <==>
      exists k :: 0 <= k < |f.ruleGroups| && Pairs(f.ruleGroups[k], selector, target)
    ensures TagTarget(selector, target) in Controls(f) <==>
      exists k :: 0 <= k < |f.tagGroups| && Pairs(f.tagGroups[k], selector, target)
    ensures Malformed !in Controls(f)
  {
    InControls(f, RemoveRule(selector));
    InControls(f, RemoveByTag(selector));
    InControls(f, RuleTarget(selector, target));
    InControls(f, TagTarget(selector, target));
    InControls(f, Malformed);
    GroupsPair(f.ruleGroups, selector, target);
    GroupsPair(f.tagGroups, selector, target);
  }

  /** Each kind of control comes from its own part of the form. */
  lemma InControls(f: Fields, c: Control)
    ensures c in Controls(f) <==>
      match c
      case RemoveRule(id) => id in SplitValues(f.removeRuleIds)
      case RemoveByTag(tag) => tag in SplitValues(f.removeTags)
      case RuleTarget(_, _) => c in CrossAll(RuleControl, PopulatedGroups(f.ruleGroups))
      case TagTarget(_, _) => c in CrossAll(TagControl, PopulatedGroups(f.tagGroups))
      case Malformed => false
  {
    RuleRemovalsHave(SplitValues(f.removeRuleIds), c);
    TagRemovalsHave(SplitValues(f.removeTags), c);
    CrossesOnly(PopulatedGroups(f.ruleGroups));
    CrossesOnly(PopulatedGroups(f.tagGroups));
  }

  lemma RuleRemovalsHave(ids: seq<string>, c: Control)
    ensures c in seq(|ids|, k requires 0 <= k < |ids| => RemoveRule(ids[k])) <==> c.RemoveRule? && c.ruleId in ids
  {
    var rules := seq(|ids|, k requires 0 <= k < |ids| => RemoveRule(ids[k]));
    if c.RemoveRule? && c.ruleId in ids {
      var k :| 0 <= k < |ids| && ids[k] == c.ruleId;
      assert rules[k] == c;
    }
  }

  lemma TagRemovalsHave(tags: seq<string>, c: Control)
    ensures c in seq(|tags|, k requires 0 <= k < |tags| => RemoveByTag(tags[k])) <==> c.RemoveByTag? && c.tag in tags
  {
    var removals := seq(|tags|, k requires 0 <= k < |tags| => RemoveByTag(tags[k]));
    if c.RemoveByTag? && c.tag in tags {
      var k :| 0 <= k < |tags| && tags[k] == c.tag;
      assert removals[k] == c;
    }
  }

  lemma {:induction false} CrossesOnly(groups: seq<(seq<string>, seq<string>)>)
    ensures forall c :: c in CrossAll(RuleControl, groups) ==> c.RuleTarget?
    ensures forall c :: c in CrossAll(TagControl, groups) ==> c.TagTarget?
  {
    if groups != [] {
      CrossesOnly(groups[..|groups| - 1]);
      forall c ensures c in Cross(RuleControl, Last(groups).0, Last(groups).1) ==> c.RuleTarget? {
        CrossMembers(RuleControl, Last(groups).0, Last(groups).1, c);
      }
      forall c ensures c in Cross(TagControl, Last(groups).0, Last(groups).1) ==> c.TagTarget? {
        CrossMembers(TagControl, Last(groups).0, Last(groups).1, c);
      }
    }
  }

  // ---- pieces ----

  /** The pieces hold the characters of the text, but for the separators. */
  lemma {:induction false} PieceChars(s: string, c: char)
    requires c != '\n'
    ensures c in s <==> exists k :: 0 <= k < |Pieces(s, '\n')| && c in Pieces(s, '\n')[k]
  {
    if s != "" {
      var v := s[..|s| - 1];
      var p, q := Pieces(v, '\n'), Pieces(s, '\n');
      PieceChars(v, c);
      assert s == v + [Last(s)];
      assert forall k :: 0 <= k < |p| - 1 ==> q[k] == p[k];
      if c in v {
        var k :| 0 <= k < |p| && c in p[k];
        assert c in q[k];
      } else if c in s {
        assert c in q[|q| - 1];
      }
    }
  }

  predicate AllBlank(pieces: seq<string>) {
    forall k :: 0 <= k < |pieces| ==> Blank(pieces[k])
  }

  lemma AllBlankSnoc(init: seq<string>, last: string)
    ensures AllBlank(init + [last]) <==> AllBlank(init) && Blank(last)
  {
    var all := init + [last];
    if AllBlank(all) {
      assert all[|init|] == last;
      assert forall k :: 0 <= k < |init| ==> init[k] == all[k];
    }
  }

  lemma {:induction false} BlankDropped(pieces: seq<string>)
    ensures TrimmedNonEmpty(pieces) == [] <==> AllBlank(pieces)
  {
    if pieces != [] {
      var init, last := pieces[..|pieces| - 1], Last(pieces);
      BlankDropped(init);
      TrimBlank(last);
      AllBlankSnoc(init, last);
      assert pieces == init + [last];
    }
  }

  predicate Separator(c: char) {
    c == ',' || c == '\n'
  }

  predicate Unseparated(s: string) {
    forall k :: 0 <= k < |s| ==> !Separator(s[k])
  }

  /** A line break is white space too. */
  lemma BlankPieces(u: string)
    ensures AllBlank(Pieces(u, '\n')) <==> Blank(u)
  {
    var pieces := Pieces(u, '\n');
    assert IsSpace('\n');
    if !Blank(u) {
      var k :| 0 <= k < |u| && !IsSpace(u[k]);
      VisibleInPiece(u, u[k]);
    }
    if !AllBlank(pieces) {
      var i :| 0 <= i < |pieces| && !Blank(pieces[i]);
      var j :| 0 <= j < |pieces[i]| && !IsSpace(pieces[i][j]);
      var c := pieces[i][j];
      assert c in pieces[i];
      PieceChars(u, c);
      var k :| 0 <= k < |u| && u[k] == c;
    }
  }

  lemma VisibleInPiece(u: string, c: char)
    requires c in u && !IsSpace(c)
    ensures !AllBlank(Pieces(u, '\n'))
  {
    assert IsSpace('\n');
    PieceChars(u, c);
    var pieces := Pieces(u, '\n');
    var i :| 0 <= i < |pieces| && c in pieces[i];
    var j :| 0 <= j < |pieces[i]| && pieces[i][j] == c;
    assert !Blank(pieces[i]);
  }

  /** A field with nothing but separators and white space reads as no values, and no other does. */
  lemma SplitsToNothing(s: string)
    ensures SplitValues(s) == [] <==> forall k :: 0 <= k < |s| ==> IsSpace(s[k]) || s[k] == ','
  {
    var u := Unify(s);
    BlankDropped(Pieces(u, '\n'));
    DedupNothing(TrimmedNonEmpty(Pieces(u, '\n')));
    BlankPieces(u);
    assert forall k :: 0 <= k < |s| ==> (IsSpace(u[k]) <==> IsSpace(s[k]) || s[k] == ',');
  }

  lemma DedupNothing(xs: seq<string>)
    ensures Dedup(xs) == [] <==> xs == []
  {
    if xs != [] {
      assert xs[0] in Dedup(xs);
    }
  }

  // ---- every value read is canonical ----

  lemma UnifyPieces(s: string)
    ensures forall k :: 0 <= k < |Pieces(Unify(s), '\n')| ==> Unseparated(Pieces(Unify(s), '\n')[k])
  {
    var u := Unify(s);
    var pieces := Pieces(u, '\n');
    PiecesJoin(u, '\n');
    forall k | 0 <= k < |pieces| ensures Unseparated(pieces[k]) {
      forall j | 0 <= j < |pieces[k]| ensures !Separator(pieces[k][j]) {
        var c := pieces[k][j];
        assert c in pieces[k];
        PieceChars(u, c);
      }
    }
  }

  lemma {:induction false} TrimmedCanon(pieces: seq<string>)
    requires forall k :: 0 <= k < |pieces| ==> Unseparated(pieces[k])
    ensures AllCanon(TrimmedNonEmpty(pieces))
  {
    if pieces != [] {
      TrimmedCanon(pieces[..|pieces| - 1]);
      var last := Last(pieces);
      TrimKeeps(last);
      assert Unseparated(last);
    }
  }

  /** Whatever was typed, the values read are distinct, trimmed and free of separators. */
  lemma SplitCanon(s: string)
    ensures AllCanon(SplitValues(s)) && Distinct(SplitValues(s))
  {
    var kept := TrimmedNonEmpty(Pieces(Unify(s), '\n'));
    UnifyPieces(s);
    TrimmedCanon(Pieces(Unify(s), '\n'));
    forall k | 0 <= k < |Dedup(kept)| ensures Canon(Dedup(kept)[k]) {
      assert Dedup(kept)[k] in kept;
    }
  }

  /** Values written one a line are read back as the same set exactly when all of them are canonical. */
  lemma ReadBackExactly(xs: seq<string>)
    ensures (forall x :: x in SplitValues(JoinLines(xs)) <==> x in xs) <==> AllCanon(xs)
  {
    var back := SplitValues(JoinLines(xs));
    if AllCanon(xs) {
      SplitJoin(xs);
    } else {
      SplitCanon(JoinLines(xs));
      var k :| 0 <= k < |xs| && !Canon(xs[k]);
      assert xs[k] in xs && xs[k] !in back;
    }
  }

  /** Text that differs from canonical values, one a line, in its separators only. */
  lemma SplitUnified(s: string, xs: seq<string>)
    requires AllCanon(xs) && Unify(s) == JoinLines(xs)
    ensures SplitValues(s) == Dedup(xs)
  {
    SplitJoin(xs);
    assert Unify(Unify(s)) == Unify(s);
  }

  // ---- values that hold no separators ----

  function Trimmed(xs: seq<string>): (r: seq<string>)
    ensures |r| == |xs| && forall k :: 0 <= k < |r| ==> r[k] == Trim(xs[k])
  {
    seq(|xs|, k requires 0 <= k < |xs| => Trim(xs[k]))
  }

  lemma TrimmedSnoc(xs: seq<string>, x: string)
    ensures Trimmed(xs + [x]) == Trimmed(xs) + [Trim(x)]
  {
  }

  lemma {:induction false} TrimmedKept(xs: seq<string>)
    requires forall k :: 0 <= k < |xs| ==> !Blank(xs[k])
    ensures TrimmedNonEmpty(xs) == Trimmed(xs)
  {
    if xs != [] {
      var init, last := xs[..|xs| - 1], Last(xs);
      TrimmedKept(init);
      TrimBlank(last);
      TrimmedSnoc(init, last);
      assert xs == init + [last];
    }
  }

  lemma {:induction false} JoinUnseparated(xs: seq<string>)
    requires xs != [] && forall k :: 0 <= k < |xs| ==> Unseparated(xs[k])
    ensures ',' !in Join(xs, '\n')
  {
    if |xs| > 1 {
      JoinUnseparated(xs[..|xs| - 1]);
    }
  }

  /** Values without separators are read back trimmed. */
  lemma SplitUnseparated(xs: seq<string>)
    requires forall k :: 0 <= k < |xs| ==> Unseparated(xs[k]) && !Blank(xs[k])
    ensures SplitValues(JoinLines(xs)) == Dedup(Trimmed(xs))
  {
    if xs == [] {
      SplitJoin(xs);
    } else {
      var s := Join(xs, '\n');
      JoinUnseparated(xs);
      assert Unify(s) == s;
      PiecesOfJoin(xs);
      TrimmedKept(xs);
    }
  }

  lemma {:induction false} JoinHas(xs: seq<string>, k: nat, c: char)
    requires k < |xs| && c in xs[k]
    ensures c in JoinLines(xs)
  {
    var n := |xs| - 1;
    if n > 0 && k < n {
      JoinHas(xs[..n], k, c);
    }
  }

  /** A list with a visible value does not read as nothing. */
  lemma VisibleRead(xs: seq<string>)
    requires xs != [] && xs[0] != "" && !IsSpace(xs[0][0]) && xs[0][0] != ','
    ensures SplitValues(JoinLines(xs)) != []
  {
    SplitsToNothing(JoinLines(xs));
    JoinHas(xs, 0, xs[0][0]);
  }
}
