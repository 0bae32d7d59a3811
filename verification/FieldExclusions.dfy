/** The controls of a field exclusion, for whatever was chosen and typed in the guided builder. */
module FieldExclusions {
  import opened Lines
  import opened Exclusions
  import opened FreeText
  import opened ExclusionBuilder

  function BuilderTargets(lower: Lower, b: Builder): seq<string> {
    Dedup(Targets(lower, b.requestFields))
  }

  // ---- what the chosen values are read back as ----

  function ReadIds(b: Builder): seq<string> {
    SplitValues(JoinLines(BuilderRuleIds(b)))
  }

  function ReadTags(b: Builder): seq<string> {
    SplitValues(JoinLines(BuilderTags(b)))
  }

  function ReadTargets(lower: Lower, b: Builder): seq<string> {
    SplitValues(JoinLines(BuilderTargets(lower, b)))
  }

  lemma BuilderParts(lower: Lower, b: Builder)
    requires !b.detections
    ensures Controls(BuilderToFields(lower, b)) ==
      Cross(RuleControl, ReadIds(b), ReadTargets(lower, b)) + Cross(TagControl, ReadTags(b), ReadTargets(lower, b))
  {
    var ids, tags, text := BuilderRuleIds(b), BuilderTags(b), JoinLines(BuilderTargets(lower, b));
    ControlsParts(OneGroup(ids, text), OneGroup(tags, text));
    OneGroupCross(RuleControl, ids, text);
    OneGroupCross(TagControl, tags, text);
  }

  /** A field exclusion controls each selector read back with each target read back, and nothing else. */
  lemma BuilderCross(lower: Lower, b: Builder, c: Control)
    requires !b.detections
    ensures c in Controls(BuilderToFields(lower, b)) <==>
      || (exists s, t :: s in ReadIds(b) && t in ReadTargets(lower, b) && c == RuleControl(s, t))
      || (exists s, t :: s in ReadTags(b) && t in ReadTargets(lower, b) && c == TagControl(s, t))
  {
    BuilderParts(lower, b);
    CrossMembers(RuleControl, ReadIds(b), ReadTargets(lower, b), c);
    CrossMembers(TagControl, ReadTags(b), ReadTargets(lower, b), c);
  }

  // ---- repeats ----

  lemma CrossRepeats(mk: Maker, selectors: seq<string>, targets: seq<string>)
    requires mk == RuleControl || mk == TagControl
    requires Distinct(selectors) && Apart(mk)
    ensures Distinct(Cross(mk, selectors, targets)) <==> selectors == [] || Distinct(Normalized(targets))
  {
    CrossDistinct(mk, selectors, targets);
    forall s | s in selectors
      ensures Distinct(Row(mk, s, targets)) <==> Distinct(Normalized(targets))
    {
      RowDistinct(s, targets);
    }
    if selectors != [] {
      assert selectors[0] in selectors;
    }
  }

  lemma KindsApart(ids: seq<string>, tags: seq<string>, targets: seq<string>, targets': seq<string>)
    ensures forall k :: 0 <= k < |Cross(RuleControl, ids, targets)| ==>
      Cross(RuleControl, ids, targets)[k].RuleTarget? && Cross(RuleControl, ids, targets)[k] !in Cross(TagControl, tags, targets')
  {
    var rules := Cross(RuleControl, ids, targets);
    forall k | 0 <= k < |rules| ensures rules[k].RuleTarget? && rules[k] !in Cross(TagControl, tags, targets') {
      CrossMembers(RuleControl, ids, targets, rules[k]);
      CrossMembers(TagControl, tags, targets', rules[k]);
    }
  }

  /**
   No control is built twice exactly when no two of the targets read back become one by
   clipping and completion, or there is no selector.
   */
  lemma BuilderDistinct(lower: Lower, b: Builder)
    requires !b.detections
    ensures Distinct(Controls(BuilderToFields(lower, b))) <==>
      (ReadIds(b) == [] && ReadTags(b) == []) || Distinct(Normalized(ReadTargets(lower, b)))
  {
    var ids, tags, targets := ReadIds(b), ReadTags(b), ReadTargets(lower, b);
    BuilderParts(lower, b);
    SplitCanon(JoinLines(BuilderRuleIds(b)));
    SplitCanon(JoinLines(BuilderTags(b)));
    KindsApart(ids, tags, targets, targets);
    DistinctConcat(Cross(RuleControl, ids, targets), Cross(TagControl, tags, targets));
    CrossRepeats(RuleControl, ids, targets);
    CrossRepeats(TagControl, tags, targets);
  }

  // ---- when they are the controls of the chosen values ----

  /** Each chosen selector with each chosen target. */
  function ChosenControls(lower: Lower, b: Builder): seq<Control> {
    Cross(RuleControl, BuilderRuleIds(b), BuilderTargets(lower, b)) + Cross(TagControl, BuilderTags(b), BuilderTargets(lower, b))
  }

  ghost predicate SameControls(a: seq<Control>, b: seq<Control>) {
    forall c :: c in a <==> c in b
  }

  /** The targets stand for the same parts of a request after being written and read back. */
  predicate TargetsSurvive(targets: seq<string>) {
    SameValues(Normalized(SplitValues(JoinLines(targets))), Normalized(targets))
  }

  /** Makers that tell apart selectors, and targets up to normalization, as both do. */
  ghost predicate Faithful(mk: Maker) {
    forall s1, t1, s2, t2 :: mk(s1, t1) == mk(s2, t2) <==> s1 == s2 && Normalize(t1) == Normalize(t2)
  }

  lemma NormalizedHas(targets: seq<string>, n: string)
    ensures n in Normalized(targets) <==> exists t :: t in targets && Normalize(t) == n
  {
    if t :| t in targets && Normalize(t) == n {
      var k :| 0 <= k < |targets| && targets[k] == t;
      assert Normalized(targets)[k] == n;
    }
  }

  /** A product within another one: so are its factors. */
  lemma FactorsWithin(mk: Maker, s: seq<string>, t: seq<string>, s': seq<string>, t': seq<string>)
    requires Faithful(mk) && s != [] && t != []
    requires forall c :: c in Cross(mk, s, t) ==> c in Cross(mk, s', t')
    ensures forall x :: x in s ==> x in s'
    ensures forall n :: n in Normalized(t) ==> n in Normalized(t')
  {
    forall x, y | x in s && y in t ensures x in s' && Normalize(y) in Normalized(t') {
      CrossMembers(mk, s, t, mk(x, y));
      CrossMembers(mk, s', t', mk(x, y));
      var x', y' :| x' in s' && y' in t' && mk(x, y) == mk(x', y');
      NormalizedHas(t', Normalize(y));
    }
    assert s[0] in s && t[0] in t;
    forall n | n in Normalized(t) ensures n in Normalized(t') {
      NormalizedHas(t, n);
    }
  }

  lemma ProductWithin(mk: Maker, s: seq<string>, t: seq<string>, s': seq<string>, t': seq<string>)
    requires Faithful(mk)
    requires (forall x :: x in s ==> x in s') && (forall n :: n in Normalized(t) ==> n in Normalized(t'))
    ensures forall c :: c in Cross(mk, s, t) ==> c in Cross(mk, s', t')
  {
    forall c | c in Cross(mk, s, t) ensures c in Cross(mk, s', t') {
      CrossMembers(mk, s, t, c);
      var x, y :| x in s && y in t && c == mk(x, y);
      NormalizedHas(t, Normalize(y));
      NormalizedHas(t', Normalize(y));
      var y' :| y' in t' && Normalize(y') == Normalize(y);
      assert mk(x, y') == mk(x, y);
      CrossMembers(mk, s', t', c);
    }
  }

  lemma SameEverywhere(a: seq<string>, b: seq<string>)
    ensures SameValues(a, b) <==> (forall x :: x in a ==> x in b) && (forall x :: x in b ==> x in a)
  {
    var left, right := set x | x in a, set x | x in b;
    if SameValues(a, b) {
      forall x ensures x in a <==> x in b {
        SameHas(a, b, x);
      }
    } else {
      assert left != right;
    }
  }

  /** The part of one kind: written and read back it is the same exactly when its values survive. */
  lemma PartSurvives(mk: Maker, s: seq<string>, t: seq<string>, s': seq<string>, t': seq<string>)
    requires Faithful(mk)
    requires s' == SplitValues(JoinLines(s)) && t' == SplitValues(JoinLines(t)) && (t != [] ==> t' != [])
    ensures SameControls(Cross(mk, s', t'), Cross(mk, s, t)) <==> s == [] || t == [] || (AllCanon(s) && TargetsSurvive(t))
  {
    EmptySplits();
    ReadBackExactly(s);
    SameEverywhere(Normalized(t'), Normalized(t));
    if s == [] || t == [] {
      CrossNoTargets(mk, s);
      CrossNoTargets(mk, s');
    } else if AllCanon(s) && TargetsSurvive(t) {
      ProductWithin(mk, s, t, s', t');
      ProductWithin(mk, s', t', s, t);
    } else if SameControls(Cross(mk, s', t'), Cross(mk, s, t)) {
      FactorsWithin(mk, s, t, s', t');
      assert s[0] in s';
      FactorsWithin(mk, s', t', s, t);
    }
  }

  lemma TwoKinds(rules: seq<Control>, tags: seq<Control>, rules': seq<Control>, tags': seq<Control>)
    requires forall c :: c in rules || c in rules' ==> c.RuleTarget?
    requires forall c :: c in tags || c in tags' ==> c.TagTarget?
    ensures SameControls(rules + tags, rules' + tags') <==> SameControls(rules, rules') && SameControls(tags, tags')
  {
    if SameControls(rules + tags, rules' + tags') {
      forall c ensures (c in rules <==> c in rules') && (c in tags <==> c in tags') {
        assert c in rules + tags <==> c in rules' + tags';
      }
    }
  }

  lemma KindOfCross(selectors: seq<string>, targets: seq<string>)
    ensures forall c :: c in Cross(RuleControl, selectors, targets) ==> c.RuleTarget?
    ensures forall c :: c in Cross(TagControl, selectors, targets) ==> c.TagTarget?
  {
    forall c | c in Cross(RuleControl, selectors, targets) ensures c.RuleTarget? {
      CrossMembers(RuleControl, selectors, targets, c);
    }
    forall c | c in Cross(TagControl, selectors, targets) ensures c.TagTarget? {
      CrossMembers(TagControl, selectors, targets, c);
    }
  }

  /** Every target starts with `request.`, so a list of them never reads as nothing. */
  lemma {:induction false} TargetsStart(lower: Lower, fields: seq<RequestField>)
    ensures forall k :: 0 <= k < |Targets(lower, fields)| ==> "request." <= Targets(lower, fields)[k]
  {
    if fields != [] {
      TargetsStart(lower, fields[1..]);
      assert "request." <= ARG && "request." <= HEADER && "request." <= COOKIE && "request." <= JSON && "request." <= BODY;
    }
  }

  lemma TargetsRead(lower: Lower, b: Builder)
    ensures forall t :: t in BuilderTargets(lower, b) ==> "request." <= t
    ensures BuilderTargets(lower, b) != [] ==> ReadTargets(lower, b) != []
  {
    var targets := BuilderTargets(lower, b);
    TargetsStart(lower, b.requestFields);
    if targets != [] {
      assert targets[0] in Targets(lower, b.requestFields);
      assert "request."[0] == targets[0][0];
      VisibleRead(targets);
    }
  }

  /**
   The controls built are those of the chosen values exactly when every selector is
   trimmed and holds no separators and the targets survive, or there is nothing to cross.
   */
  lemma BuiltAsChosen(lower: Lower, b: Builder)
    requires !b.detections
    ensures var ids, tags, targets := BuilderRuleIds(b), BuilderTags(b), BuilderTargets(lower, b);
      SameControls(Controls(BuilderToFields(lower, b)), ChosenControls(lower, b)) <==>
        targets == [] || (ids == [] && tags == []) || (AllCanon(ids) && AllCanon(tags) && TargetsSurvive(targets))
  {
    var ids, tags, targets := BuilderRuleIds(b), BuilderTags(b), BuilderTargets(lower, b);
    var ids', tags', targets' := ReadIds(b), ReadTags(b), ReadTargets(lower, b);
    BuilderParts(lower, b);
    TargetsRead(lower, b);
    KindOfCross(ids, targets);
    KindOfCross(tags, targets);
    KindOfCross(ids', targets');
    KindOfCross(tags', targets');
    TwoKinds(Cross(RuleControl, ids', targets'), Cross(TagControl, tags', targets'),
             Cross(RuleControl, ids, targets), Cross(TagControl, tags, targets));
    PartSurvives(RuleControl, ids, targets, ids', targets');
    PartSurvives(TagControl, tags, targets, tags', targets');
  }

  // ---- when targets survive ----

  lemma NormalizeUnseparated(t: string)
    requires Unseparated(t)
    ensures Unseparated(Normalize(t))
  {
    ClippedUnseparated(t);
    var clipped := Clipped(t);
    if clipped != "" && !("request." <= clipped) {
      assert Unseparated(ARG);
      assert Normalize(t) == ARG + clipped;
    }
  }

  lemma ClippedUnseparated(t: string)
    requires Unseparated(t)
    ensures Unseparated(Clipped(t))
  {
    TrimKeeps(t);
    var trimmed := Trim(t);
    forall k | 0 <= k < |trimmed| ensures !Separator(trimmed[k]) {
      assert trimmed[k] in t;
    }
  }

  lemma {:induction false} TrimKeepsStart(t: string, start: string)
    requires start <= t && start != "" && forall k :: 0 <= k < |start| ==> !IsSpace(start[k])
    ensures start <= Trim(t)
    decreases |t|
  {
    assert t[0] == start[0];
    if IsSpace(t[|t| - 1]) {
      TrimKeepsStart(t[..|t| - 1], start);
    }
  }

  /** A target that normalization leaves alone is trimmed. */
  lemma NormalIsTrimmed(t: string)
    requires "request." <= t && Normalize(t) == t
    ensures Trim(t) == t
  {
    TrimKeeps(t);
    ClippedKeepsStart(t);
    assert Normalize(t) == Clipped(t);
  }

  lemma ClippedKeepsStart(t: string)
    requires "request." <= t
    ensures "request." <= Clipped(t)
  {
    TrimKeepsStart(t, "request.");
    var trimmed := Trim(t);
    if |trimmed| > MAX_TEXT {
      assert trimmed[..MAX_TEXT][..8] == trimmed[..8];
    }
  }

  lemma ReadHasNoSeparators(targets: seq<string>, n: string)
    requires n in Normalized(SplitValues(JoinLines(targets)))
    ensures Unseparated(n)
  {
    var back := SplitValues(JoinLines(targets));
    SplitCanon(JoinLines(targets));
    NormalizedHas(back, n);
    var t :| t in back && Normalize(t) == n;
    CanonUnseparated(t);
    NormalizeUnseparated(t);
  }

  lemma CanonUnseparated(t: string)
    requires Canon(t)
    ensures Unseparated(t)
  {
  }

  /** A separator that clipping leaves in a target is enough for it to be lost. */
  lemma SurvivorsUnseparated(targets: seq<string>)
    requires TargetsSurvive(targets)
    ensures forall t :: t in targets ==> Unseparated(Normalize(t))
  {
    var back := Normalized(SplitValues(JoinLines(targets)));
    SameEverywhere(back, Normalized(targets));
    forall t | t in targets ensures Unseparated(Normalize(t)) {
      NormalizedHas(targets, Normalize(t));
      ReadHasNoSeparators(targets, Normalize(t));
    }
  }

  lemma SeparatorLoses(targets: seq<string>, t: string)
    requires t in targets && !Unseparated(Normalize(t))
    ensures !TargetsSurvive(targets)
  {
    if TargetsSurvive(targets) {
      SurvivorsUnseparated(targets);
    }
  }

  lemma NormalizeTrimmed(t: string)
    ensures Normalize(Trim(t)) == Normalize(t)
  {
    TrimKeeps(t);
  }

  /** Without separators all targets survive, however long. */
  lemma UnseparatedSurvive(targets: seq<string>)
    requires forall k :: 0 <= k < |targets| ==> Unseparated(targets[k]) && !Blank(targets[k])
    ensures TargetsSurvive(targets)
  {
    SplitUnseparated(targets);
    SameEverywhere(Normalized(Dedup(Trimmed(targets))), Normalized(targets));
    forall n ensures n in Normalized(Dedup(Trimmed(targets))) <==> n in Normalized(targets) {
      TrimmedStandFor(targets, n);
    }
  }

  lemma TrimmedStandFor(targets: seq<string>, n: string)
    ensures n in Normalized(Dedup(Trimmed(targets))) <==> n in Normalized(targets)
  {
    var back := Trimmed(targets);
    NormalizedHas(Dedup(back), n);
    NormalizedHas(targets, n);
    if t :| t in targets && Normalize(t) == n {
      var k :| 0 <= k < |targets| && targets[k] == t;
      NormalizeTrimmed(t);
      assert back[k] in Dedup(back);
    }
    if t :| t in Dedup(back) && Normalize(t) == n {
      var k :| 0 <= k < |targets| && back[k] == t;
      NormalizeTrimmed(targets[k]);
    }
  }

  /** For targets short enough not to be clipped: they survive exactly when none holds a separator. */
  lemma ShortTargetsSurvive(targets: seq<string>)
    requires forall k :: 0 <= k < |targets| ==> "request." <= targets[k] && Normalize(targets[k]) == targets[k]
    ensures TargetsSurvive(targets) <==> AllCanon(targets)
  {
    forall k | 0 <= k < |targets| ensures Canon(targets[k]) <==> Unseparated(targets[k]) {
      NormalIsTrimmed(targets[k]);
    }
    if TargetsSurvive(targets) {
      SurvivorsUnseparated(targets);
      forall k | 0 <= k < |targets| ensures Canon(targets[k]) {
        assert targets[k] in targets;
      }
    }
    if AllCanon(targets) {
      forall k | 0 <= k < |targets| ensures Unseparated(targets[k]) && !Blank(targets[k]) {
        TrimBlank(targets[k]);
      }
      UnseparatedSurvive(targets);
    }
  }

  /**
   So when no target is long enough to be clipped, the controls are those of the chosen
   values exactly when no chosen value holds a comma, a newline or outer white space.
   */
  lemma ShortBuiltAsChosen(lower: Lower, b: Builder)
    requires !b.detections && forall k :: 0 <= k < |BuilderTargets(lower, b)| ==>
      Normalize(BuilderTargets(lower, b)[k]) == BuilderTargets(lower, b)[k]
    ensures var ids, tags, targets := BuilderRuleIds(b), BuilderTags(b), BuilderTargets(lower, b);
      SameControls(Controls(BuilderToFields(lower, b)), ChosenControls(lower, b)) <==>
        targets == [] || (ids == [] && tags == []) || (AllCanon(ids) && AllCanon(tags) && AllCanon(targets))
  {
    var targets := BuilderTargets(lower, b);
    TargetsRead(lower, b);
    assert forall k :: 0 <= k < |targets| ==> targets[k] in targets;
    ShortTargetsSurvive(targets);
    BuiltAsChosen(lower, b);
  }

  // ---- inputs for which they are not ----

  function ParametersBuilder(id: string, x: string, y: string): Builder {
    Builder(false, false, [id], [], "", "", [RequestField(Parameter, x), RequestField(Parameter, y)])
  }

  lemma TwoParameters(lower: Lower, x: string, y: string)
    requires Clipped(x) == x && Clipped(y) == y && x != "" && y != ""
    ensures Targets(lower, [RequestField(Parameter, x), RequestField(Parameter, y)]) == [ARG + x, ARG + y]
  {
    var fields := [RequestField(Parameter, x), RequestField(Parameter, y)];
    assert fields[1..] == [RequestField(Parameter, y)];
    assert fields[1..][1..] == [];
    assert Targets(lower, fields[1..]) == [ARG + y];
  }

  lemma ChosenTargets(lower: Lower, id: string, x: string, y: string)
    requires Clipped(x) == x && Clipped(y) == y && x != y && x != "" && y != ""
    ensures BuilderTargets(lower, ParametersBuilder(id, x, y)) == [ARG + x, ARG + y]
  {
    TwoParameters(lower, x, y);
    DedupPair(ARG + x, ARG + y) by {
      assert (ARG + x)[|ARG|..] == x && (ARG + y)[|ARG|..] == y;
    }
  }

  lemma DedupPair(s: string, t: string)
    requires s != t
    ensures Dedup([s, t]) == [s, t]
  {
    DedupDistinct([s, t]);
  }

  lemma ChosenSelectors(id: string, x: string, y: string)
    ensures BuilderRuleIds(ParametersBuilder(id, x, y)) == [id] && BuilderTags(ParametersBuilder(id, x, y)) == []
  {
    EmptySplits();
    assert [id] + [] == [id];
    DedupDistinct([id]);
    DedupDistinct([]);
  }

  lemma OneSelectorRead(id: string, x: string, y: string)
    requires Canon(id)
    ensures ReadIds(ParametersBuilder(id, x, y)) == [id]
  {
    ChosenSelectors(id, x, y);
    SplitJoin([id]);
    DedupDistinct([id]);
  }

  lemma RepeatedTargets(lower: Lower, b: Builder, i: nat, j: nat)
    requires !b.detections && ReadIds(b) != []
    requires i < j < |ReadTargets(lower, b)| && Normalize(ReadTargets(lower, b)[i]) == Normalize(ReadTargets(lower, b)[j])
    ensures !Distinct(Controls(BuilderToFields(lower, b)))
  {
    BuilderDistinct(lower, b);
    var names := Normalized(ReadTargets(lower, b));
    assert names[i] == names[j];
  }

  function LongName(last: char): string {
    seq(230, _ => 'a') + [last]
  }

  lemma LongNameFits(last: char)
    requires last == 'b' || last == 'c'
    ensures Clipped(LongName(last)) == LongName(last)
  {
  }

  lemma LongTarget(last: char)
    requires last == 'b' || last == 'c'
    ensures Canon(ARG + LongName(last))
    ensures Normalize(ARG + LongName(last)) == ARG + seq(222, _ => 'a')
  {
    var target := ARG + LongName(last);
    assert Trim(target) == target;
    assert forall k :: 0 <= k < |ARG| ==> ARG[k] != '\n' && ARG[k] != ',';
    assert target[..MAX_TEXT] == ARG + seq(222, _ => 'a');
    assert "request." <= ARG <= target[..MAX_TEXT];
  }

  lemma LongTargetsRead(lower: Lower)
    ensures ReadTargets(lower, ParametersBuilder("1", LongName('b'), LongName('c'))) == [ARG + LongName('b'), ARG + LongName('c')]
  {
    var x, y := LongName('b'), LongName('c');
    LongNameFits('b');
    LongNameFits('c');
    LongTarget('b');
    LongTarget('c');
    assert x[230] != y[230];
    ChosenTargets(lower, "1", x, y);
    SplitJoin([ARG + x, ARG + y]);
    DedupDistinct(BuilderTargets(lower, ParametersBuilder("1", x, y)));
  }

  /** Two long parameter names that differ in their last character only: the control is built twice. */
  lemma LongNamesRepeat(lower: Lower)
    ensures !Distinct(Controls(BuilderToFields(lower, ParametersBuilder("1", LongName('b'), LongName('c')))))
  {
    var b := ParametersBuilder("1", LongName('b'), LongName('c'));
    LongTargetsRead(lower);
    LongTarget('b');
    LongTarget('c');
    assert Trim("1") == "1";
    OneSelectorRead("1", LongName('b'), LongName('c'));
    RepeatedTargets(lower, b, 0, 1);
  }

  /** What a comma in a name does: it cuts the target in two, the second half a parameter of its own. */
  lemma CommaTargetsRead(lower: Lower)
    ensures BuilderTargets(lower, ParametersBuilder("1", "x,a", "a")) == [ARG + "x,a", ARG + "a"]
    ensures ReadTargets(lower, ParametersBuilder("1", "x,a", "a")) == [ARG + "x", "a", ARG + "a"]
  {
    assert Trim("x,a") == "x,a" && Trim("a") == "a";
    ChosenTargets(lower, "1", "x,a", "a");
    var text, read := JoinLines([ARG + "x,a", ARG + "a"]), [ARG + "x", "a", ARG + "a"];
    CommaCanon();
    CommaJoined();
    SplitUnified(text, read);
    assert |read[0]| == |ARG| + 1 && |read[1]| == 1;
    assert read[0][|ARG|] == 'x' && read[2][|ARG|] == 'a';
    DedupDistinct(read);
  }

  lemma CommaCanon()
    ensures AllCanon([ARG + "x", "a", ARG + "a"])
  {
    assert Unseparated(ARG);
    assert Trim(ARG + "x") == ARG + "x" && Trim(ARG + "a") == ARG + "a" && Trim("a") == "a";
  }

  lemma CommaJoined()
    ensures Unify(JoinLines([ARG + "x,a", ARG + "a"])) == JoinLines([ARG + "x", "a", ARG + "a"])
  {
    JoinTwo(ARG + "x,a", ARG + "a");
    JoinThree(ARG + "x", "a", ARG + "a");
    assert Unseparated(ARG);
  }

  lemma JoinTwo(x: string, y: string)
    ensures JoinLines([x, y]) == x + ['\n'] + y
  {
    assert [x, y][..1] == [x];
    assert Join([x], '\n') == x;
  }

  lemma JoinThree(x: string, y: string, z: string)
    ensures JoinLines([x, y, z]) == x + ['\n'] + y + ['\n'] + z
  {
    JoinTwo(x, y);
    assert [x, y, z][..2] == [x, y];
  }

  /** A comma in one of two short names: the control of the other is built twice. */
  lemma CommaRepeats(lower: Lower)
    ensures var b := ParametersBuilder("1", "x,a", "a");
      Distinct(Normalized(BuilderTargets(lower, b))) && !Distinct(Controls(BuilderToFields(lower, b)))
  {
    CommaTargetsRead(lower);
    CommaNormalized();
    assert Trim("1") == "1";
    OneSelectorRead("1", "x,a", "a");
    RepeatedTargets(lower, ParametersBuilder("1", "x,a", "a"), 1, 2);
  }

  /** ... and the controls are not those of the names chosen. */
  lemma CommaDiffers(lower: Lower)
    ensures var b := ParametersBuilder("1", "x,a", "a");
      !SameControls(Controls(BuilderToFields(lower, b)), ChosenControls(lower, b))
  {
    var b := ParametersBuilder("1", "x,a", "a");
    CommaTargetsRead(lower);
    CommaNormalized();
    assert BuilderTargets(lower, b)[0] == ARG + "x,a";
    SeparatorLoses(BuilderTargets(lower, b), ARG + "x,a");
    ChosenSelectors("1", "x,a", "a");
    BuiltAsChosen(lower, b);
  }

  lemma CommaNormalized()
    ensures Normalize(ARG + "x,a") == ARG + "x,a" && Normalize(ARG + "a") == ARG + "a" && Normalize("a") == ARG + "a"
    ensures Distinct(Normalized([ARG + "x,a", ARG + "a"])) && !Unseparated(ARG + "x,a")
  {
    assert (ARG + "x,a")[|ARG| + 1] == ',';
    assert "request." <= ARG <= ARG + "x,a";
    assert "request." <= ARG <= ARG + "a";
    assert Trim(ARG + "x,a") == ARG + "x,a" && Trim(ARG + "a") == ARG + "a" && Trim("a") == "a";
    assert (ARG + "x,a")[|ARG|] == 'x' && (ARG + "a")[|ARG|] == 'a';
  }
}
