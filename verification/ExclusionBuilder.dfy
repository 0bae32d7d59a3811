/** From controls to fields to the guided builder, and back. */
module ExclusionBuilder {
  import opened Wrappers
  import opened Lines
  import opened Exclusions
  import opened FreeText

  // ---- controls to fields ----

  /** The fields before they are written out: each group a selector with its targets in order. */
  datatype Draft = Draft(ids: seq<string>, tags: seq<string>, ruleGroups: seq<Listed>, tagGroups: seq<Listed>)

  datatype Listed = Listed(selector: string, targets: seq<string>)

  const EMPTY := Draft([], [], [], [])

  /** The first group with this selector, or past the end. */
  function FindGroup(groups: seq<Listed>, selector: string): (i: nat)
    ensures i <= |groups|
    ensures i < |groups| ==> groups[i].selector == selector
    ensures forall k :: 0 <= k < i ==> groups[k].selector != selector
  {
    if groups == [] || groups[0].selector == selector then 0 else 1 + FindGroup(groups[1..], selector)
  }

  /** The target joins its selector's group, or opens one. */
  function AddTarget(groups: seq<Listed>, selector: string, target: string): seq<Listed> {
    var i := FindGroup(groups, selector);
    if i < |groups| then groups[i := Listed(selector, groups[i].targets + [target])]
    else groups + [Listed(selector, [target])]
  }

  function AddControl(d: Draft, c: Control): Option<Draft> {
    match c
    case RemoveRule(id) => if id != "" then Some(d.(ids := d.ids + [id])) else None
    case RemoveByTag(tag) => if tag != "" then Some(d.(tags := d.tags + [tag])) else None
    case RuleTarget(id, target) =>
      if id != "" && target != "" then Some(d.(ruleGroups := AddTarget(d.ruleGroups, id, target))) else None
    case TagTarget(tag, target) =>
      if tag != "" && target != "" then Some(d.(tagGroups := AddTarget(d.tagGroups, tag, target))) else None
    case Malformed => None
  }

  function DraftOf(controls: seq<Control>): Option<Draft> {
    if controls == [] then Some(EMPTY)
    else match DraftOf(controls[..|controls| - 1])
      case Some(d) => AddControl(d, Last(controls))
      case None => None
  }

  function Render(g: Listed): Group {
    Group(g.selector, JoinLines(g.targets))
  }

  function RenderAll(groups: seq<Listed>): (r: seq<Group>)
    ensures |r| == |groups| && forall k :: 0 <= k < |r| ==> r[k] == Render(groups[k])
  {
    seq(|groups|, k requires 0 <= k < |groups| => Render(groups[k]))
  }

  function FieldsOf(d: Draft): Fields {
    Fields(JoinLines(d.ids), JoinLines(d.tags), RenderAll(d.ruleGroups), RenderAll(d.tagGroups))
  }

  function FieldsFromControls(controls: seq<Control>): Option<Fields> {
    if controls == [] then None
    else match DraftOf(controls)
      case Some(d) => Some(FieldsOf(d))
      case None => None
  }

  lemma JoinMore(xs: seq<string>, x: string)
    requires xs != []
    ensures JoinLines(xs + [x]) == JoinLines(xs) + "\n" + x
  {
    assert (xs + [x])[..|xs|] == xs;
  }

  /** Appends to the targets of the first group with this selector, or pushes a new group. */
  method AppendGrouped(groups: seq<Group>, selector: string, target: string, ghost listed: seq<Listed>)
    returns (out: seq<Group>)
    requires groups == RenderAll(listed) && GroupsFilled(listed)
    ensures out == RenderAll(AddTarget(listed, selector, target))
  {
    var i := 0;
    while i < |groups| && groups[i].selectors != selector
      invariant i <= |groups|
      invariant forall k :: 0 <= k < i ==> listed[k].selector != selector
    {
      i := i + 1;
    }
    if i < |groups| {
      JoinMore(listed[i].targets, target);
      out := groups[i := Group(selector, groups[i].targets + "\n" + target)];
    } else {
      out := groups + [Group(selector, target)];
    }
  }

  ghost predicate GroupsFilled(groups: seq<Listed>) {
    forall k :: 0 <= k < |groups| ==> groups[k].targets != []
  }

  lemma AddTargetFilled(groups: seq<Listed>, selector: string, target: string)
    requires GroupsFilled(groups)
    ensures GroupsFilled(AddTarget(groups, selector, target))
  {
  }

  lemma AddControlGroups(d: Draft, c: Control)
    requires AddControl(d, c).Some? && GroupsFilled(d.ruleGroups) && GroupsFilled(d.tagGroups)
    ensures GroupsFilled(AddControl(d, c).value.ruleGroups) && GroupsFilled(AddControl(d, c).value.tagGroups)
  {
    match c
    case RuleTarget(id, target) => AddTargetFilled(d.ruleGroups, id, target);
    case TagTarget(tag, target) => AddTargetFilled(d.tagGroups, tag, target);
    case _ =>
  }

  method ExclusionFieldsFromControls(controls: seq<Control>) returns (f: Option<Fields>)
    ensures f == FieldsFromControls(controls)
  {
    if controls == [] {
      return None;
    }
    var ids: seq<string>, tags: seq<string> := [], [];
    var ruleGroups: seq<Group>, tagGroups: seq<Group> := [], [];
    ghost var d := EMPTY;
    for i := 0 to |controls|
      invariant DraftOf(controls[..i]) == Some(d)
      invariant ids == d.ids && tags == d.tags && ruleGroups == RenderAll(d.ruleGroups) && tagGroups == RenderAll(d.tagGroups)
      invariant GroupsFilled(d.ruleGroups) && GroupsFilled(d.tagGroups)
    {
      var control := controls[i];
      DraftStep(controls, i, d);
      if AddControl(d, control).None? {
        DraftStops(controls, i + 1);
      } else {
        AddControlGroups(d, control);
      }
      match control {
        case RemoveRule(id) =>
          if id == "" { return None; }
          ids := ids + [id];
        case RemoveByTag(tag) =>
          if tag == "" { return None; }
          tags := tags + [tag];
        case RuleTarget(id, target) =>
          if id == "" || target == "" { return None; }
          ruleGroups := AppendGrouped(ruleGroups, id, target, d.ruleGroups);
        case TagTarget(tag, target) =>
          if tag == "" || target == "" { return None; }
          tagGroups := AppendGrouped(tagGroups, tag, target, d.tagGroups);
        case Malformed => return None;
      }
      d := AddControl(d, control).value;
    }
    assert controls[..|controls|] == controls;
    f := Some(Fields(JoinLines(ids), JoinLines(tags), ruleGroups, tagGroups));
  }

  lemma DraftStep(controls: seq<Control>, i: nat, d: Draft)
    requires i < |controls| && DraftOf(controls[..i]) == Some(d)
    ensures DraftOf(controls[..i + 1]) == AddControl(d, controls[i])
  {
    assert controls[..i + 1][..i] == controls[..i];
  }

  lemma {:induction false} DraftStops(controls: seq<Control>, i: nat)
    requires i <= |controls| && DraftOf(controls[..i]).None?
    ensures DraftOf(controls).None?
    decreases |controls| - i
  {
    if i == |controls| {
      assert controls[..i] == controls;
    } else {
      assert controls[..i + 1][..i] == controls[..i];
      DraftStops(controls, i + 1);
    }
  }

  // ---- the builder ----

  datatype FieldType = Parameter | Header | Cookie | JsonField | Body

  datatype RequestField = RequestField(kind: FieldType, name: string)

  datatype Builder = Builder(
    detections: bool, allCrs: bool, selectedRuleIds: seq<string>, selectedTags: seq<string>,
    advancedRuleIds: string, advancedTags: string, requestFields: seq<RequestField>)

  const ALL_CRS := "OWASP_CRS"

  /** `lower` is JavaScript's lower-casing. */
  type Lower = string -> string

  function FieldToTarget(lower: Lower, f: RequestField): string {
    var name := Clipped(f.name);
    if f.kind == Body then BODY
    else if name == "" then ""
    else match f.kind
      case Parameter => ARG + name
      case Header => HEADER + lower(name)
      case Cookie => COOKIE + name
      case JsonField => JSON + name
      case Body => BODY
  }

  predicate Named(target: string, prefix: string) {
    prefix <= target && |target| > |prefix|
  }

  function FieldFromTarget(value: string): Option<RequestField> {
    var target := Clipped(value);
    if target == BODY then Some(RequestField(Body, ""))
    else if Named(target, ARG) then Some(RequestField(Parameter, target[|ARG|..]))
    else if Named(target, HEADER) then Some(RequestField(Header, target[|HEADER|..]))
    else if Named(target, COOKIE) then Some(RequestField(Cookie, target[|COOKIE|..]))
    else if Named(target, JSON) then Some(RequestField(JsonField, target[|JSON|..]))
    else None
  }

  function Targets(lower: Lower, fields: seq<RequestField>): seq<string> {
    if fields == [] then []
    else
      var t := FieldToTarget(lower, fields[0]);
      (if t == "" then [] else [t]) + Targets(lower, fields[1..])
  }

  function OneGroup(selectors: seq<string>, targetText: string): seq<Group> {
    if selectors != [] && targetText != "" then [Group(JoinLines(selectors), targetText)] else []
  }

  function BuilderRuleIds(b: Builder): seq<string> {
    Dedup(b.selectedRuleIds + SplitValues(b.advancedRuleIds))
  }

  function BuilderTags(b: Builder): seq<string> {
    Dedup((if b.allCrs then [ALL_CRS] else []) + b.selectedTags + SplitValues(b.advancedTags))
  }

  function BuilderToFields(lower: Lower, b: Builder): Fields {
    var ruleIds, tags := BuilderRuleIds(b), BuilderTags(b);
    if b.detections then Fields(JoinLines(ruleIds), JoinLines(tags), [], [])
    else
      var targetText := JoinLines(Dedup(Targets(lower, b.requestFields)));
      Fields("", "", OneGroup(ruleIds, targetText), OneGroup(tags, targetText))
  }

  predicate SameValues(a: seq<string>, b: seq<string>) {
    (set x | x in a) == (set x | x in b)
  }

  function RequestFields(targets: seq<string>): Option<seq<RequestField>> {
    if targets == [] then Some([])
    else match FieldFromTarget(targets[0])
      case None => None
      case Some(f) =>
        match RequestFields(targets[1..])
        case None => None
        case Some(fs) => Some([f] + fs)
  }

  function Selectors(groups: seq<(seq<string>, seq<string>)>): seq<string> {
    if groups == [] then [] else groups[0].0 + Selectors(groups[1..])
  }

  function NotAllCrs(tags: seq<string>): seq<string> {
    if tags == [] then [] else (if tags[0] == ALL_CRS then [] else [tags[0]]) + NotAllCrs(tags[1..])
  }

  function BuilderFromFields(f: Fields): Option<Builder> {
    var ids, tags := SplitValues(f.removeRuleIds), SplitValues(f.removeTags);
    var ruleGroups, tagGroups := PopulatedGroups(f.ruleGroups), PopulatedGroups(f.tagGroups);
    FromValues(ids, tags, ruleGroups, tagGroups)
  }

  function FromValues(ids: seq<string>, tags: seq<string>, ruleGroups: seq<(seq<string>, seq<string>)>,
                      tagGroups: seq<(seq<string>, seq<string>)>): Option<Builder>
  {
    var groups := ruleGroups + tagGroups;
    if (ids != [] || tags != []) && groups != [] then None
    else if ids != [] || tags != [] then
      Some(Builder(true, ALL_CRS in tags, ids, NotAllCrs(tags), "", "", []))
    else if groups == [] || exists k :: 0 <= k < |groups| && !SameValues(groups[0].1, groups[k].1) then None
    else match RequestFields(groups[0].1)
      case None => None
      case Some(fields) =>
        var tags' := Selectors(tagGroups);
        Some(Builder(false, ALL_CRS in tags', Dedup(Selectors(ruleGroups)), Dedup(NotAllCrs(tags')), "", "", fields))
  }

  // ---- what the fields of a draft hold ----

  ghost predicate HasTarget(groups: seq<Listed>, selector: string, target: string) {
    exists k :: 0 <= k < |groups| && groups[k].selector == selector && target in groups[k].targets
  }

  lemma AddTargetHas(groups: seq<Listed>, selector: string, target: string, s: string, t: string)
    ensures HasTarget(AddTarget(groups, selector, target), s, t) <==> HasTarget(groups, s, t) || (s == selector && t == target)
  {
    var i, after := FindGroup(groups, selector), AddTarget(groups, selector, target);
    if HasTarget(groups, s, t) {
      var k :| 0 <= k < |groups| && groups[k].selector == s && t in groups[k].targets;
      assert after[k].selector == s && t in after[k].targets;
    }
    if s == selector && t == target {
      assert after[i].selector == s && t in after[i].targets;
    }
    if HasTarget(after, s, t) {
      var k :| 0 <= k < |after| && after[k].selector == s && t in after[k].targets;
    }
  }

  ghost predicate InDraft(d: Draft, c: Control) {
    match c
    case RemoveRule(id) => id in d.ids
    case RemoveByTag(tag) => tag in d.tags
    case RuleTarget(id, target) => HasTarget(d.ruleGroups, id, target)
    case TagTarget(tag, target) => HasTarget(d.tagGroups, tag, target)
    case Malformed => false
  }

  lemma AddControlHas(d: Draft, c: Control, x: Control)
    requires AddControl(d, c).Some?
    ensures InDraft(AddControl(d, c).value, x) <==> InDraft(d, x) || x == c
  {
    match x
    case RuleTarget(id, target) =>
      if c.RuleTarget? {
        AddTargetHas(d.ruleGroups, c.ruleId, c.target, id, target);
      }
    case TagTarget(tag, target) =>
      if c.TagTarget? {
        AddTargetHas(d.tagGroups, c.tag, c.target, tag, target);
      }
    case _ =>
  }

  lemma {:induction false} DraftHas(controls: seq<Control>, x: Control)
    requires DraftOf(controls).Some?
    ensures InDraft(DraftOf(controls).value, x) <==> x in controls
  {
    if controls != [] {
      var init := controls[..|controls| - 1];
      DraftHas(init, x);
      AddControlHas(DraftOf(init).value, Last(controls), x);
      assert controls == init + [Last(controls)];
    }
  }

  // ---- and in what order ----

  /** The rules removed, in order. */
  function RemovedRules(controls: seq<Control>): seq<string> {
    if controls == [] then []
    else RemovedRules(controls[..|controls| - 1]) + if Last(controls).RemoveRule? then [Last(controls).ruleId] else []
  }

  function RemovedTags(controls: seq<Control>): seq<string> {
    if controls == [] then []
    else RemovedTags(controls[..|controls| - 1]) + if Last(controls).RemoveByTag? then [Last(controls).tag] else []
  }

  /** The selectors and targets of the controls on rules, in order. */
  function RulePairs(controls: seq<Control>): seq<(string, string)> {
    if controls == [] then []
    else
      var c := Last(controls);
      RulePairs(controls[..|controls| - 1]) + if c.RuleTarget? then [(c.ruleId, c.target)] else []
  }

  function TagPairs(controls: seq<Control>): seq<(string, string)> {
    if controls == [] then []
    else
      var c := Last(controls);
      TagPairs(controls[..|controls| - 1]) + if c.TagTarget? then [(c.tag, c.target)] else []
  }

  function Firsts(pairs: seq<(string, string)>): (r: seq<string>)
    ensures |r| == |pairs| && forall k :: 0 <= k < |r| ==> r[k] == pairs[k].0
  {
    seq(|pairs|, k requires 0 <= k < |pairs| => pairs[k].0)
  }

  function TargetsFor(pairs: seq<(string, string)>, selector: string): seq<string> {
    if pairs == [] then []
    else
      var (s, t) := Last(pairs);
      TargetsFor(pairs[..|pairs| - 1], selector) + if s == selector then [t] else []
  }

  function SelectorsIn(groups: seq<Listed>): (r: seq<string>)
    ensures |r| == |groups| && forall k :: 0 <= k < |r| ==> r[k] == groups[k].selector
  {
    seq(|groups|, k requires 0 <= k < |groups| => groups[k].selector)
  }

  /** One group for each selector, in the order in which they first occur, with all its targets, in order. */
  predicate Grouped(groups: seq<Listed>, pairs: seq<(string, string)>) {
    && SelectorsIn(groups) == Dedup(Firsts(pairs))
    && forall k :: 0 <= k < |groups| ==> groups[k].targets == TargetsFor(pairs, groups[k].selector)
  }

  lemma {:induction false} NoTargetsFor(pairs: seq<(string, string)>, selector: string)
    requires selector !in Firsts(pairs)
    ensures TargetsFor(pairs, selector) == []
  {
    if pairs != [] {
      var init := pairs[..|pairs| - 1];
      assert Firsts(pairs) == Firsts(init) + [Last(pairs).0];
      NoTargetsFor(init, selector);
    }
  }

  lemma PairsSnoc(pairs: seq<(string, string)>, s: string, t: string)
    ensures Firsts(pairs + [(s, t)]) == Firsts(pairs) + [s]
    ensures Dedup(Firsts(pairs + [(s, t)])) == Dedup(Firsts(pairs)) + if s in Dedup(Firsts(pairs)) then [] else [s]
    ensures forall x :: TargetsFor(pairs + [(s, t)], x) == TargetsFor(pairs, x) + if s == x then [t] else []
  {
    assert (pairs + [(s, t)])[..|pairs|] == pairs;
    assert (Firsts(pairs) + [s])[..|pairs|] == Firsts(pairs);
  }

  lemma JoinsGroup(groups: seq<Listed>, pairs: seq<(string, string)>, s: string, t: string)
    requires Grouped(groups, pairs) && FindGroup(groups, s) < |groups|
    ensures Grouped(AddTarget(groups, s, t), pairs + [(s, t)])
  {
    var i, after := FindGroup(groups, s), AddTarget(groups, s, t);
    PairsSnoc(pairs, s, t);
    assert SelectorsIn(groups)[i] == s;
    assert SelectorsIn(after) == SelectorsIn(groups);
    forall k | 0 <= k < |groups| ensures after[k].targets == TargetsFor(pairs + [(s, t)], after[k].selector) {
      if k != i {
        assert SelectorsIn(groups)[k] != SelectorsIn(groups)[i];
      }
    }
  }

  lemma OpensGroup(groups: seq<Listed>, pairs: seq<(string, string)>, s: string, t: string)
    requires Grouped(groups, pairs) && FindGroup(groups, s) == |groups|
    ensures Grouped(AddTarget(groups, s, t), pairs + [(s, t)])
  {
    PairsSnoc(pairs, s, t);
    assert s !in SelectorsIn(groups);
    assert SelectorsIn(AddTarget(groups, s, t)) == SelectorsIn(groups) + [s];
    NoTargetsFor(pairs, s);
  }

  lemma AddTargetGroups(groups: seq<Listed>, pairs: seq<(string, string)>, s: string, t: string)
    requires Grouped(groups, pairs)
    ensures Grouped(AddTarget(groups, s, t), pairs + [(s, t)])
  {
    if FindGroup(groups, s) < |groups| {
      JoinsGroup(groups, pairs, s, t);
    } else {
      OpensGroup(groups, pairs, s, t);
    }
  }

  predicate InOrder(d: Draft, controls: seq<Control>) {
    && d.ids == RemovedRules(controls) && d.tags == RemovedTags(controls)
    && Grouped(d.ruleGroups, RulePairs(controls)) && Grouped(d.tagGroups, TagPairs(controls))
  }

  lemma ListsSnoc(init: seq<Control>, c: Control)
    ensures RemovedRules(init + [c]) == RemovedRules(init) + if c.RemoveRule? then [c.ruleId] else []
    ensures RemovedTags(init + [c]) == RemovedTags(init) + if c.RemoveByTag? then [c.tag] else []
    ensures RulePairs(init + [c]) == RulePairs(init) + if c.RuleTarget? then [(c.ruleId, c.target)] else []
    ensures TagPairs(init + [c]) == TagPairs(init) + if c.TagTarget? then [(c.tag, c.target)] else []
  {
    assert (init + [c])[..|init|] == init && Last(init + [c]) == c;
  }

  lemma AddControlOrder(d: Draft, init: seq<Control>, c: Control)
    requires InOrder(d, init) && AddControl(d, c).Some?
    ensures InOrder(AddControl(d, c).value, init + [c])
  {
    ListsSnoc(init, c);
    assert RemovedRules(init) + [] == RemovedRules(init) && RemovedTags(init) + [] == RemovedTags(init);
    assert RulePairs(init) + [] == RulePairs(init) && TagPairs(init) + [] == TagPairs(init);
    match c
    case RuleTarget(id, target) => AddTargetGroups(d.ruleGroups, RulePairs(init), id, target);
    case TagTarget(tag, target) => AddTargetGroups(d.tagGroups, TagPairs(init), tag, target);
    case _ =>
  }

  /** The draft keeps the order of the controls, within each of its lists. */
  lemma {:induction false} DraftInOrder(controls: seq<Control>)
    requires DraftOf(controls).Some?
    ensures InOrder(DraftOf(controls).value, controls)
  {
    if controls != [] {
      var init, c := controls[..|controls| - 1], Last(controls);
      DraftInOrder(init);
      AddControlOrder(DraftOf(init).value, init, c);
      assert controls == init + [c];
    }
  }

  // ---- canonical controls ----

  /** A target the builder can show and write back: its name trimmed, a header's in lower case. */
  predicate CanonTarget(lower: Lower, t: string) {
    && Canon(t) && |t| <= MAX_TEXT
    && (Named(t, ARG) ==> Trim(t[|ARG|..]) == t[|ARG|..])
    && (Named(t, HEADER) ==> Trim(t[|HEADER|..]) == t[|HEADER|..] && lower(t[|HEADER|..]) == t[|HEADER|..])
    && (Named(t, COOKIE) ==> Trim(t[|COOKIE|..]) == t[|COOKIE|..])
    && (Named(t, JSON) ==> Trim(t[|JSON|..]) == t[|JSON|..])
  }

  predicate CanonControl(lower: Lower, c: Control) {
    match c
    case RemoveRule(id) => Canon(id)
    case RemoveByTag(tag) => Canon(tag)
    case RuleTarget(id, target) => Canon(id) && CanonTarget(lower, target)
    case TagTarget(tag, target) => Canon(tag) && CanonTarget(lower, target)
    case Malformed => true
  }

  ghost predicate CanonGroups(lower: Lower, groups: seq<Listed>) {
    forall k :: 0 <= k < |groups| ==> CanonGroup(lower, groups[k])
  }

  ghost predicate CanonGroup(lower: Lower, g: Listed) {
    Canon(g.selector) && g.targets != [] && forall k :: 0 <= k < |g.targets| ==> CanonTarget(lower, g.targets[k])
  }

  ghost predicate CanonDraft(lower: Lower, d: Draft) {
    AllCanon(d.ids) && AllCanon(d.tags) && CanonGroups(lower, d.ruleGroups) && CanonGroups(lower, d.tagGroups)
  }

  lemma AddTargetCanon(lower: Lower, groups: seq<Listed>, selector: string, target: string)
    requires CanonGroups(lower, groups) && Canon(selector) && CanonTarget(lower, target)
    ensures CanonGroups(lower, AddTarget(groups, selector, target))
  {
    var i := FindGroup(groups, selector);
    if i < |groups| {
      assert CanonGroup(lower, groups[i]);
    }
  }

  lemma {:induction false} DraftCanon(lower: Lower, controls: seq<Control>)
    requires DraftOf(controls).Some? && forall k :: 0 <= k < |controls| ==> CanonControl(lower, controls[k])
    ensures CanonDraft(lower, DraftOf(controls).value)
  {
    if controls != [] {
      var init, c := controls[..|controls| - 1], Last(controls);
      DraftCanon(lower, init);
      assert CanonControl(lower, c);
      var d := DraftOf(init).value;
      match c
      case RuleTarget(id, target) => AddTargetCanon(lower, d.ruleGroups, id, target);
      case TagTarget(tag, target) => AddTargetCanon(lower, d.tagGroups, tag, target);
      case _ =>
    }
  }

  // ---- reading the fields back ----

  /** What the populated groups of a rendered draft read as. */
  function ReadBack(groups: seq<Listed>): seq<(seq<string>, seq<string>)> {
    seq(|groups|, k requires 0 <= k < |groups| => ([groups[k].selector], Dedup(groups[k].targets)))
  }

  lemma ReadGroup(lower: Lower, g: Listed)
    requires CanonGroup(lower, g)
    ensures Populated(Render(g)) && GroupValues(Render(g)) == ([g.selector], Dedup(g.targets))
  {
    SplitJoin(g.targets);
    SplitJoin([g.selector]);
    assert JoinLines([g.selector]) == g.selector;
    DedupDistinct([g.selector]);
  }

  lemma PopulatedStep(groups: seq<Group>)
    requires groups != [] && Populated(Last(groups))
    ensures PopulatedGroups(groups) == PopulatedGroups(groups[..|groups| - 1]) + [GroupValues(Last(groups))]
  {
  }

  lemma ReadBackStep(groups: seq<Listed>, n: nat)
    requires n + 1 == |groups|
    ensures RenderAll(groups)[..n] == RenderAll(groups[..n])
    ensures ReadBack(groups) == ReadBack(groups[..n]) + [([groups[n].selector], Dedup(groups[n].targets))]
  {
  }

  lemma {:induction false} ReadGroups(lower: Lower, groups: seq<Listed>)
    requires CanonGroups(lower, groups)
    ensures PopulatedGroups(RenderAll(groups)) == ReadBack(groups)
  {
    if groups != [] {
      var n := |groups| - 1;
      ReadGroups(lower, groups[..n]);
      assert CanonGroup(lower, groups[n]);
      ReadGroup(lower, groups[n]);
      ReadBackStep(groups, n);
      PopulatedStep(RenderAll(groups));
    } else {
      assert RenderAll(groups) == [];
    }
  }

  /** So the builder of canonical controls is made of the draft's own values. */
  lemma BuilderOfDraft(lower: Lower, d: Draft)
    requires CanonDraft(lower, d)
    ensures BuilderFromFields(FieldsOf(d)) ==
      FromValues(Dedup(d.ids), Dedup(d.tags), ReadBack(d.ruleGroups), ReadBack(d.tagGroups))
  {
    SplitJoin(d.ids);
    SplitJoin(d.tags);
    ReadGroups(lower, d.ruleGroups);
    ReadGroups(lower, d.tagGroups);
  }

  // ---- one target ----

  lemma NameFits(t: string, prefix: string)
    requires Named(t, prefix) && |t| <= MAX_TEXT && Trim(t[|prefix|..]) == t[|prefix|..]
    ensures Clipped(t[|prefix|..]) == t[|prefix|..] && t[|prefix|..] != "" && prefix + t[|prefix|..] == t
  {
  }

  /** A target shown as a request field starts with `request.`, so it is not completed again. */
  lemma ShownIsNormal(lower: Lower, t: string)
    requires CanonTarget(lower, t) && FieldFromTarget(t).Some?
    ensures Normalize(t) == t
  {
    assert "request." <= BODY && "request." <= ARG && "request." <= HEADER && "request." <= COOKIE && "request." <= JSON;
    assert "request." <= t;
  }

  /** A canonical target shown as a request field is written back as itself. */
  lemma TargetRoundTrip(lower: Lower, t: string)
    requires CanonTarget(lower, t) && FieldFromTarget(t).Some?
    ensures FieldToTarget(lower, FieldFromTarget(t).value) == t
  {
    assert Clipped(t) == t;
    if t == BODY {
    } else if Named(t, ARG) {
      NameFits(t, ARG);
    } else if Named(t, HEADER) {
      NameFits(t, HEADER);
    } else if Named(t, COOKIE) {
      NameFits(t, COOKIE);
    } else {
      NameFits(t, JSON);
    }
  }

  /** The name under which a field is written: trimmed, 240 characters at most, a header's in lower case. */
  function Written(lower: Lower, f: RequestField): string {
    if f.kind == Body then ""
    else if f.kind == Header then lower(Clipped(f.name))
    else Clipped(f.name)
  }

  /** A field with a name that fits is written as a target that shows as the same kind of field with the written name. */
  lemma FieldRoundTrip(lower: Lower, f: RequestField)
    requires f.kind != Body ==> Clipped(f.name) != "" && Written(lower, f) != ""
    requires Clipped(FieldToTarget(lower, f)) == FieldToTarget(lower, f)
    ensures FieldFromTarget(FieldToTarget(lower, f)) == Some(RequestField(f.kind, Written(lower, f)))
  {
    var t := FieldToTarget(lower, f);
    match f.kind
    case Body =>
    case Parameter => Suffix(t, ARG, Clipped(f.name));
    case Header =>
      Suffix(t, HEADER, lower(Clipped(f.name)));
      assert t[8] == 'h' && ARG[8] == 'a';
    case Cookie =>
      Suffix(t, COOKIE, Clipped(f.name));
      assert t[8] == 'c' && ARG[8] == 'a' && HEADER[8] == 'h';
    case JsonField =>
      Suffix(t, JSON, Clipped(f.name));
      assert t[8] == 'b' && ARG[8] == 'a' && HEADER[8] == 'h' && COOKIE[8] == 'c';
  }

  lemma Suffix(t: string, prefix: string, name: string)
    requires t == prefix + name && name != ""
    ensures Named(t, prefix) && t[|prefix|..] == name
    ensures forall k :: 0 <= k < |prefix| ==> t[k] == prefix[k]
  {
  }

  /** So two such fields are one target exactly when they are the same field, headers whatever their case. */
  lemma SameTarget(lower: Lower, f: RequestField, g: RequestField)
    requires f.kind != Body ==> Clipped(f.name) != "" && Written(lower, f) != ""
    requires g.kind != Body ==> Clipped(g.name) != "" && Written(lower, g) != ""
    requires Clipped(FieldToTarget(lower, f)) == FieldToTarget(lower, f)
    requires Clipped(FieldToTarget(lower, g)) == FieldToTarget(lower, g)
    ensures FieldToTarget(lower, f) == FieldToTarget(lower, g) <==> f.kind == g.kind && Written(lower, f) == Written(lower, g)
  {
    FieldRoundTrip(lower, f);
    FieldRoundTrip(lower, g);
  }

  lemma TargetsCons(lower: Lower, f: RequestField, fields: seq<RequestField>)
    requires FieldToTarget(lower, f) != ""
    ensures Targets(lower, [f] + fields) == [FieldToTarget(lower, f)] + Targets(lower, fields)
  {
    assert ([f] + fields)[1..] == fields;
  }

  lemma {:induction false} FieldsRoundTrip(lower: Lower, targets: seq<string>)
    requires RequestFields(targets).Some? && forall k :: 0 <= k < |targets| ==> CanonTarget(lower, targets[k])
    ensures Targets(lower, RequestFields(targets).value) == targets
    ensures Normalized(targets) == targets
  {
    if targets != [] {
      var first, others := targets[0], targets[1..];
      TargetRoundTrip(lower, first);
      ShownIsNormal(lower, first);
      FieldsRoundTrip(lower, others);
      TargetsCons(lower, FieldFromTarget(first).value, RequestFields(others).value);
      assert targets == [first] + others;
      assert Normalized(targets) == [Normalize(first)] + Normalized(others);
    }
  }

  // ---- the whole way round ----

  lemma {:induction false} SelectorsOf(groups: seq<Listed>, s: string)
    ensures s in Selectors(ReadBack(groups)) <==> exists k :: 0 <= k < |groups| && groups[k].selector == s
  {
    if groups != [] {
      SelectorsOf(groups[1..], s);
      assert ReadBack(groups)[1..] == ReadBack(groups[1..]);
      assert Selectors(ReadBack(groups)) == [groups[0].selector] + Selectors(ReadBack(groups[1..]));
      if exists k :: 0 <= k < |groups| && groups[k].selector == s {
        var k :| 0 <= k < |groups| && groups[k].selector == s;
        assert k > 0 ==> groups[1..][k - 1].selector == s;
      }
    }
  }

  lemma {:induction false} NotAllCrsHas(tags: seq<string>, t: string)
    ensures t in NotAllCrs(tags) <==> t in tags && t != ALL_CRS
  {
    if tags != [] {
      NotAllCrsHas(tags[1..], t);
      assert tags == [tags[0]] + tags[1..];
    }
  }

  /** Splitting off the catch-all tag and putting it back loses nothing. */
  lemma TagsBack(tags: seq<string>, b: Builder, t: string)
    requires b.allCrs == (ALL_CRS in tags) && b.advancedTags == ""
    requires forall x :: x in b.selectedTags <==> x in NotAllCrs(tags)
    ensures t in BuilderTags(b) <==> t in tags
  {
    NotAllCrsHas(tags, t);
    EmptySplits();
  }

  lemma EmptySplits()
    ensures SplitValues("") == []
  {
    SplitJoin([]);
  }

  lemma AllCanonIn(xs: seq<string>, ys: seq<string>)
    requires AllCanon(xs) && forall y :: y in ys ==> y in xs
    ensures AllCanon(ys)
  {
    forall k | 0 <= k < |ys| ensures Canon(ys[k]) {
      assert ys[k] in ys;
    }
  }

  lemma RemovalsOnly(ids: seq<string>, tags: seq<string>)
    requires AllCanon(ids) && AllCanon(tags) && Distinct(ids) && Distinct(tags)
    ensures Controls(Fields(JoinLines(ids), JoinLines(tags), [], [])) ==
      seq(|ids|, k requires 0 <= k < |ids| => RemoveRule(ids[k]))
      + seq(|tags|, k requires 0 <= k < |tags| => RemoveByTag(tags[k]))
  {
    SplitJoin(ids);
    SplitJoin(tags);
    DedupDistinct(ids);
    DedupDistinct(tags);
  }

  lemma RemovalsHave(ids: seq<string>, tags: seq<string>, c: Control)
    requires AllCanon(ids) && AllCanon(tags) && Distinct(ids) && Distinct(tags)
    ensures c in Controls(Fields(JoinLines(ids), JoinLines(tags), [], [])) <==>
      (c.RemoveRule? && c.ruleId in ids) || (c.RemoveByTag? && c.tag in tags)
  {
    RemovalsOnly(ids, tags);
    RuleRemovalsHave(ids, c);
    TagRemovalsHave(tags, c);
  }

  /** Detections: the draft has no targets, and its ids and tags come back. */
  lemma DetectionsBack(lower: Lower, d: Draft, c: Control)
    requires CanonDraft(lower, d) && BuilderFromFields(FieldsOf(d)).Some? && BuilderFromFields(FieldsOf(d)).value.detections
    ensures c in Controls(BuilderToFields(lower, BuilderFromFields(FieldsOf(d)).value)) <==> InDraft(d, c)
  {
    DetectionsBuilder(lower, d);
    var b := BuilderFromFields(FieldsOf(d)).value;
    var ids, tags := BuilderRuleIds(b), BuilderTags(b);
    AllCanonIn(d.ids, ids);
    AllCanonIn(d.tags, tags);
    RemovalsHave(ids, tags, c);
  }

  /** What the builder of a detections draft holds. */
  lemma DetectionsBuilder(lower: Lower, d: Draft)
    requires CanonDraft(lower, d) && BuilderFromFields(FieldsOf(d)).Some? && BuilderFromFields(FieldsOf(d)).value.detections
    ensures d.ruleGroups == [] && d.tagGroups == []
    ensures var b := BuilderFromFields(FieldsOf(d)).value;
      (forall x :: x in BuilderRuleIds(b) <==> x in d.ids) && (forall t :: t in BuilderTags(b) <==> t in d.tags)
  {
    BuilderOfDraft(lower, d);
    assert ReadBack(d.ruleGroups) + ReadBack(d.tagGroups) == [];
    EmptySplits();
    var b := BuilderFromFields(FieldsOf(d)).value;
    forall t ensures t in BuilderTags(b) <==> t in d.tags {
      TagsBack(Dedup(d.tags), b, t);
    }
  }

  lemma {:induction false} CrossNoTargets(mk: Maker, selectors: seq<string>)
    ensures Cross(mk, selectors, []) == []
  {
    if selectors != [] {
      CrossNoTargets(mk, selectors[..|selectors| - 1]);
    }
  }

  lemma GroupCross(mk: Maker, g: Group)
    ensures CrossAll(mk, PopulatedGroups([g])) == Cross(mk, SplitValues(g.selectors), SplitValues(g.targets))
  {
    assert [g][..0] == [];
    if Populated(g) {
      assert PopulatedGroups([g]) == [GroupValues(g)];
      assert [GroupValues(g)][..0] == [];
      assert CrossAll(mk, [GroupValues(g)]) == [] + Cross(mk, GroupValues(g).0, GroupValues(g).1);
    } else {
      TrimBlank(g.selectors);
      SplitsToNothing(g.selectors);
    }
  }

  /** One group's controls: what its selectors read as, with what its targets read as. */
  lemma OneGroupCross(mk: Maker, selectors: seq<string>, text: string)
    ensures CrossAll(mk, PopulatedGroups(OneGroup(selectors, text))) ==
      Cross(mk, SplitValues(JoinLines(selectors)), SplitValues(text))
  {
    EmptySplits();
    if selectors != [] && text != "" {
      GroupCross(mk, Group(JoinLines(selectors), text));
    } else if text == "" {
      CrossNoTargets(mk, SplitValues(JoinLines(selectors)));
    }
  }

  lemma OneGroupHas(mk: Maker, selectors: seq<string>, targets: seq<string>, c: Control)
    requires AllCanon(selectors) && AllCanon(targets) && Distinct(selectors) && Distinct(targets)
    ensures c in CrossAll(mk, PopulatedGroups(OneGroup(selectors, JoinLines(targets)))) <==>
      exists s, t :: s in selectors && t in targets && c == mk(s, t)
  {
    OneGroupCross(mk, selectors, JoinLines(targets));
    SplitJoin(selectors);
    SplitJoin(targets);
    DedupDistinct(selectors);
    DedupDistinct(targets);
    CrossMembers(mk, selectors, targets, c);
  }

  lemma SameHas(a: seq<string>, b: seq<string>, x: string)
    requires SameValues(a, b)
    ensures x in a <==> x in b
  {
    var left, right := set y | y in a, set y | y in b;
    assert left == right;
    assert (x in left) == (x in right);
  }

  /** With every group naming the same targets, a pair is in the draft when its parts are. */
  lemma SameTargets(groups: seq<Listed>, targets: seq<string>, s: string, t: string)
    requires forall k :: 0 <= k < |groups| ==> SameValues(targets, Dedup(groups[k].targets))
    ensures HasTarget(groups, s, t) <==> s in Selectors(ReadBack(groups)) && t in targets
  {
    SelectorsOf(groups, s);
    forall k | 0 <= k < |groups| ensures t in groups[k].targets <==> t in targets {
      assert SameValues(targets, Dedup(groups[k].targets));
      SameHas(targets, Dedup(groups[k].targets), t);
    }
  }

  lemma SelectorsCanon(lower: Lower, groups: seq<Listed>)
    requires CanonGroups(lower, groups)
    ensures AllCanon(Selectors(ReadBack(groups)))
  {
    var all := Selectors(ReadBack(groups));
    forall i | 0 <= i < |all| ensures Canon(all[i]) {
      SelectorsOf(groups, all[i]);
      var k :| 0 <= k < |groups| && groups[k].selector == all[i];
      assert CanonGroup(lower, groups[k]);
    }
  }

  lemma NormalizedTargets(targets: seq<string>, t: string)
    requires Normalized(targets) == targets && t in targets
    ensures Normalize(t) == t
  {
    var k :| 0 <= k < |targets| && targets[k] == t;
    assert Normalized(targets)[k] == Normalize(t);
  }

  lemma RulePart(ids: seq<string>, targets: seq<string>, c: Control)
    requires AllCanon(ids) && AllCanon(targets) && Distinct(ids) && Distinct(targets) && targets != []
    requires Normalized(targets) == targets
    ensures c in CrossAll(RuleControl, PopulatedGroups(OneGroup(ids, JoinLines(targets)))) <==>
      c.RuleTarget? && c.ruleId in ids && c.target in targets
  {
    OneGroupHas(RuleControl, ids, targets, c);
    forall t | t in targets ensures Normalize(t) == t {
      NormalizedTargets(targets, t);
    }
    if c.RuleTarget? && c.ruleId in ids && c.target in targets {
      assert c == RuleControl(c.ruleId, c.target);
    }
  }

  lemma TagPart(tags: seq<string>, targets: seq<string>, c: Control)
    requires AllCanon(tags) && AllCanon(targets) && Distinct(tags) && Distinct(targets) && targets != []
    requires Normalized(targets) == targets
    ensures c in CrossAll(TagControl, PopulatedGroups(OneGroup(tags, JoinLines(targets)))) <==>
      c.TagTarget? && c.tag in tags && c.target in targets
  {
    OneGroupHas(TagControl, tags, targets, c);
    forall t | t in targets ensures Normalize(t) == t {
      NormalizedTargets(targets, t);
    }
    if c.TagTarget? && c.tag in tags && c.target in targets {
      assert c == TagControl(c.tag, c.target);
    }
  }

  lemma ControlsParts(ruleGroups: seq<Group>, tagGroups: seq<Group>)
    ensures Controls(Fields("", "", ruleGroups, tagGroups)) ==
      CrossAll(RuleControl, PopulatedGroups(ruleGroups)) + CrossAll(TagControl, PopulatedGroups(tagGroups))
  {
    EmptySplits();
    assert Removals(Fields("", "", ruleGroups, tagGroups)) == [];
  }

  /** The controls of one group of selectors and one of tags, over the same targets. */
  lemma PartsHave(ids: seq<string>, tags: seq<string>, targets: seq<string>, c: Control)
    requires AllCanon(ids) && AllCanon(tags) && AllCanon(targets)
    requires Distinct(ids) && Distinct(tags) && Distinct(targets) && targets != []
    requires Normalized(targets) == targets
    ensures var text := JoinLines(targets);
      c in Controls(Fields("", "", OneGroup(ids, text), OneGroup(tags, text))) <==>
        (c.RuleTarget? && c.ruleId in ids && c.target in targets) || (c.TagTarget? && c.tag in tags && c.target in targets)
  {
    var text := JoinLines(targets);
    ControlsParts(OneGroup(ids, text), OneGroup(tags, text));
    RulePart(ids, targets, c);
    TagPart(tags, targets, c);
  }

  /** The targets of the first group, of which every group has the same. */
  lemma TargetsOfDraft(lower: Lower, d: Draft, targets: seq<string>)
    requires CanonDraft(lower, d)
    requires var groups := ReadBack(d.ruleGroups) + ReadBack(d.tagGroups);
      groups != [] && targets == groups[0].1 && forall k :: 0 <= k < |groups| ==> SameValues(groups[0].1, groups[k].1)
    ensures targets != [] && Distinct(targets) && AllCanon(targets)
    ensures forall k :: 0 <= k < |targets| ==> CanonTarget(lower, targets[k])
    ensures forall k :: 0 <= k < |d.ruleGroups| ==> SameValues(targets, Dedup(d.ruleGroups[k].targets))
    ensures forall k :: 0 <= k < |d.tagGroups| ==> SameValues(targets, Dedup(d.tagGroups[k].targets))
  {
    var groups, n := ReadBack(d.ruleGroups) + ReadBack(d.tagGroups), |d.ruleGroups|;
    if n > 0 {
      assert groups[0] == ReadBack(d.ruleGroups)[0];
      GroupTargets(lower, d.ruleGroups[0], targets);
    } else {
      assert groups[0] == ReadBack(d.tagGroups)[0];
      GroupTargets(lower, d.tagGroups[0], targets);
    }
    SharedTargets(d.ruleGroups, groups, 0, targets);
    SharedTargets(d.tagGroups, groups, n, targets);
  }

  lemma SharedTargets(listed: seq<Listed>, groups: seq<(seq<string>, seq<string>)>, at: nat, targets: seq<string>)
    requires at + |listed| <= |groups| && groups[at..at + |listed|] == ReadBack(listed)
    requires forall k :: 0 <= k < |groups| ==> SameValues(targets, groups[k].1)
    ensures forall k :: 0 <= k < |listed| ==> SameValues(targets, Dedup(listed[k].targets))
  {
    forall k | 0 <= k < |listed| ensures SameValues(targets, Dedup(listed[k].targets)) {
      assert groups[at + k] == ReadBack(listed)[k];
    }
  }

  lemma GroupTargets(lower: Lower, g: Listed, targets: seq<string>)
    requires CanonGroup(lower, g) && targets == Dedup(g.targets)
    ensures targets != [] && Distinct(targets) && AllCanon(targets)
    ensures forall k :: 0 <= k < |targets| ==> CanonTarget(lower, targets[k])
  {
    assert g.targets[0] in targets;
    forall k | 0 <= k < |targets| ensures CanonTarget(lower, targets[k]) {
      assert targets[k] in g.targets;
    }
  }

  lemma DedupEmpty(xs: seq<string>)
    ensures Dedup(xs) == [] <==> xs == []
  {
    if xs != [] {
      assert xs[0] in Dedup(xs);
    }
  }

  /** What the builder of a fields draft holds. */
  lemma FieldsBuilder(lower: Lower, d: Draft) returns (targets: seq<string>)
    requires CanonDraft(lower, d) && BuilderFromFields(FieldsOf(d)).Some? && !BuilderFromFields(FieldsOf(d)).value.detections
    ensures d.ids == [] && d.tags == []
    ensures targets != [] && Distinct(targets) && AllCanon(targets) && Normalized(targets) == targets
    ensures forall k :: 0 <= k < |d.ruleGroups| ==> SameValues(targets, Dedup(d.ruleGroups[k].targets))
    ensures forall k :: 0 <= k < |d.tagGroups| ==> SameValues(targets, Dedup(d.tagGroups[k].targets))
    ensures var b := BuilderFromFields(FieldsOf(d)).value; var tags := Selectors(ReadBack(d.tagGroups));
      && Targets(lower, b.requestFields) == targets
      && b.selectedRuleIds == Dedup(Selectors(ReadBack(d.ruleGroups))) && b.advancedRuleIds == "" && b.advancedTags == ""
      && b.selectedTags == Dedup(NotAllCrs(tags)) && b.allCrs == (ALL_CRS in tags)
  {
    BuilderOfDraft(lower, d);
    var groups := ReadBack(d.ruleGroups) + ReadBack(d.tagGroups);
    DedupEmpty(d.ids);
    DedupEmpty(d.tags);
    targets := groups[0].1;
    TargetsOfDraft(lower, d, targets);
    FieldsRoundTrip(lower, targets);
  }

  /** Fields: one group of all the selectors, with the targets every group named. */
  lemma FieldsBack(lower: Lower, d: Draft, c: Control)
    requires CanonDraft(lower, d) && BuilderFromFields(FieldsOf(d)).Some? && !BuilderFromFields(FieldsOf(d)).value.detections
    ensures c in Controls(BuilderToFields(lower, BuilderFromFields(FieldsOf(d)).value)) <==> InDraft(d, c)
  {
    var targets := FieldsBuilder(lower, d);
    var b := BuilderFromFields(FieldsOf(d)).value;
    var rules, tags := Selectors(ReadBack(d.ruleGroups)), Selectors(ReadBack(d.tagGroups));
    FieldsSelectors(b, rules, tags);
    DedupDistinct(targets);
    SelectorsCanon(lower, d.ruleGroups);
    SelectorsCanon(lower, d.tagGroups);
    AllCanonIn(rules, BuilderRuleIds(b));
    AllCanonIn(tags, BuilderTags(b));
    PartsHave(BuilderRuleIds(b), BuilderTags(b), targets, c);
    GroupsHave(d, rules, tags, targets, c);
  }

  /** The selectors of the builder are those of all the groups. */
  lemma FieldsSelectors(b: Builder, rules: seq<string>, tags: seq<string>)
    requires b.selectedRuleIds == Dedup(rules) && b.advancedRuleIds == "" && b.advancedTags == ""
    requires b.selectedTags == Dedup(NotAllCrs(tags)) && b.allCrs == (ALL_CRS in tags)
    ensures forall x :: x in BuilderRuleIds(b) <==> x in rules
    ensures forall t :: t in BuilderTags(b) <==> t in tags
  {
    EmptySplits();
    forall t ensures t in BuilderTags(b) <==> t in tags {
      TagsBack(tags, b, t);
    }
  }

  /** With the same targets in every group, the draft holds each selector with each of them. */
  lemma GroupsHave(d: Draft, rules: seq<string>, tags: seq<string>, targets: seq<string>, c: Control)
    requires d.ids == [] && d.tags == []
    requires rules == Selectors(ReadBack(d.ruleGroups)) && tags == Selectors(ReadBack(d.tagGroups))
    requires forall k :: 0 <= k < |d.ruleGroups| ==> SameValues(targets, Dedup(d.ruleGroups[k].targets))
    requires forall k :: 0 <= k < |d.tagGroups| ==> SameValues(targets, Dedup(d.tagGroups[k].targets))
    ensures InDraft(d, c) <==>
      (c.RuleTarget? && c.ruleId in rules && c.target in targets) || (c.TagTarget? && c.tag in tags && c.target in targets)
  {
    match c
    case RuleTarget(s, t) => SameTargets(d.ruleGroups, targets, s, t);
    case TagTarget(s, t) => SameTargets(d.tagGroups, targets, s, t);
    case _ =>
  }

  /** What the guided builder shows for these controls, if it can represent them. */
  function Shown(controls: seq<Control>): Option<Builder> {
    match FieldsFromControls(controls)
    case None => None
    case Some(f) => BuilderFromFields(f)
  }

  /**
   Canonical controls that the guided builder can show are built back as the same set of
   controls, neither more nor fewer.
   */
  lemma BuilderRoundTrip(lower: Lower, controls: seq<Control>, c: Control)
    requires forall k :: 0 <= k < |controls| ==> CanonControl(lower, controls[k])
    ensures Shown(controls).Some? ==>
      (c in Controls(BuilderToFields(lower, Shown(controls).value)) <==> c in controls)
  {
    if Shown(controls).Some? {
      DraftCanon(lower, controls);
      DraftHas(controls, c);
      DraftBack(lower, DraftOf(controls).value, c);
    }
  }

  lemma DraftBack(lower: Lower, d: Draft, c: Control)
    requires CanonDraft(lower, d) && BuilderFromFields(FieldsOf(d)).Some?
    ensures c in Controls(BuilderToFields(lower, BuilderFromFields(FieldsOf(d)).value)) <==> InDraft(d, c)
  {
    if BuilderFromFields(FieldsOf(d)).value.detections {
      DetectionsBack(lower, d, c);
    } else {
      FieldsBack(lower, d, c);
    }
  }

  // ---- what the builder can show ----

  /** The selector of a control on targets, with another target. */
  function Retarget(c: Control, target: string): Control
    requires c.RuleTarget? || c.TagTarget?
  {
    if c.RuleTarget? then RuleTarget(c.ruleId, target) else TagTarget(c.tag, target)
  }

  predicate Showable(target: string) {
    target == BODY || Named(target, ARG) || Named(target, HEADER) || Named(target, COOKIE) || Named(target, JSON)
  }

  predicate AllRemovals(controls: seq<Control>) {
    forall c :: c in controls ==> c.RemoveRule? || c.RemoveByTag?
  }

  /** Nothing but targets that can be shown, every selector with the same ones. */
  predicate AllTargeted(controls: seq<Control>) {
    && (forall c :: c in controls ==> (c.RuleTarget? || c.TagTarget?) && Showable(c.target))
    && forall a, b :: a in controls && b in controls ==> Retarget(a, b.target) in controls
  }

  lemma {:induction false} DraftExists(lower: Lower, controls: seq<Control>)
    requires forall k :: 0 <= k < |controls| ==> CanonControl(lower, controls[k])
    ensures DraftOf(controls).Some? <==> Malformed !in controls
  {
    if controls != [] {
      var init := controls[..|controls| - 1];
      DraftExists(lower, init);
      assert controls == init + [Last(controls)];
      assert CanonControl(lower, Last(controls));
    }
  }

  lemma FieldShows(lower: Lower, t: string)
    requires CanonTarget(lower, t)
    ensures FieldFromTarget(t).Some? <==> Showable(t)
  {
    assert Clipped(t) == t;
  }

  lemma {:induction false} FieldsShow(lower: Lower, targets: seq<string>)
    requires forall k :: 0 <= k < |targets| ==> CanonTarget(lower, targets[k])
    ensures RequestFields(targets).Some? <==> forall k :: 0 <= k < |targets| ==> Showable(targets[k])
  {
    if targets != [] {
      var rest := targets[1..];
      FieldsShow(lower, rest);
      FieldShows(lower, targets[0]);
      assert forall k :: 0 < k < |targets| ==> targets[k] == rest[k - 1];
      assert forall k :: 0 <= k < |rest| ==> rest[k] == targets[k + 1];
    }
  }

  /** Each kind of control fills its own part of the draft. */
  lemma DraftParts(lower: Lower, controls: seq<Control>, d: Draft)
    requires DraftOf(controls) == Some(d) && CanonDraft(lower, d)
    ensures d.ids == [] && d.tags == [] <==> forall c :: c in controls ==> c.RuleTarget? || c.TagTarget?
    ensures d.ruleGroups == [] && d.tagGroups == [] <==> AllRemovals(controls)
  {
    forall c ensures InDraft(d, c) <==> c in controls {
      DraftHas(controls, c);
    }
    if d.ids != [] {
      assert InDraft(d, RemoveRule(d.ids[0]));
    }
    if d.tags != [] {
      assert InDraft(d, RemoveByTag(d.tags[0]));
    }
    if d.ruleGroups != [] {
      var g := d.ruleGroups[0];
      assert CanonGroup(lower, g);
      assert InDraft(d, RuleTarget(g.selector, g.targets[0]));
    }
    if d.tagGroups != [] {
      var g := d.tagGroups[0];
      assert CanonGroup(lower, g);
      assert InDraft(d, TagTarget(g.selector, g.targets[0]));
    }
  }

  /** All the groups of a draft, read back. */
  function AllGroups(d: Draft): seq<(seq<string>, seq<string>)> {
    ReadBack(d.ruleGroups) + ReadBack(d.tagGroups)
  }

  /** The control of group `k` with target `t`. */
  function ControlOf(d: Draft, k: nat, t: string): Control
    requires k < |AllGroups(d)|
  {
    if k < |d.ruleGroups| then RuleTarget(d.ruleGroups[k].selector, t)
    else TagTarget(d.tagGroups[k - |d.ruleGroups|].selector, t)
  }

  lemma OneGroupOnly(groups: seq<Listed>, pairs: seq<(string, string)>, k: nat, t: string)
    requires Grouped(groups, pairs) && k < |groups|
    ensures HasTarget(groups, groups[k].selector, t) <==> t in groups[k].targets
  {
    if HasTarget(groups, groups[k].selector, t) {
      var j :| 0 <= j < |groups| && groups[j].selector == groups[k].selector && t in groups[j].targets;
      assert SelectorsIn(groups)[j] == SelectorsIn(groups)[k];
    }
  }

  /** A group holds exactly the targets its selector has among the controls, and at least one. */
  lemma GroupMembers(lower: Lower, controls: seq<Control>, d: Draft, k: nat)
    requires DraftOf(controls) == Some(d) && CanonDraft(lower, d) && k < |AllGroups(d)|
    ensures forall t :: t in AllGroups(d)[k].1 <==> ControlOf(d, k, t) in controls
    ensures AllGroups(d)[k].1 != []
  {
    DraftInOrder(controls);
    var n := |d.ruleGroups|;
    var g := if k < n then d.ruleGroups[k] else d.tagGroups[k - n];
    assert CanonGroup(lower, g);
    DedupEmpty(g.targets);
    assert AllGroups(d)[k].1 == Dedup(g.targets);
    forall t ensures t in g.targets <==> ControlOf(d, k, t) in controls {
      DraftHas(controls, ControlOf(d, k, t));
      if k < n {
        OneGroupOnly(d.ruleGroups, RulePairs(controls), k, t);
      } else {
        OneGroupOnly(d.tagGroups, TagPairs(controls), k - n, t);
      }
    }
  }

  /** When every selector has the same targets, so does every group. */
  lemma GroupsAgree(lower: Lower, controls: seq<Control>, d: Draft, j: nat, k: nat)
    requires DraftOf(controls) == Some(d) && CanonDraft(lower, d) && j < |AllGroups(d)| && k < |AllGroups(d)|
    requires AllTargeted(controls)
    ensures forall t :: t in AllGroups(d)[j].1 ==> t in AllGroups(d)[k].1
    ensures forall t :: t in AllGroups(d)[j].1 ==> Showable(t)
  {
    GroupMembers(lower, controls, d, j);
    GroupMembers(lower, controls, d, k);
    var u := AllGroups(d)[k].1[0];
    assert ControlOf(d, k, u) in controls;
    forall t | t in AllGroups(d)[j].1 ensures t in AllGroups(d)[k].1 && Showable(t) {
      assert ControlOf(d, j, t) in controls;
      assert Retarget(ControlOf(d, k, u), t) == ControlOf(d, k, t);
    }
  }

  lemma TargetedFits(lower: Lower, controls: seq<Control>, d: Draft)
    requires DraftOf(controls) == Some(d) && CanonDraft(lower, d) && AllGroups(d) != [] && AllTargeted(controls)
    ensures forall k :: 0 <= k < |AllGroups(d)| ==> SameValues(AllGroups(d)[0].1, AllGroups(d)[k].1)
    ensures RequestFields(AllGroups(d)[0].1).Some?
  {
    var groups := AllGroups(d);
    forall k | 0 <= k < |groups| ensures SameValues(groups[0].1, groups[k].1) {
      GroupsAgree(lower, controls, d, 0, k);
      GroupsAgree(lower, controls, d, k, 0);
    }
    GroupsAgree(lower, controls, d, 0, 0);
    TargetsOfDraft(lower, d, groups[0].1);
    FieldsShow(lower, groups[0].1);
  }

  lemma FitsTargeted(lower: Lower, controls: seq<Control>, d: Draft)
    requires DraftOf(controls) == Some(d) && CanonDraft(lower, d) && AllGroups(d) != [] && d.ids == [] && d.tags == []
    requires forall k :: 0 <= k < |AllGroups(d)| ==> SameValues(AllGroups(d)[0].1, AllGroups(d)[k].1)
    requires RequestFields(AllGroups(d)[0].1).Some?
    ensures AllTargeted(controls)
  {
    var targets := AllGroups(d)[0].1;
    var rules, tags := Selectors(ReadBack(d.ruleGroups)), Selectors(ReadBack(d.tagGroups));
    TargetsOfDraft(lower, d, targets);
    FieldsShow(lower, targets);
    forall c ensures c in controls <==>
      (c.RuleTarget? && c.ruleId in rules && c.target in targets) || (c.TagTarget? && c.tag in tags && c.target in targets)
    {
      DraftHas(controls, c);
      GroupsHave(d, rules, tags, targets, c);
    }
  }

  /** Canonical controls can be shown exactly when they all remove, or all name targets it knows, the same ones for every selector. */
  lemma ShownExactly(lower: Lower, controls: seq<Control>)
    requires forall k :: 0 <= k < |controls| ==> CanonControl(lower, controls[k])
    ensures Shown(controls).Some? <==> controls != [] && (AllRemovals(controls) || AllTargeted(controls))
  {
    DraftExists(lower, controls);
    if controls != [] && Malformed !in controls {
      var d := DraftOf(controls).value;
      DraftCanon(lower, controls);
      BuilderOfDraft(lower, d);
      ShownDraft(controls, d);
      DraftParts(lower, controls, d);
      DedupEmpty(d.ids);
      DedupEmpty(d.tags);
      assert controls[0] in controls;
      if d.ids == [] && d.tags == [] {
        assert AllGroups(d) != [];
        if AllTargeted(controls) {
          TargetedFits(lower, controls, d);
        } else if Shown(controls).Some? {
          FitsTargeted(lower, controls, d);
        }
      }
    }
  }

  lemma OneRemoval(id: string)
    requires id != ""
    ensures DraftOf([RemoveRule(id)]) == Some(Draft([id], [], [], []))
  {
    assert [RemoveRule(id)][..0] == [];
    assert EMPTY.ids + [id] == [id];
  }

  lemma OneRemovalBuilder(id: string)
    requires Canon(id)
    ensures FromValues([id], [], ReadBack([]), ReadBack([])) == Some(Builder(true, false, [id], [], "", "", []))
  {
    assert ReadBack([]) == [];
  }

  lemma OneRemovalRead(id: string)
    requires Canon(id)
    ensures BuilderFromFields(FieldsOf(Draft([id], [], [], []))) == FromValues([id], [], ReadBack([]), ReadBack([]))
  {
    BuilderOfDraft(s => s, Draft([id], [], [], []));
    DedupDistinct([id]);
  }

  lemma ShownDraft(controls: seq<Control>, d: Draft)
    requires controls != [] && DraftOf(controls) == Some(d)
    ensures Shown(controls) == BuilderFromFields(FieldsOf(d))
  {
  }

  /** For instance a rule to be removed is shown as a selected rule. */
  lemma RemovalShown(id: string)
    requires Canon(id)
    ensures Shown([RemoveRule(id)]) == Some(Builder(true, false, [id], [], "", "", []))
  {
    OneRemoval(id);
    ShownDraft([RemoveRule(id)], Draft([id], [], [], []));
    OneRemovalRead(id);
    OneRemovalBuilder(id);
  }
}
