/** Rule exclusions: free-text fields, the controls built from them, and the guided builder. */
module Exclusions {
  import opened Lines

  const MAX_TEXT := 240

  // ---- text, as JavaScript trims and splits it ----

  predicate IsSpace(c: char) {
    || '\t' <= c <= '\r'
    || c in {' ', '\U{a0}', '\U{1680}', '\U{2028}', '\U{2029}', '\U{202f}', '\U{205f}', '\U{3000}', '\U{feff}'}
    || '\U{2000}' <= c <= '\U{200a}'
  }

  function Trim(s: string): string {
    if s == "" then s
    else if IsSpace(s[0]) then Trim(s[1..])
    else if IsSpace(s[|s| - 1]) then Trim(s[..|s| - 1])
    else s
  }

  function Clipped(s: string): string {
    var t := Trim(s);
    if |t| <= MAX_TEXT then t else t[..MAX_TEXT]
  }

  /** The first occurrence of each value, in order. */
  function Dedup(xs: seq<string>): (r: seq<string>)
    ensures forall x :: x in r <==> x in xs
    ensures Distinct(r)
  {
    if xs == [] then []
    else
      var init := Dedup(xs[..|xs| - 1]);
      assert xs == xs[..|xs| - 1] + [Last(xs)];
      if Last(xs) in init then init else init + [Last(xs)]
  }

  predicate Distinct<T(==)>(xs: seq<T>) {
    forall i, j :: 0 <= i < j < |xs| ==> xs[i] != xs[j]
  }

  lemma {:induction false} DedupDistinct(xs: seq<string>)
    requires Distinct(xs)
    ensures Dedup(xs) == xs
  {
    if xs != [] {
      DedupDistinct(xs[..|xs| - 1]);
      assert xs == xs[..|xs| - 1] + [Last(xs)];
    }
  }

  function TrimmedNonEmpty(pieces: seq<string>): seq<string> {
    if pieces == [] then []
    else
      var t := Trim(Last(pieces));
      TrimmedNonEmpty(pieces[..|pieces| - 1]) + if t == "" then [] else [t]
  }

  function Unify(s: string): string {
    seq(|s|, k requires 0 <= k < |s| => if s[k] == ',' then '\n' else s[k])
  }

  /**
   The values of a free-text field: cut at newlines and commas, trimmed, without
   repeats. Cutting at each separator or at each run of them differs in empty pieces
   only, which are dropped.
   */
  function SplitValues(s: string): seq<string> {
    Dedup(TrimmedNonEmpty(Pieces(Unify(s), '\n')))
  }

  function JoinLines(xs: seq<string>): string {
    if xs == [] then "" else Join(xs, '\n')
  }

  /** A value that survives being written on a line of a field and read back. */
  predicate Canon(x: string) {
    x != "" && '\n' !in x && ',' !in x && Trim(x) == x
  }

  predicate AllCanon(xs: seq<string>) {
    forall k :: 0 <= k < |xs| ==> Canon(xs[k])
  }

  lemma PiecesMore(s: string, init: seq<string>, x: string)
    requires Pieces(s, '\n') == init && init != [] && '\n' !in x
    ensures Pieces(s + ['\n'] + x, '\n') == init + [x]
  {
    var t := s + ['\n'];
    assert t[..|s|] == s;
    assert Pieces(t, '\n') == init + [[]];
    PiecesConcat(t, x, '\n');
    PiecesWhole(x, '\n');
    assert (init + [[]])[..|init|] == init && [] + x == x;
  }

  lemma {:induction false} PiecesOfJoin(xs: seq<string>)
    requires xs != [] && forall k :: 0 <= k < |xs| ==> '\n' !in xs[k]
    ensures Pieces(Join(xs, '\n'), '\n') == xs
  {
    var n := |xs| - 1;
    if n == 0 {
      PiecesWhole(xs[0], '\n');
    } else {
      PiecesOfJoin(xs[..n]);
      PiecesMore(Join(xs[..n], '\n'), xs[..n], xs[n]);
      assert xs == xs[..n] + [xs[n]];
    }
  }

  lemma {:induction false} CanonKept(xs: seq<string>)
    requires AllCanon(xs)
    ensures TrimmedNonEmpty(xs) == xs
  {
    if xs != [] {
      CanonKept(xs[..|xs| - 1]);
      assert xs == xs[..|xs| - 1] + [Last(xs)];
    }
  }

  lemma {:induction false} JoinNoCommas(xs: seq<string>)
    requires xs != [] && AllCanon(xs)
    ensures ',' !in Join(xs, '\n')
  {
    if |xs| > 1 {
      JoinNoCommas(xs[..|xs| - 1]);
    }
  }

  /** Writing canonical values one a line and reading the field back drops repeats only. */
  lemma SplitJoin(xs: seq<string>)
    requires AllCanon(xs)
    ensures SplitValues(JoinLines(xs)) == Dedup(xs)
  {
    if xs == [] {
      assert Unify("") == "";
      assert Pieces("", '\n') == [""];
      assert TrimmedNonEmpty([""]) == TrimmedNonEmpty([]) + [] by {
        assert [""][..0] == [];
      }
    } else {
      var s := Join(xs, '\n');
      JoinNoCommas(xs);
      assert Unify(s) == s;
      PiecesOfJoin(xs);
      CanonKept(xs);
    }
  }

  // ---- controls and fields ----

  datatype Control =
    | RemoveRule(ruleId: string)
    | RemoveByTag(tag: string)
    | RuleTarget(ruleId: string, target: string)
    | TagTarget(tag: string, target: string)
    | Malformed

  datatype Group = Group(selectors: string, targets: string)

  datatype Fields = Fields(removeRuleIds: string, removeTags: string, ruleGroups: seq<Group>, tagGroups: seq<Group>)

  const ARG := "request.arg.value:"
  const HEADER := "request.header.value:"
  const COOKIE := "request.cookie.value:"
  const JSON := "request.body.json.value:"
  const BODY := "request.body"

  /** A bare parameter name stands for that parameter's value. */
  function Normalize(value: string): string {
    var target := Clipped(value);
    if target == "" then "" else if "request." <= target then target else ARG + target
  }

  /** How a selector and a target make a control. */
  type Maker = (string, string) -> Control

  function RuleControl(selector: string, target: string): Control {
    RuleTarget(selector, Normalize(target))
  }

  function TagControl(selector: string, target: string): Control {
    TagTarget(selector, Normalize(target))
  }

  function Row(mk: Maker, selector: string, targets: seq<string>): (r: seq<Control>)
    ensures |r| == |targets| && forall k :: 0 <= k < |r| ==> r[k] == mk(selector, targets[k])
  {
    seq(|targets|, k requires 0 <= k < |targets| => mk(selector, targets[k]))
  }

  /** Every selector with every target, selector by selector. */
  function Cross(mk: Maker, selectors: seq<string>, targets: seq<string>): seq<Control> {
    if selectors == [] then []
    else Cross(mk, selectors[..|selectors| - 1], targets) + Row(mk, Last(selectors), targets)
  }

  /** A group as its selectors and its targets. */
  function GroupValues(g: Group): (seq<string>, seq<string>) {
    (SplitValues(g.selectors), SplitValues(g.targets))
  }

  function CrossAll(mk: Maker, groups: seq<(seq<string>, seq<string>)>): seq<Control> {
    if groups == [] then []
    else CrossAll(mk, groups[..|groups| - 1]) + Cross(mk, Last(groups).0, Last(groups).1)
  }

  predicate Populated(g: Group) {
    Trim(g.selectors) != "" || Trim(g.targets) != ""
  }

  /** The groups with anything in them, read. */
  function PopulatedGroups(groups: seq<Group>): seq<(seq<string>, seq<string>)> {
    if groups == [] then []
    else PopulatedGroups(groups[..|groups| - 1]) + if Populated(Last(groups)) then [GroupValues(Last(groups))] else []
  }

  function Removals(f: Fields): seq<Control> {
    var ids, tags := SplitValues(f.removeRuleIds), SplitValues(f.removeTags);
    seq(|ids|, k requires 0 <= k < |ids| => RemoveRule(ids[k]))
    + seq(|tags|, k requires 0 <= k < |tags| => RemoveByTag(tags[k]))
  }

  function Controls(f: Fields): seq<Control> {
    Removals(f) + CrossAll(RuleControl, PopulatedGroups(f.ruleGroups)) + CrossAll(TagControl, PopulatedGroups(f.tagGroups))
  }

  method PushRow(mk: Maker, selector: string, targets: seq<string>, controls: seq<Control>) returns (out: seq<Control>)
    ensures out == controls + Row(mk, selector, targets)
  {
    out := controls;
    ghost var row := Row(mk, selector, targets);
    for j := 0 to |targets|
      invariant out == controls + row[..j]
    {
      assert controls + row[..j + 1] == (controls + row[..j]) + [row[j]];
      out := out + [mk(selector, targets[j])];
    }
    assert row[..|targets|] == row;
  }

  /** Selector by selector, the controls pushed one by one. */
  method PushCross(mk: Maker, selectors: seq<string>, targets: seq<string>, controls: seq<Control>) returns (out: seq<Control>)
    ensures out == controls + Cross(mk, selectors, targets)
  {
    out := controls;
    for i := 0 to |selectors|
      invariant out == controls + Cross(mk, selectors[..i], targets)
    {
      CrossSnoc(mk, selectors, targets, i);
      ghost var before, row := Cross(mk, selectors[..i], targets), Row(mk, selectors[i], targets);
      assert (controls + before) + row == controls + (before + row);
      out := PushRow(mk, selectors[i], targets, out);
    }
    assert selectors[..|selectors|] == selectors;
  }

  lemma CrossSnoc(mk: Maker, selectors: seq<string>, targets: seq<string>, i: nat)
    requires i < |selectors|
    ensures Cross(mk, selectors[..i + 1], targets) == Cross(mk, selectors[..i], targets) + Row(mk, selectors[i], targets)
  {
    assert selectors[..i + 1][..i] == selectors[..i];
  }

  method PushGroups(mk: Maker, groups: seq<(seq<string>, seq<string>)>, controls: seq<Control>) returns (out: seq<Control>)
    ensures out == controls + CrossAll(mk, groups)
  {
    out := controls;
    for i := 0 to |groups|
      invariant out == controls + CrossAll(mk, groups[..i])
    {
      CrossAllSnoc(mk, groups, i);
      ghost var before, more := CrossAll(mk, groups[..i]), Cross(mk, groups[i].0, groups[i].1);
      assert (controls + before) + more == controls + (before + more);
      out := PushCross(mk, groups[i].0, groups[i].1, out);
    }
    assert groups[..|groups|] == groups;
  }

  lemma CrossAllSnoc(mk: Maker, groups: seq<(seq<string>, seq<string>)>, i: nat)
    requires i < |groups|
    ensures CrossAll(mk, groups[..i + 1]) == CrossAll(mk, groups[..i]) + Cross(mk, groups[i].0, groups[i].1)
  {
    assert groups[..i + 1][..i] == groups[..i];
  }

  method BuildExclusionControls(f: Fields) returns (controls: seq<Control>)
    ensures controls == Controls(f)
  {
    controls := PushGroups(RuleControl, PopulatedGroups(f.ruleGroups), Removals(f));
    controls := PushGroups(TagControl, PopulatedGroups(f.tagGroups), controls);
  }

  // ---- the cross product, exactly and without repeats ----

  lemma {:induction false} CrossMembers(mk: Maker, selectors: seq<string>, targets: seq<string>, c: Control)
    ensures c in Cross(mk, selectors, targets) <==>
      exists s, t :: s in selectors && t in targets && c == mk(s, t)
  {
    if selectors != [] {
      var init, s' := selectors[..|selectors| - 1], Last(selectors);
      CrossMembers(mk, init, targets, c);
      assert selectors == init + [s'];
      var row := Row(mk, s', targets);
      assert c in row <==> exists t :: t in targets && c == mk(s', t) by {
        if c in row {
          var k :| 0 <= k < |row| && row[k] == c;
          assert targets[k] in targets;
        }
        if t :| t in targets && c == mk(s', t) {
          var k :| 0 <= k < |targets| && targets[k] == t;
          assert row[k] == c;
        }
      }
    }
  }

  function Normalized(targets: seq<string>): (r: seq<string>)
    ensures |r| == |targets| && forall k :: 0 <= k < |r| ==> r[k] == Normalize(targets[k])
  {
    seq(|targets|, k requires 0 <= k < |targets| => Normalize(targets[k]))
  }

  /** Makers that keep the selector apart, as both do. */
  ghost predicate Apart(mk: Maker) {
    forall s1, t1, s2, t2 :: mk(s1, t1) == mk(s2, t2) ==> s1 == s2
  }

  lemma RowApart(mk: Maker, selectors: seq<string>, s: string, targets: seq<string>)
    requires Apart(mk) && s !in selectors
    ensures forall k :: 0 <= k < |Cross(mk, selectors, targets)| ==> Cross(mk, selectors, targets)[k] !in Row(mk, s, targets)
  {
    var before := Cross(mk, selectors, targets);
    forall k | 0 <= k < |before| ensures before[k] !in Row(mk, s, targets) {
      CrossMembers(mk, selectors, targets, before[k]);
    }
  }

  /** No control is built twice exactly when no selector sees the same control for two targets. */
  lemma {:induction false} CrossDistinct(mk: Maker, selectors: seq<string>, targets: seq<string>)
    requires Apart(mk) && Distinct(selectors)
    ensures Distinct(Cross(mk, selectors, targets)) <==> forall s :: s in selectors ==> Distinct(Row(mk, s, targets))
  {
    if selectors != [] {
      var n := |selectors| - 1;
      var init := selectors[..n];
      assert selectors == init + [selectors[n]];
      CrossDistinct(mk, init, targets);
      RowApart(mk, init, selectors[n], targets);
      DistinctConcat(Cross(mk, init, targets), Row(mk, selectors[n], targets));
    }
  }

  lemma RowDistinct(selector: string, targets: seq<string>)
    ensures Distinct(Row(RuleControl, selector, targets)) <==> Distinct(Normalized(targets))
    ensures Distinct(Row(TagControl, selector, targets)) <==> Distinct(Normalized(targets))
  {
    var rules, tags, names := Row(RuleControl, selector, targets), Row(TagControl, selector, targets), Normalized(targets);
    assert forall i, j :: 0 <= i < j < |rules| ==> (rules[i] == rules[j] <==> names[i] == names[j]);
    assert forall i, j :: 0 <= i < j < |tags| ==> (tags[i] == tags[j] <==> names[i] == names[j]);
  }

  lemma DistinctConcat<T>(a: seq<T>, b: seq<T>)
    requires forall k :: 0 <= k < |a| ==> a[k] !in b
    ensures Distinct(a + b) <==> Distinct(a) && Distinct(b)
  {
    var c := a + b;
    if Distinct(c) {
      assert forall i :: 0 <= i < |a| ==> a[i] == c[i];
      assert forall i :: 0 <= i < |b| ==> b[i] == c[|a| + i];
    }
  }
}
