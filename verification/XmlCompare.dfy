/**
  lib/rosterpilot/certification.ts:2396-2443, `compareCanonicalXmlTree`: the first difference between
  two trees, with the code it is reported under. No difference means equal trees.
 */
module XmlCompare {
  import opened Sequences
  import opened Wrappers
  import opened Ordering
  import opened XmlText
  import opened XmlMarkup

  datatype Mismatch = TreeMismatch | SelectionIdMismatch | SelectionReferenceMismatch | PointsMismatch

  const REFERENCE_KEYS: set<string> := {"entryId", "entryGroupId", "from", "group", "number", "type"}

  function CodeFor(tag: string, key: string): Mismatch {
    if tag == "selection" && key == "id" then SelectionIdMismatch
    else if tag == "selection" && key in REFERENCE_KEYS then SelectionReferenceMismatch
    else if tag == "cost" then PointsMismatch
    else TreeMismatch
  }

  /** An attribute name has a first character and no NUL. */
  predicate AttributeName(key: string) { key != "" && '\0' !in key }

  predicate Named(t: Tree) {
    (forall k :: k in t.attributes ==> AttributeName(k)) && forall i :: 0 <= i < |t.children| ==> Named(t.children[i])
  }

  /** `Object.keys(attributes).sort()`. */
  ghost function KeyList(attributes: map<string, string>): (keys: seq<string>)
    ensures Ascending(keys) && forall k :: k in keys <==> k in attributes
  {
    SortedKeys(attributes.Keys)
  }

  // ---- Joined keys ----

  lemma NulInJoin(keys: seq<string>)
    requires forall k :: k in keys ==> AttributeName(k)
    ensures |keys| >= 2 ==> '\0' in JoinBy("\0", keys)
    ensures |keys| == 1 ==> '\0' !in JoinBy("\0", keys)
    ensures JoinBy("\0", keys) == "" <==> keys == []
  {
    if |keys| >= 2 {
      assert JoinBy("\0", keys)[|keys[0]|] == '\0';
    } else if |keys| == 1 {
      assert keys[0] in keys;
    }
  }

  /** Joining is injective on lists of attribute names. */
  lemma {:induction false} JoinInjective(a: seq<string>, b: seq<string>)
    requires (forall k :: k in a ==> AttributeName(k)) && (forall k :: k in b ==> AttributeName(k)) &&
             JoinBy("\0", a) == JoinBy("\0", b)
    ensures a == b
  {
    NulInJoin(a);
    NulInJoin(b);
    assert a != [] ==> a[0] in a;
    assert b != [] ==> b[0] in b;
    if |a| >= 2 && |b| >= 2 {
      SplitAtNul(a[0], b[0], JoinBy("\0", a[1..]), JoinBy("\0", b[1..]));
      JoinInjective(a[1..], b[1..]);
      assert a == [a[0]] + a[1..] && b == [b[0]] + b[1..];
    }
  }

  // ---- The comparison ----

  /** The first key whose value changed. */
  function FirstChanged(keys: seq<string>, actual: map<string, string>, expected: map<string, string>): Option<string>
    requires forall k :: k in keys ==> k in actual && k in expected
  {
    if keys == [] then None
    else
      assert keys[0] in keys;
      if actual[keys[0]] != expected[keys[0]] then Some(keys[0]) else FirstChanged(keys[1..], actual, expected)
  }

  lemma {:induction false} NothingChanged(keys: seq<string>, actual: map<string, string>, expected: map<string, string>)
    requires forall k :: k in keys ==> k in actual && k in expected
    ensures FirstChanged(keys, actual, expected).None? <==> forall k :: k in keys ==> actual[k] == expected[k]
  {
    if keys != [] {
      assert keys[0] in keys;
      NothingChanged(keys[1..], actual, expected);
      assert keys == [keys[0]] + keys[1..];
    }
  }

  /** `compareCanonicalXmlTree`; `None` when it raises nothing. */
  ghost function Compare(actual: Tree, expected: Tree): Option<Mismatch>
    requires Named(actual) && Named(expected)
    decreases expected, 1, 0
  {
    var actualKeys, expectedKeys := KeyList(actual.attributes), KeyList(expected.attributes);
    if actual.tag != expected.tag then Some(TreeMismatch)
    else if JoinBy("\0", actualKeys) != JoinBy("\0", expectedKeys) then Some(TreeMismatch)
    else
      JoinInjective(actualKeys, expectedKeys);
      var changed := FirstChanged(expectedKeys, actual.attributes, expected.attributes);
      if changed.Some? then Some(CodeFor(expected.tag, changed.value))
      else if |actual.children| != |expected.children| then Some(TreeMismatch)
      else CompareAll(actual.children, expected, expected.children)
  }

  ghost function CompareAll(actual: seq<Tree>, parent: Tree, expected: seq<Tree>): Option<Mismatch>
    requires |actual| == |expected| &&
             forall i :: 0 <= i < |expected| ==> expected[i] < parent && Named(actual[i]) && Named(expected[i])
    decreases parent, 0, |expected|
  {
    if expected == [] then None
    else
      var first := Compare(actual[0], expected[0]);
      if first.Some? then first else CompareAll(actual[1..], parent, expected[1..])
  }

  /** The two attribute checks pass together exactly when the attributes are the same. */
  lemma AttributesSame(actual: map<string, string>, expected: map<string, string>)
    requires (forall k :: k in actual ==> AttributeName(k)) && (forall k :: k in expected ==> AttributeName(k))
    ensures JoinBy("\0", KeyList(actual)) == JoinBy("\0", KeyList(expected)) ==> KeyList(actual) == KeyList(expected)
    ensures JoinBy("\0", KeyList(actual)) == JoinBy("\0", KeyList(expected)) &&
            FirstChanged(KeyList(expected), actual, expected).None?
            <==> actual == expected
  {
    hide JoinBy, Ascending, KeyList, FirstChanged, AttributeName;
    var a, b := KeyList(actual), KeyList(expected);
    if JoinBy("\0", a) == JoinBy("\0", b) {
      JoinInjective(a, b);
      NothingChanged(b, actual, expected);
      assert actual.Keys == expected.Keys by { assert forall k :: k in actual.Keys <==> k in b; }
    }
  }

  /** Nothing is raised exactly when the trees are equal. */
  lemma {:induction false} CompareNoneIff(actual: Tree, expected: Tree)
    requires Named(actual) && Named(expected)
    ensures Compare(actual, expected).None? <==> actual == expected
    decreases expected, 1, 0
  {
    hide JoinBy, FirstChanged, CodeFor, CompareAll, KeyList, AttributeName;
    AttributesSame(actual.attributes, expected.attributes);
    if |actual.children| == |expected.children| { CompareAllNoneIff(actual.children, expected, expected.children); }
  }

  lemma {:induction false} CompareAllNoneIff(actual: seq<Tree>, parent: Tree, expected: seq<Tree>)
    requires |actual| == |expected| &&
             forall i :: 0 <= i < |expected| ==> expected[i] < parent && Named(actual[i]) && Named(expected[i])
    ensures CompareAll(actual, parent, expected).None? <==> actual == expected
    decreases parent, 0, |expected|
  {
    hide Compare, Named;
    if expected != [] {
      CompareNoneIff(actual[0], expected[0]);
      CompareAllNoneIff(actual[1..], parent, expected[1..]);
      assert actual == [actual[0]] + actual[1..] && expected == [expected[0]] + expected[1..];
    }
  }

  // ---- Every failure is the first difference, under its own code ----

  /** The mismatch a change of that attribute is reported as. */
  ghost predicate ChangedIn(tag: string, key: string, m: Mismatch) {
    match m
    case SelectionIdMismatch => tag == "selection" && key == "id"
    case SelectionReferenceMismatch =>
      tag == "selection" &&
      key in ["entryId", "entryGroupId", "from", "group", "number", "type"]
    case PointsMismatch => tag == "cost"
    case TreeMismatch =>
      tag != "cost" &&
      (tag == "selection" ==> key !in ["id", "entryId", "entryGroupId", "from", "group", "number", "type"])
  }

  /** The smallest attribute name whose value changed. */
  ghost predicate FirstChange(actual: map<string, string>, expected: map<string, string>, key: string) {
    && key in actual && key in expected && actual[key] != expected[key]
    && forall k :: k in actual && k in expected && actual[k] != expected[k] ==> k == key || StringLess(key, k)
  }

  ghost predicate SameNode(actual: Tree, expected: Tree) {
    actual.tag == expected.tag && actual.attributes == expected.attributes &&
    |actual.children| == |expected.children|
  }

  /** Two nodes differ by themselves, whatever is below them. */
  ghost predicate Differ(actual: Tree, expected: Tree, m: Mismatch) {
    || (m == TreeMismatch &&
        (actual.tag != expected.tag || actual.attributes.Keys != expected.attributes.Keys ||
         (actual.attributes == expected.attributes && |actual.children| != |expected.children|)))
    || (actual.tag == expected.tag && actual.attributes.Keys == expected.attributes.Keys &&
        exists k :: FirstChange(actual.attributes, expected.attributes, k) && ChangedIn(expected.tag, k, m))
  }

  /** Nodes are the same down to a place where two differ, and so are the subtrees passed on the way. */
  ghost predicate FirstDifference(actual: Tree, expected: Tree, path: seq<nat>, m: Mismatch)
    decreases |path|
  {
    if path == [] then Differ(actual, expected, m)
    else
      && SameNode(actual, expected) && path[0] < |expected.children|
      && (forall i :: 0 <= i < path[0] ==> actual.children[i] == expected.children[i])
      && FirstDifference(actual.children[path[0]], expected.children[path[0]], path[1..], m)
  }

  lemma CodeIff(tag: string, key: string, m: Mismatch)
    ensures CodeFor(tag, key) == m <==> ChangedIn(tag, key, m)
  {
    assert key in REFERENCE_KEYS <==> key in ["entryId", "entryGroupId", "from", "group", "number", "type"];
    assert key in ["id", "entryId", "entryGroupId", "from", "group", "number", "type"] <==>
      key == "id" || key in ["entryId", "entryGroupId", "from", "group", "number", "type"];
    assert "id" !in REFERENCE_KEYS;
    assert |"cost"| != |"selection"|;
  }

  lemma {:induction false} FirstChangedIsFirst(keys: seq<string>, actual: map<string, string>,
                                               expected: map<string, string>, key: string)
    requires Ascending(keys) && forall k :: k in keys ==> k in actual && k in expected
    ensures FirstChanged(keys, actual, expected) == Some(key) <==>
            key in keys && actual[key] != expected[key] &&
              forall k :: k in keys && actual[k] != expected[k] ==> k == key || StringLess(key, k)
  {
    if keys != [] {
      var first, rest := keys[0], keys[1..];
      assert keys == [first] + rest;
      forall k | k in rest ensures StringLess(first, k) && k != first {
        var i :| 0 <= i < |rest| && rest[i] == k;
        assert StringLess(keys[0], keys[i + 1]);
        StringLessIrreflexive(first);
      }
      assert forall i :: 0 <= i < |rest| ==> rest[i] == keys[i + 1];
      assert Ascending(rest);
      FirstChangedIsFirst(rest, actual, expected, key);
      if StringLess(key, first) && key in rest {
        StringLessTransitive(key, first, key);
        StringLessIrreflexive(key);
      }
    }
  }

  /** What the comparison raises at one node, before it goes below. */
  lemma NodeSays(actual: Tree, expected: Tree, m: Mismatch)
    requires Named(actual) && Named(expected)
    ensures !SameNode(actual, expected) ==> (Compare(actual, expected) == Some(m) <==> Differ(actual, expected, m))
    ensures SameNode(actual, expected) ==>
              !Differ(actual, expected, m) &&
              Compare(actual, expected) == CompareAll(actual.children, expected, expected.children)
  {
    var a, b := actual.attributes, expected.attributes;
    NodeRaises(actual, expected);
    if a.Keys == b.Keys { ChangeSays(a, b, expected.tag, m); }
    hide Compare, CompareAll, FirstChanged, CodeFor, KeyList, AttributeName, ChangedIn, FirstChange, Named;
  }

  lemma NodeRaises(actual: Tree, expected: Tree)
    requires Named(actual) && Named(expected)
    ensures var a, b, r := actual.attributes, expected.attributes, Compare(actual, expected);
            if actual.tag != expected.tag || a.Keys != b.Keys then r == Some(TreeMismatch)
            else
              && (forall k :: k in KeyList(b) ==> k in a && k in b)
              && if a != b then
                   FirstChanged(KeyList(b), a, b).Some? &&
                   r == Some(CodeFor(expected.tag, FirstChanged(KeyList(b), a, b).value))
                 else if |actual.children| != |expected.children| then r == Some(TreeMismatch)
                 else r == CompareAll(actual.children, expected, expected.children)
  {
    var a, b := actual.attributes, expected.attributes;
    hide JoinBy, FirstChanged, CodeFor, CompareAll, KeyList, AttributeName, Ascending;
    AttributesSame(a, b);
    if a.Keys == b.Keys {
      assert forall k :: k in a <==> k in b by { assert forall k :: k in a.Keys <==> k in b.Keys; }
      AscendingUnique(KeyList(a), KeyList(b));
    }
  }

  lemma ChangeSays(a: map<string, string>, b: map<string, string>, tag: string, m: Mismatch)
    requires a.Keys == b.Keys
    ensures forall k :: k in KeyList(b) ==> k in a && k in b
    ensures a == b <==> FirstChanged(KeyList(b), a, b).None?
    ensures a != b ==>
              (CodeFor(tag, FirstChanged(KeyList(b), a, b).value) == m <==>
               exists k :: FirstChange(a, b, k) && ChangedIn(tag, k, m))
    ensures a == b ==> forall k :: !FirstChange(a, b, k)
  {
    ChangeFound(a, b);
    hide FirstChanged, ChangedIn, CodeFor, KeyList, FirstChange;
    forall k ensures CodeFor(tag, k) == m <==> ChangedIn(tag, k, m) { CodeIff(tag, k, m); }
  }

  /** The loop over the sorted names finds the smallest one that changed. */
  lemma ChangeFound(a: map<string, string>, b: map<string, string>)
    requires a.Keys == b.Keys
    ensures forall k :: k in KeyList(b) ==> k in a && k in b
    ensures a == b <==> FirstChanged(KeyList(b), a, b).None?
    ensures forall k :: FirstChanged(KeyList(b), a, b) == Some(k) <==> FirstChange(a, b, k)
  {
    assert forall k :: k in a <==> k in b by { assert forall k :: k in a.Keys <==> k in b.Keys; }
    var keys := KeyList(b);
    NothingChanged(keys, a, b);
    hide FirstChanged, Ascending, KeyList, StringLess;
    forall k ensures FirstChanged(keys, a, b) == Some(k) <==> FirstChange(a, b, k) {
      FirstChangedIsFirst(keys, a, b, k);
    }
  }

  /** Somewhere there is a first difference, of that kind. */
  ghost predicate Parted(actual: Tree, expected: Tree, m: Mismatch) {
    exists path :: FirstDifference(actual, expected, path, m)
  }

  /** What is raised is the first difference in document order, under the code of that difference. */
  lemma {:induction false} CompareSays(actual: Tree, expected: Tree, m: Mismatch)
    requires Named(actual) && Named(expected)
    ensures Compare(actual, expected) == Some(m) <==> Parted(actual, expected, m)
    decreases expected, 1, 0
  {
    NodeSays(actual, expected, m);
    NamedBelow(actual);
    NamedBelow(expected);
    hide Compare, CompareAll, Named, Differ, Parted;
    if SameNode(actual, expected) {
      CompareAllSays(actual.children, expected, expected.children, m);
      BelowSame(actual, expected, m);
    } else {
      HereOnly(actual, expected, m);
    }
  }

  lemma NamedBelow(t: Tree)
    requires Named(t)
    ensures forall i :: 0 <= i < |t.children| ==> Named(t.children[i]) && t.children[i] < t
  {}

  lemma HereOnly(actual: Tree, expected: Tree, m: Mismatch)
    requires !SameNode(actual, expected)
    ensures Parted(actual, expected, m) <==> Differ(actual, expected, m)
  {
    hide Differ, SameNode;
    if Differ(actual, expected, m) { assert FirstDifference(actual, expected, [], m); }
  }

  lemma PartedAt(actual: Tree, expected: Tree, path: seq<nat>, m: Mismatch)
    requires FirstDifference(actual, expected, path, m)
    ensures Parted(actual, expected, m)
  {}

  /** The first child that differs. */
  ghost predicate FirstAmong(actual: seq<Tree>, expected: seq<Tree>, i: nat, m: Mismatch)
    requires |actual| == |expected|
  {
    i < |expected| && (forall j :: 0 <= j < i ==> actual[j] == expected[j]) && Parted(actual[i], expected[i], m)
  }

  lemma BelowSame(actual: Tree, expected: Tree, m: Mismatch)
    requires SameNode(actual, expected) && !Differ(actual, expected, m)
    ensures Parted(actual, expected, m) <==> exists i :: FirstAmong(actual.children, expected.children, i, m)
  {
    hide Differ;
    if Parted(actual, expected, m) {
      var path :| FirstDifference(actual, expected, path, m);
      PartedAt(actual.children[path[0]], expected.children[path[0]], path[1..], m);
      assert FirstAmong(actual.children, expected.children, path[0], m);
    }
    if i: nat :| FirstAmong(actual.children, expected.children, i, m) {
      var path :| FirstDifference(actual.children[i], expected.children[i], path, m);
      var whole := [i] + path;
      assert whole[0] == i && whole[1..] == path;
      assert FirstDifference(actual, expected, whole, m);
    }
  }

  lemma {:induction false} CompareAllSays(actual: seq<Tree>, parent: Tree, expected: seq<Tree>, m: Mismatch)
    requires |actual| == |expected| &&
             forall i :: 0 <= i < |expected| ==> expected[i] < parent && Named(actual[i]) && Named(expected[i])
    ensures CompareAll(actual, parent, expected) == Some(m) <==> exists i :: FirstAmong(actual, expected, i, m)
    decreases parent, 0, |expected|
  {
    hide Compare, Named, Parted;
    if expected != [] {
      CompareNoneIff(actual[0], expected[0]);
      CompareSays(actual[0], expected[0], m);
      CompareAllSays(actual[1..], parent, expected[1..], m);
      AmongSplit(actual, expected, m);
      if actual[0] == expected[0] { SameNeverParted(actual[0], m); }
    }
  }

  lemma SameNeverParted(t: Tree, m: Mismatch)
    ensures !Parted(t, t, m)
  {
    forall path ensures !FirstDifference(t, t, path, m) { SameNeverDiffers(t, path, m); }
  }

  lemma {:induction false} SameNeverDiffers(t: Tree, path: seq<nat>, m: Mismatch)
    ensures !FirstDifference(t, t, path, m)
    decreases |path|
  {
    if path != [] && path[0] < |t.children| { SameNeverDiffers(t.children[path[0]], path[1..], m); }
  }

  lemma AmongSplit(actual: seq<Tree>, expected: seq<Tree>, m: Mismatch)
    requires |actual| == |expected| > 0
    ensures (exists i :: FirstAmong(actual, expected, i, m)) <==>
            || Parted(actual[0], expected[0], m)
            || (actual[0] == expected[0] && exists i :: FirstAmong(actual[1..], expected[1..], i, m))
  {
    hide Parted;
    if i: nat :| FirstAmong(actual, expected, i, m) {
      if i > 0 { AmongRest(actual, expected, i, m); }
    }
    if Parted(actual[0], expected[0], m) { assert FirstAmong(actual, expected, 0, m); }
    if actual[0] == expected[0] {
      if j: nat :| FirstAmong(actual[1..], expected[1..], j, m) { AmongRest(actual, expected, j + 1, m); }
    }
  }

  lemma AmongRest(actual: seq<Tree>, expected: seq<Tree>, i: nat, m: Mismatch)
    requires |actual| == |expected| > 0 && 0 < i
    ensures FirstAmong(actual, expected, i, m) <==>
            actual[0] == expected[0] && FirstAmong(actual[1..], expected[1..], i - 1, m)
  {
    hide Parted;
    var restA, restE := actual[1..], expected[1..];
    assert forall j :: 0 <= j < |restA| ==> restA[j] == actual[j + 1] && restE[j] == expected[j + 1];
    if actual[0] == expected[0] && FirstAmong(restA, restE, i - 1, m) {
      forall j | 0 <= j < i ensures actual[j] == expected[j] {
        if j > 0 { assert restA[j - 1] == restE[j - 1]; }
      }
    }
  }
}
