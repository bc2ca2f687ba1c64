/**
  lib/rosterpilot/faction-intent.ts:318-363: choosing faction mentions in a prompt. Longer matches win,
  then better kinds, then earlier ones; what overlaps a chosen match is dropped.
 */
module MentionSelection {
  import opened Ordering

  datatype Mention = Mention(factionId: string, start: nat, end: nat, priority: int)

  predicate Overlap(a: Mention, b: Mention) { a.start < b.end && a.end > b.start }

  /** The comparator candidates are sorted by. */
  predicate Before(a: Mention, b: Mention) {
    if a.end - a.start != b.end - b.start then a.end - a.start > b.end - b.start
    else if a.priority != b.priority then a.priority > b.priority
    else a.start < b.start
  }

  /** The comparator the chosen mentions are listed by. */
  predicate Listed(a: Mention, b: Mention) {
    if a.start != b.start then a.start < b.start else StringLess(a.factionId, b.factionId)
  }

  predicate Clashes(selected: seq<Mention>, c: Mention) { exists i :: 0 <= i < |selected| && Overlap(c, selected[i]) }

  /** What is chosen of a list taken in order. */
  function Greedy(candidates: seq<Mention>): seq<Mention> {
    if candidates == [] then []
    else
      var n := |candidates| - 1;
      var before := Greedy(candidates[..n]);
      if Clashes(before, candidates[n]) then before else before + [candidates[n]]
  }

  function SelectedMentions(candidates: seq<Mention>): seq<Mention> {
    SortBy(Listed, Greedy(SortBy(Before, candidates)))
  }

  /** The loop of `findFactionMentions`. */
  method SelectMentions(candidates: seq<Mention>) returns (ordered: seq<Mention>)
    ensures ordered == SelectedMentions(candidates)
  {
    var sorted := SortBy(Before, candidates);
    var selected: seq<Mention> := [];
    for i := 0 to |sorted|
      invariant selected == Greedy(sorted[..i])
    {
      assert sorted[..i + 1][..i] == sorted[..i];
      if Clashes(selected, sorted[i]) { continue; }
      selected := selected + [sorted[i]];
    }
    assert sorted[..|sorted|] == sorted;
    ordered := SortBy(Listed, selected);
  }

  // ---- What the greedy choice is ----

  ghost predicate Apart(selected: seq<Mention>) {
    forall i, j :: 0 <= i < j < |selected| ==> !Overlap(selected[i], selected[j]) && !Overlap(selected[j], selected[i])
  }

  /** A chosen mention that comes no later than `candidates[k]` and overlaps it. */
  ghost predicate Blocked(selected: seq<Mention>, candidates: seq<Mention>, k: nat)
    requires k < |candidates|
  {
    exists j :: 0 <= j < k && candidates[j] in selected && Overlap(candidates[k], candidates[j])
  }

  lemma {:induction false} GreedyMembers(candidates: seq<Mention>)
    ensures forall m :: m in Greedy(candidates) ==> m in candidates
    ensures forall k :: 0 <= k < |candidates| && candidates[k] !in Greedy(candidates) ==>
              Blocked(Greedy(candidates), candidates, k)
  {
    if candidates != [] {
      var n := |candidates| - 1;
      var early := candidates[..n];
      GreedyMembers(early);
      var before, after := Greedy(early), Greedy(candidates);
      assert !Clashes(before, candidates[n]) ==> after[|before|] == candidates[n];
      forall k | 0 <= k < |candidates| && candidates[k] !in after ensures Blocked(after, candidates, k) {
        if k < n {
          assert early[k] !in before;
          var j :| 0 <= j < k && early[j] in before && Overlap(early[k], early[j]);
          assert candidates[j] in after;
        } else {
          var i :| 0 <= i < |before| && Overlap(candidates[n], before[i]);
          assert before[i] in before;
          var j :| 0 <= j < |early| && early[j] == before[i];
          assert candidates[j] in after;
        }
      }
    }
  }

  /** No two chosen mentions overlap. */
  lemma {:induction false} GreedyApart(candidates: seq<Mention>)
    ensures Apart(Greedy(candidates))
  {
    if candidates != [] {
      var n := |candidates| - 1;
      GreedyApart(candidates[..n]);
      var before := Greedy(candidates[..n]);
      if !Clashes(before, candidates[n]) {
        forall i | 0 <= i < |before| ensures !Overlap(before[i], candidates[n]) && !Overlap(candidates[n], before[i]) {}
      }
    }
  }

  lemma ApartMembers(selected: seq<Mention>, a: Mention, b: Mention)
    requires Apart(selected) && a in selected && b in selected && a != b
    ensures !Overlap(a, b)
  {
    var x :| 0 <= x < |selected| && selected[x] == a;
    var y :| 0 <= y < |selected| && selected[y] == b;
    assert x < y || y < x;
  }

  /** A candidate met for the first time is chosen exactly when nothing chosen before it overlaps it. */
  lemma GreedyExact(candidates: seq<Mention>, k: nat)
    requires k < |candidates| && candidates[k] !in candidates[..k]
    ensures candidates[k] in Greedy(candidates) <==> !Blocked(Greedy(candidates), candidates, k)
  {
    GreedyMembers(candidates);
    GreedyApart(candidates);
    var chosen := Greedy(candidates);
    if candidates[k] in chosen {
      forall j | 0 <= j < k && candidates[j] in chosen ensures !Overlap(candidates[k], candidates[j]) {
        assert candidates[j] == candidates[..k][j];
        ApartMembers(chosen, candidates[k], candidates[j]);
      }
    }
  }

  lemma BeforeWeakOrder()
    ensures WeakOrder(Before)
  {}

  lemma ListedWeakOrder()
    ensures WeakOrder(Listed)
  {
    StringLessWeakOrder();
    assert WeakOrder(StringLess);
    hide StringLess;
    forall x, y, z | Listed(x, y) && Listed(y, z) ensures Listed(x, z) {}
    forall x, y, z | Listed(x, z) ensures Listed(x, y) || Listed(y, z) {
      StringLessTotal(x.factionId, y.factionId);
      StringLessTotal(y.factionId, z.factionId);
    }
  }

  ghost predicate Covers(m: Mention, position: nat) { m.start <= position < m.end }

  /** Some character of the prompt belongs to both. */
  ghost predicate SharesCharacter(a: Mention, b: Mention) { exists p :: Covers(a, p) && Covers(b, p) }

  lemma OverlapIff(a: Mention, b: Mention)
    requires a.start < a.end && b.start < b.end
    ensures Overlap(a, b) <==> SharesCharacter(a, b)
  {
    if Overlap(a, b) {
      var p := if a.start < b.start then b.start else a.start;
      assert Covers(a, p) && Covers(b, p);
    }
  }

  /** Longer, or as long and of a better kind, or of the same kind too and starting no later. */
  ghost predicate Outranks(m: Mention, c: Mention) {
    || m.end - m.start > c.end - c.start
    || (m.end - m.start == c.end - c.start && m.priority > c.priority)
    || (m.end - m.start == c.end - c.start && m.priority == c.priority && m.start <= c.start)
  }

  /**
    Every dropped candidate shares a character with a chosen mention that is longer, or as long and of a higher
    priority, or alike in both and starting no later.
   */
  lemma LongestMatchWins(candidates: seq<Mention>, c: Mention)
    requires forall x :: x in candidates ==> x.start < x.end
    requires c in candidates && c !in SelectedMentions(candidates)
    ensures exists m :: m in SelectedMentions(candidates) && SharesCharacter(c, m) && Outranks(m, c)
  {
    var sorted := SortBy(Before, candidates);
    var chosen := Greedy(sorted);
    SortByMembers(Before, candidates);
    SortByMembers(Listed, chosen);
    BeforeWeakOrder();
    SortBySorted(Before, candidates);
    var k :| 0 <= k < |sorted| && sorted[k] == c;
    GreedyMembers(sorted);
    var j :| 0 <= j < k && sorted[j] in chosen && Overlap(sorted[k], sorted[j]);
    assert !Before(sorted[k], sorted[j]);
    assert sorted[j] in SelectedMentions(candidates);
    assert sorted[j] in candidates;
    OverlapIff(c, sorted[j]);
  }

  /** The chosen mentions are candidates, listed in reading order, each ending before the next begins. */
  lemma ChosenInOrder(candidates: seq<Mention>)
    requires forall c :: c in candidates ==> c.start < c.end
    ensures forall m :: m in SelectedMentions(candidates) ==> m in candidates
    ensures var chosen := SelectedMentions(candidates);
            forall i, j :: 0 <= i < j < |chosen| ==> chosen[i].end <= chosen[j].start
  {
    var greedy := Greedy(SortBy(Before, candidates));
    var chosen := SelectedMentions(candidates);
    SortByMembers(Before, candidates);
    SortByMembers(Listed, greedy);
    GreedyMembers(SortBy(Before, candidates));
    GreedyApart(SortBy(Before, candidates));
    ListedWeakOrder();
    SortBySorted(Listed, greedy);
    forall i, j | 0 <= i < j < |chosen| ensures chosen[i].end <= chosen[j].start {
      assert !Listed(chosen[j], chosen[i]);
      assert chosen[i] in chosen && chosen[j] in chosen;
      ApartAnyOrder(greedy, i, j);
    }
  }

  /** Sorting a list without overlaps leaves it without overlaps. */
  lemma ApartAnyOrder(greedy: seq<Mention>, i: nat, j: nat)
    requires Apart(greedy) && (forall m :: m in greedy ==> m.start < m.end) && i < j < |SortBy(Listed, greedy)|
    ensures var chosen := SortBy(Listed, greedy); !Overlap(chosen[i], chosen[j])
  {
    var chosen := SortBy(Listed, greedy);
    SortByMembers(Listed, greedy);
    SortByMultiset(Listed, greedy);
    var a, b := chosen[i], chosen[j];
    assert a in greedy && b in greedy;
    if a == b {
      CountTwice(chosen, i, j);
      var x, y := CountedTwice(greedy, a);
      assert !Overlap(greedy[x], greedy[y]);
    } else {
      ApartMembers(greedy, a, b);
    }
  }
}
