/**
  lib/rosterpilot/faction-intent.ts:199-217: the two-row edit distance is the least number of
  single-character edits, so it is a metric; 219-237: the similarity scores built on it.
 */
module EditDistance {

  // ---- Edits ----

  /** `t` is `s` with `x`, one character or none, replaced by `y`, one character or none. */
  predicate EditAt(s: string, t: string, p: string, x: string, y: string, q: string) {
    |x| <= 1 && |y| <= 1 && |x| + |y| > 0 && s == p + x + q && t == p + y + q
  }

  /** One insertion, deletion or replacement, anywhere. */
  ghost predicate OneEdit(s: string, t: string) { exists p, x, y, q :: EditAt(s, t, p, x, y, q) }

  /** `b` is reached from `a` by exactly `n` edits. */
  ghost predicate Reach(a: string, b: string, n: nat)
    decreases n
  {
    if n == 0 then a == b else exists m :: OneEdit(a, m) && Reach(m, b, n - 1)
  }

  lemma OneEditSymmetric(s: string, t: string)
    requires OneEdit(s, t)
    ensures OneEdit(t, s)
  {
    var p, x, y, q :| EditAt(s, t, p, x, y, q);
    assert EditAt(t, s, p, y, x, q);
  }

  lemma {:induction false} ReachJoin(a: string, b: string, c: string, m: nat, n: nat)
    requires Reach(a, b, m) && Reach(b, c, n)
    ensures Reach(a, c, m + n)
    decreases m
  {
    if m != 0 {
      var x :| OneEdit(a, x) && Reach(x, b, m - 1);
      ReachJoin(x, b, c, m - 1, n);
    }
  }

  lemma ReachOne(a: string, b: string)
    requires OneEdit(a, b)
    ensures Reach(a, b, 1)
  {
    assert Reach(b, b, 0);
  }

  lemma {:induction false} ReachSymmetric(a: string, b: string, n: nat)
    requires Reach(a, b, n)
    ensures Reach(b, a, n)
    decreases n
  {
    if n != 0 {
      var x :| OneEdit(a, x) && Reach(x, b, n - 1);
      ReachSymmetric(x, b, n - 1);
      OneEditSymmetric(a, x);
      ReachOne(x, a);
      ReachJoin(b, x, a, n - 1, 1);
    }
  }

  /** A common last character changes nothing. */
  lemma {:induction false} ReachAppend(a: string, b: string, z: string, n: nat)
    requires Reach(a, b, n)
    ensures Reach(a + z, b + z, n)
    decreases n
  {
    if n != 0 {
      var m :| OneEdit(a, m) && Reach(m, b, n - 1);
      ReachAppend(m, b, z, n - 1);
      var p, x, y, q :| EditAt(a, m, p, x, y, q);
      EditMeans(a + z, m + z, p, x, y, q + z);
      assert OneEdit(a + z, m + z) && Reach(m + z, b + z, n - 1);
    }
  }

  // ---- The recurrence ----

  function Min3(x: nat, y: nat, z: nat): nat {
    if x <= y && x <= z then x else if y <= z then y else z
  }

  function But(s: string): string
    requires s != ""
  {
    s[..|s| - 1]
  }

  function Last(s: string): char
    requires s != ""
  {
    s[|s| - 1]
  }

  /** The recurrence the table is filled by, read off its last row and column. */
  function Lev(a: string, b: string): nat
    decreases |a| + |b|
  {
    if a == "" then |b| else if b == "" then |a|
    else Min3(Lev(a, But(b)) + 1, Lev(But(a), b) + 1, Lev(But(a), But(b)) + (if Last(a) == Last(b) then 0 else 1))
  }

  /** Some sequence of edits is as short as the recurrence says. */
  lemma {:induction false} ReachLev(a: string, b: string)
    ensures Reach(a, b, Lev(a, b))
    decreases |a| + |b|, 1
  {
    hide Reach, OneEdit;
    if a == b {
      ReachSame(a, b);
    } else if b != "" && (a == "" || Lev(a, b) == Lev(a, But(b)) + 1) {
      ReachLev(a, But(b));
      InsertLast(a, b, Lev(a, But(b)));
    } else if a != "" && (b == "" || Lev(a, b) == Lev(But(a), b) + 1) {
      ReachLev(But(a), b);
      DeleteLast(a, b, Lev(But(a), b));
    } else {
      ReachDiagonal(a, b);
    }
  }

  lemma InsertLast(a: string, b: string, n: nat)
    requires b != "" && Reach(a, But(b), n)
    ensures Reach(a, b, n + 1)
  {
    hide Reach, OneEdit;
    assert EditAt(But(b), b, But(b), "", [Last(b)], "");
    EditMeans(But(b), b, But(b), "", [Last(b)], "");
    ReachOne(But(b), b);
    ReachJoin(a, But(b), b, n, 1);
  }

  lemma DeleteLast(a: string, b: string, n: nat)
    requires a != "" && Reach(But(a), b, n)
    ensures Reach(a, b, n + 1)
  {
    hide Reach, OneEdit;
    assert EditAt(a, But(a), But(a), [Last(a)], "", "");
    EditMeans(a, But(a), But(a), [Last(a)], "", "");
    ReachOne(a, But(a));
    ReachJoin(a, But(a), b, 1, n);
  }

  lemma ReachSame(a: string, b: string)
    requires a == b
    ensures Reach(a, b, Lev(a, b))
  {
    LevSame(a);
  }

  lemma {:induction false} LevSame(a: string)
    ensures Lev(a, a) == 0
  {
    if a != "" { LevSame(But(a)); }
  }

  lemma EditMeans(s: string, t: string, p: string, x: string, y: string, q: string)
    requires EditAt(s, t, p, x, y, q)
    ensures OneEdit(s, t)
  {}

  lemma ReachDiagonal(a: string, b: string)
    requires a != "" && b != "" && Lev(a, b) == Lev(But(a), But(b)) + (if Last(a) == Last(b) then 0 else 1)
    ensures Reach(a, b, Lev(a, b))
    decreases |a| + |b|, 0
  {
    hide Reach, OneEdit, Lev;
    var z, y, n := [Last(a)], [Last(b)], Lev(But(a), But(b));
    assert a == But(a) + z && b == But(b) + y;
    ReachLev(But(a), But(b));
    ReachAppend(But(a), But(b), z, n);
    if Last(a) != Last(b) {
      EditMeans(But(b) + z, b, But(b), z, y, "");
      ReachOne(But(b) + z, b);
      ReachJoin(a, But(b) + z, b, n, 1);
    }
  }

  // ---- No sequence of edits is shorter ----

  /** One step of the recurrence in each direction. */
  lemma LevSteps(a: string, b: string, x: char, y: char)
    ensures Lev(a + [x], b) <= Lev(a, b) + 1
    ensures Lev(a, b + [y]) <= Lev(a, b) + 1
    ensures Lev(a + [x], b + [y]) <= Lev(a, b) + (if x == y then 0 else 1)
    ensures Lev(a + [x], b + [y]) ==
            Min3(Lev(a + [x], b) + 1, Lev(a, b + [y]) + 1, Lev(a, b) + (if x == y then 0 else 1))
  {
    LevLonger(a, b, x);
    LevWider(a, b, y);
    LevBoth(a, b, x, y);
  }

  lemma LevLonger(a: string, b: string, x: char)
    ensures Lev(a + [x], b) <= Lev(a, b) + 1
  {
    assert But(a + [x]) == a;
    if b == "" { LevEmpty(a); }
  }

  lemma LevWider(a: string, b: string, y: char)
    ensures Lev(a, b + [y]) <= Lev(a, b) + 1
  {
    assert But(b + [y]) == b;
    if a == "" { LevEmpty(b); }
  }

  lemma LevBoth(a: string, b: string, x: char, y: char)
    ensures Lev(a + [x], b + [y]) ==
            Min3(Lev(a + [x], b) + 1, Lev(a, b + [y]) + 1, Lev(a, b) + (if x == y then 0 else 1))
  {
    var s, t := a + [x], b + [y];
    assert But(s) == a && But(t) == b && Last(s) == x && Last(t) == y;
  }

  lemma {:induction false} LevLengths(a: string, b: string)
    ensures |a| - |b| <= Lev(a, b) && |b| - |a| <= Lev(a, b)
    ensures Lev(a, b) <= |a| || Lev(a, b) <= |b|
    decreases |a| + |b|
  {
    if a != "" && b != "" {
      LevLengths(a, But(b));
      LevLengths(But(a), b);
      LevLengths(But(a), But(b));
    }
  }

  /** Changing the end of a string by one edit moves the distance by at most one. */
  lemma {:induction false} EndEdit(p: string, x: string, y: string, c: string)
    requires |x| <= 1 && |y| <= 1
    ensures Lev(p + x, c) <= Lev(p + y, c) + 1
    decreases |c|
  {
    hide Lev;
    if c == "" {
      LevEmpty(p + x);
      LevEmpty(p + y);
    } else {
      EndEdit(p, x, y, But(c));
      assert c == But(c) + [Last(c)];
      if x == "" { assert p + x == p; } else { assert p + x == p + [x[0]]; }
      if y == "" { assert p + y == p; } else { assert p + y == p + [y[0]]; }
      LevSteps(p, But(c), if x == "" then 'x' else x[0], Last(c));
      LevSteps(p, But(c), if y == "" then 'x' else y[0], Last(c));
      LevSteps(p, c, if x == "" then 'x' else x[0], Last(c));
    }
  }

  lemma LevEmpty(a: string)
    ensures Lev(a, "") == |a| && Lev("", a) == |a|
  {}

  /** One edit anywhere moves the distance by at most one. */
  lemma {:induction false} EditMoves(p: string, x: string, y: string, q: string, c: string)
    requires |x| <= 1 && |y| <= 1
    ensures Lev(p + x + q, c) <= Lev(p + y + q, c) + 1
    decreases |q| + |c|
  {
    hide Lev;
    if q == "" {
      assert p + x + q == p + x && p + y + q == p + y;
      EndEdit(p, x, y, c);
    } else if c == "" {
      LevEmpty(p + x + q);
      LevEmpty(p + y + q);
    } else {
      var s, t := p + x + But(q), p + y + But(q);
      assert p + x + q == s + [Last(q)] && p + y + q == t + [Last(q)] && c == But(c) + [Last(c)];
      EditMoves(p, x, y, q, But(c));
      EditMoves(p, x, y, But(q), c);
      EditMoves(p, x, y, But(q), But(c));
      LevSteps(s, But(c), Last(q), Last(c));
      LevSteps(t, But(c), Last(q), Last(c));
    }
  }

  /** No sequence of edits from `a` to `b` is shorter than the recurrence says. */
  lemma {:induction false} LevIsLeast(a: string, b: string, n: nat)
    requires Reach(a, b, n)
    ensures Lev(a, b) <= n
    decreases n
  {
    hide Lev;
    if n == 0 {
      LevSame(a);
    } else {
      var m :| OneEdit(a, m) && Reach(m, b, n - 1);
      LevIsLeast(m, b, n - 1);
      var p, x, y, q :| EditAt(a, m, p, x, y, q);
      EditMoves(p, x, y, q, b);
    }
  }

  // ---- A metric ----

  lemma LevZero(a: string, b: string)
    ensures Lev(a, b) == 0 <==> a == b
  {
    ReachLev(a, b);
    LevSame(a);
  }

  lemma LevSymmetric(a: string, b: string)
    ensures Lev(a, b) == Lev(b, a)
  {
    hide Lev, Reach;
    ReachLev(a, b);
    ReachSymmetric(a, b, Lev(a, b));
    LevIsLeast(b, a, Lev(a, b));
    ReachLev(b, a);
    ReachSymmetric(b, a, Lev(b, a));
    LevIsLeast(a, b, Lev(b, a));
  }

  lemma LevTriangle(a: string, b: string, c: string)
    ensures Lev(a, c) <= Lev(a, b) + Lev(b, c)
  {
    hide Lev, Reach;
    ReachLev(a, b);
    ReachLev(b, c);
    ReachJoin(a, b, c, Lev(a, b), Lev(b, c));
    LevIsLeast(a, c, Lev(a, b) + Lev(b, c));
  }

  // ---- The loop ----

  /** `editDistance`: fewest edits, kept in two rows. */
  method EditDistance(left: string, right: string) returns (distance: nat)
    ensures distance == Lev(left, right)
  {
    hide Lev;
    LevSame(left);
    LevEmpty(left);
    LevEmpty(right);
    if left == right { return 0; }
    if left == "" { return |right|; }
    if right == "" { return |left|; }
    var previous := new nat[|right| + 1](index => index);
    assert forall j :: 0 <= j <= |right| ==> previous[j] == Lev(left[..0], right[..j]) by {
      forall j | 0 <= j <= |right| ensures previous[j] == Lev(left[..0], right[..j]) { LevEmpty(right[..j]); }
    }
    for leftIndex := 1 to |left| + 1
      invariant previous.Length == |right| + 1
      invariant forall j :: 0 <= j <= |right| ==> previous[j] == Lev(left[..leftIndex - 1], right[..j])
    {
      var current := NextRow(left, right, leftIndex, previous);
      previous := current;
    }
    assert left[..|left|] == left && right[..|right|] == right;
    distance := previous[|right|];
  }

  /** One row of the table from the row above it. */
  method NextRow(left: string, right: string, leftIndex: nat, previous: array<nat>) returns (current: array<nat>)
    requires 1 <= leftIndex <= |left| && previous.Length == |right| + 1
    requires forall j :: 0 <= j <= |right| ==> previous[j] == Lev(left[..leftIndex - 1], right[..j])
    ensures fresh(current) && current.Length == |right| + 1
    ensures forall j :: 0 <= j <= |right| ==> current[j] == Lev(left[..leftIndex], right[..j])
  {
    hide Lev;
    current := new nat[|right| + 1](_ => leftIndex);
    LevEmpty(left[..leftIndex]);
    for rightIndex := 1 to |right| + 1
      invariant forall j :: 0 <= j < rightIndex ==> current[j] == Lev(left[..leftIndex], right[..j])
    {
      var a, b := left[..leftIndex - 1], right[..rightIndex - 1];
      assert left[..leftIndex] == a + [left[leftIndex - 1]] && right[..rightIndex] == b + [right[rightIndex - 1]];
      LevSteps(a, b, left[leftIndex - 1], right[rightIndex - 1]);
      current[rightIndex] := Min3(current[rightIndex - 1] + 1, previous[rightIndex] + 1,
                                  previous[rightIndex - 1] +
                                  (if left[leftIndex - 1] == right[rightIndex - 1] then 0 else 1));
    }
  }

  // ---- Similarity ----

  function Longest(left: string, right: string): (r: nat)
    ensures r >= 1 && r >= |left| && r >= |right|
  {
    if |left| >= |right| && |left| >= 1 then |left| else if |right| >= 1 then |right| else 1
  }

  /** `similarity`, over real numbers. */
  function Similarity(left: string, right: string): real {
    1.0 - Lev(left, right) as real / Longest(left, right) as real
  }

  lemma RatioBounds(d: real, n: real)
    requires 0.0 <= d <= n && n >= 1.0
    ensures 0.0 <= d / n <= 1.0 && (d / n == 0.0 <==> d == 0.0) && (d / n == 1.0 <==> d == n)
  {
    var r := d / n;
    assert r * n == d;
    assert r < 0.0 ==> r * n < 0.0;
    assert r > 1.0 ==> r * n > n;
    assert r == 0.0 ==> r * n == 0.0;
    assert r == 1.0 ==> r * n == n;
  }

  /** A score between 0 and 1 that is 1 exactly on equal strings and does not depend on the order. */
  lemma SimilarityBounds(left: string, right: string)
    ensures 0.0 <= Similarity(left, right) <= 1.0
    ensures Similarity(left, right) == 1.0 <==> left == right
    ensures Similarity(left, right) == Similarity(right, left)
  {
    hide Lev;
    LevLengths(left, right);
    LevZero(left, right);
    LevSymmetric(left, right);
    RatioBounds(Lev(left, right) as real, Longest(left, right) as real);
  }

  /** The best score of any pair of tokens, starting from 0. */
  function TokenScore(queryTokens: seq<string>, candidateTokens: seq<string>): real {
    if queryTokens == [] then 0.0
    else
      var n := |queryTokens| - 1;
      MaxAll(TokenScore(queryTokens[..n], candidateTokens), queryTokens[n], candidateTokens)
  }

  function MaxAll(best: real, queryToken: string, candidateTokens: seq<string>): real {
    if candidateTokens == [] then best
    else
      var n := |candidateTokens| - 1;
      MaxReal(MaxAll(best, queryToken, candidateTokens[..n]), Similarity(queryToken, candidateTokens[n]))
  }

  function MaxReal(x: real, y: real): real { if x >= y then x else y }

  lemma {:induction false} MaxAllBounds(best: real, queryToken: string, candidateTokens: seq<string>)
    requires 0.0 <= best <= 1.0
    ensures best <= MaxAll(best, queryToken, candidateTokens) <= 1.0
  {
    if candidateTokens != [] {
      hide Similarity;
      var n := |candidateTokens| - 1;
      MaxAllBounds(best, queryToken, candidateTokens[..n]);
      SimilarityBounds(queryToken, candidateTokens[n]);
    }
  }

  lemma {:induction false} TokenScoreBounds(queryTokens: seq<string>, candidateTokens: seq<string>)
    ensures 0.0 <= TokenScore(queryTokens, candidateTokens) <= 1.0
  {
    if queryTokens != [] {
      var n := |queryTokens| - 1;
      TokenScoreBounds(queryTokens[..n], candidateTokens);
      MaxAllBounds(TokenScore(queryTokens[..n], candidateTokens), queryTokens[n], candidateTokens);
    }
  }

  /** `fuzzySimilarity`, the two texts given with their tokens. */
  function FuzzySimilarity(query: string, queryTokens: seq<string>, candidate: string,
                           candidateTokens: seq<string>): real {
    MaxReal(Similarity(query, candidate), TokenScore(queryTokens, candidateTokens) * 0.9)
  }

  /** Of all the characters of the longer text, the similarity is the part no edit is needed for. */
  lemma SimilarityRead(left: string, right: string)
    ensures (1.0 - Similarity(left, right)) * Longest(left, right) as real == Lev(left, right) as real
    ensures Longest(left, right) == |left| || Longest(left, right) == |right| || (left == right == "")
  {
    hide Lev;
    DivideBack(Lev(left, right) as real, Longest(left, right) as real);
  }

  lemma DivideBack(d: real, n: real)
    requires n >= 1.0
    ensures (d / n) * n == d
  {}

  ghost predicate TokenPair(queryTokens: seq<string>, candidateTokens: seq<string>, score: real) {
    exists q, c :: q in queryTokens && c in candidateTokens && score == Similarity(q, c)
  }

  lemma {:induction false} MaxAllIsMax(best: real, queryToken: string, candidateTokens: seq<string>)
    ensures MaxAll(best, queryToken, candidateTokens) >= best
    ensures forall c :: c in candidateTokens ==> MaxAll(best, queryToken, candidateTokens) >= Similarity(queryToken, c)
    ensures MaxAll(best, queryToken, candidateTokens) == best ||
            exists c :: c in candidateTokens && MaxAll(best, queryToken, candidateTokens) == Similarity(queryToken, c)
  {
    if candidateTokens != [] {
      hide Similarity;
      var n := |candidateTokens| - 1;
      assert candidateTokens == candidateTokens[..n] + [candidateTokens[n]];
      MaxAllIsMax(best, queryToken, candidateTokens[..n]);
      assert candidateTokens[n] in candidateTokens;
    }
  }

  /** The token score is the best similarity of any pair of tokens, or 0 without a pair. */
  lemma {:induction false} TokenScoreIsBest(queryTokens: seq<string>, candidateTokens: seq<string>)
    ensures forall score :: TokenPair(queryTokens, candidateTokens, score) ==>
              TokenScore(queryTokens, candidateTokens) >= score
    ensures TokenScore(queryTokens, candidateTokens) == 0.0 ||
            TokenPair(queryTokens, candidateTokens, TokenScore(queryTokens, candidateTokens))
  {
    if queryTokens != [] {
      hide Similarity;
      var n := |queryTokens| - 1;
      assert queryTokens == queryTokens[..n] + [queryTokens[n]];
      TokenScoreIsBest(queryTokens[..n], candidateTokens);
      var before := TokenScore(queryTokens[..n], candidateTokens);
      MaxAllIsMax(before, queryTokens[n], candidateTokens);
      assert queryTokens[n] in queryTokens;
      if TokenPair(queryTokens[..n], candidateTokens, before) {
        assert TokenPair(queryTokens, candidateTokens, before);
      }
      forall score | TokenPair(queryTokens, candidateTokens, score)
        ensures TokenScore(queryTokens, candidateTokens) >= score
      {
        var q, c :| q in queryTokens && c in candidateTokens && score == Similarity(q, c);
        if q in queryTokens[..n] { assert TokenPair(queryTokens[..n], candidateTokens, score); }
      }
    }
  }

  /** The fuzzy score is the best of the texts' own similarity and nine tenths of any pair of tokens'. */
  lemma FuzzyIsBest(query: string, queryTokens: seq<string>, candidate: string, candidateTokens: seq<string>)
    ensures var score := FuzzySimilarity(query, queryTokens, candidate, candidateTokens);
            && score >= Similarity(query, candidate)
            && (forall x :: TokenPair(queryTokens, candidateTokens, x) ==> score >= x * 0.9)
            && (score == Similarity(query, candidate) ||
                exists x :: TokenPair(queryTokens, candidateTokens, x) && score == x * 0.9)
  {
    hide Similarity, TokenPair;
    SimilarityBounds(query, candidate);
    TokenScoreIsBest(queryTokens, candidateTokens);
  }

  /** A shared token never makes two different texts a perfect match. */
  lemma FuzzyPerfect(query: string, queryTokens: seq<string>, candidate: string, candidateTokens: seq<string>)
    ensures 0.0 <= FuzzySimilarity(query, queryTokens, candidate, candidateTokens) <= 1.0
    ensures FuzzySimilarity(query, queryTokens, candidate, candidateTokens) == 1.0 <==> query == candidate
  {
    hide Similarity;
    SimilarityBounds(query, candidate);
    TokenScoreBounds(queryTokens, candidateTokens);
  }
}
