/** Facts about sequences that several modules use. */
module Sequences {
  ghost predicate NoRepeats<T>(s: seq<T>) { forall i, j :: 0 <= i < j < |s| ==> s[i] != s[j] }

  lemma NoRepeatsAppend<T>(s: seq<T>, i: nat)
    requires i < |s|
    ensures s[..i + 1] == s[..i] + [s[i]]
    ensures NoRepeats(s[..i + 1]) <==> NoRepeats(s[..i]) && s[i] !in s[..i]
  {
    var a, b := s[..i], s[..i + 1];
    if NoRepeats(b) {
      forall j, k | 0 <= j < k < |a| ensures a[j] != a[k] { assert b[j] != b[k]; }
      forall j | 0 <= j < |a| ensures a[j] != s[i] { assert b[j] != b[i]; }
    }
  }

  lemma Associative<T>(a: seq<T>, b: seq<T>, c: seq<T>)
    ensures a + b + c == a + (b + c)
  {}

  /** `parts.join(separator)`. */
  function JoinBy(separator: string, parts: seq<string>): string {
    if parts == [] then "" else if |parts| == 1 then parts[0] else parts[0] + separator + JoinBy(separator, parts[1..])
  }

  /** Joining puts the separator between any two stretches of the list, and nowhere else. */
  lemma {:induction false} JoinConcat(separator: string, a: seq<string>, b: seq<string>)
    requires a != [] && b != []
    ensures JoinBy(separator, a + b) == JoinBy(separator, a) + separator + JoinBy(separator, b)
    ensures JoinBy(separator, [a[0]]) == a[0] && JoinBy(separator, []) == ""
  {
    if |a| == 1 {
      assert (a + b)[1..] == b;
    } else {
      JoinConcat(separator, a[1..], b);
      assert (a + b)[1..] == a[1..] + b;
    }
  }

  /** Texts joined by a NUL character come apart again when the first part has none. */
  lemma {:induction false} SplitAtNul(a: string, b: string, u: string, v: string)
    requires '\0' !in a && '\0' !in b && a + "\0" + u == b + "\0" + v
    ensures a == b && u == v
  {
    var x, y := a + "\0" + u, b + "\0" + v;
    assert a != "" ==> a[0] in a && x[0] == a[0];
    assert b != "" ==> b[0] in b && y[0] == b[0];
    assert a == "" ==> x[0] == '\0' && x[1..] == u;
    assert b == "" ==> y[0] == '\0' && y[1..] == v;
    if a != "" && b != "" {
      assert x[1..] == a[1..] + "\0" + u && y[1..] == b[1..] + "\0" + v;
      SplitAtNul(a[1..], b[1..], u, v);
      assert a == [a[0]] + a[1..] && b == [b[0]] + b[1..];
    }
  }
}
