/** The Levenshtein scorer: the two-row dynamic program, the recurrence it fills in,
    and the meaning of the number it returns: the length of a shortest edit script. */
module EditDistance {

  function Min(a: nat, b: nat): nat {
    if a <= b then a else b
  }

  function Cost(x: char, y: char): nat {
    if x == y then 0 else 1
  }

  /** Distance between the first `i` characters of `a` and the first `j` of `b`. */
  function PrefixDistance(a: string, i: nat, b: string, j: nat): nat
    requires i <= |a| && j <= |b|
    decreases i + j
  {
    if i == 0 then j
    else if j == 0 then i
    else
      Min(Min(PrefixDistance(a, i, b, j - 1) + 1, PrefixDistance(a, i - 1, b, j) + 1),
          PrefixDistance(a, i - 1, b, j - 1) + Cost(a[i - 1], b[j - 1]))
  }

  function Distance(a: string, b: string): nat {
    PrefixDistance(a, |a|, b, |b|)
  }

  // ---- Edit scripts: the reference meaning --------------------------------

  datatype Edit = Insert(at: nat, ch: char) | Delete(at: nat) | Replace(at: nat, ch: char)

  predicate Applicable(e: Edit, s: string) {
    if e.Insert? then e.at <= |s| else e.at < |s|
  }

  function Apply(e: Edit, s: string): string
    requires Applicable(e, s)
  {
    match e
    case Insert(at, ch) => s[..at] + [ch] + s[at..]
    case Delete(at) => s[..at] + s[at + 1..]
    case Replace(at, ch) => s[..at] + [ch] + s[at + 1..]
  }

  /** `script` can be played from `s`, each edit on the result of the ones before it. */
  predicate Playable(script: seq<Edit>, s: string)
    decreases |script|
  {
    script == [] || (Applicable(script[0], s) && Playable(script[1..], Apply(script[0], s)))
  }

  function Play(script: seq<Edit>, s: string): string
    requires Playable(script, s)
    decreases |script|
  {
    if script == [] then s else Play(script[1..], Apply(script[0], s))
  }

  ghost predicate Turns(script: seq<Edit>, a: string, b: string) {
    Playable(script, a) && Play(script, a) == b
  }

  // ---- Metric laws -----------------------------------------------------------

  lemma BaseCases(a: string, b: string)
    ensures forall j: nat :: j <= |b| ==> PrefixDistance(a, 0, b, j) == j
    ensures forall i: nat :: i <= |a| ==> PrefixDistance(a, i, b, 0) == i
  {
  }

  /** One unfolding of the recurrence, as bounds and an attained case. */
  lemma Recurrence(a: string, i: nat, b: string, j: nat)
    requires 0 < i <= |a| && 0 < j <= |b|
    ensures PrefixDistance(a, i, b, j) <= PrefixDistance(a, i, b, j - 1) + 1
    ensures PrefixDistance(a, i, b, j) <= PrefixDistance(a, i - 1, b, j) + 1
    ensures PrefixDistance(a, i, b, j) <= PrefixDistance(a, i - 1, b, j - 1) + Cost(a[i - 1], b[j - 1])
    ensures || PrefixDistance(a, i, b, j) == PrefixDistance(a, i, b, j - 1) + 1
            || PrefixDistance(a, i, b, j) == PrefixDistance(a, i - 1, b, j) + 1
            || PrefixDistance(a, i, b, j) == PrefixDistance(a, i - 1, b, j - 1) + Cost(a[i - 1], b[j - 1])
  {
  }

  lemma {:induction false} PrefixLengthBounds(a: string, i: nat, b: string, j: nat)
    requires i <= |a| && j <= |b|
    ensures PrefixDistance(a, i, b, j) <= i + j
    ensures i <= j + PrefixDistance(a, i, b, j) && j <= i + PrefixDistance(a, i, b, j)
    decreases i + j
  {
    hide PrefixDistance, Cost;
    BaseCases(a, b);
    if i > 0 && j > 0 {
      Recurrence(a, i, b, j);
      PrefixLengthBounds(a, i, b, j - 1);
      PrefixLengthBounds(a, i - 1, b, j);
      PrefixLengthBounds(a, i - 1, b, j - 1);
    }
  }

  lemma {:induction false} PrefixZero(a: string, i: nat, b: string, j: nat)
    requires i <= |a| && j <= |b|
    ensures PrefixDistance(a, i, b, j) == 0 <==> a[..i] == b[..j]
    decreases i + j
  {
    if i > 0 && j > 0 {
      PrefixZero(a, i - 1, b, j - 1);
      assert a[..i] == a[..i - 1] + [a[i - 1]];
      assert b[..j] == b[..j - 1] + [b[j - 1]];
      if a[..i] == b[..j] {
        assert a[..i][i - 1] == b[..j][j - 1];
        assert a[..i][..i - 1] == a[..i - 1] && b[..j][..j - 1] == b[..j - 1];
      }
    }
  }

  lemma {:induction false} PrefixSymmetric(a: string, i: nat, b: string, j: nat)
    requires i <= |a| && j <= |b|
    ensures PrefixDistance(a, i, b, j) == PrefixDistance(b, j, a, i)
    decreases i + j
  {
    hide PrefixDistance;
    BaseCases(a, b);
    BaseCases(b, a);
    if i > 0 && j > 0 {
      PrefixSymmetric(a, i, b, j - 1);
      PrefixSymmetric(a, i - 1, b, j);
      PrefixSymmetric(a, i - 1, b, j - 1);
      Recurrence(a, i, b, j);
      Recurrence(b, j, a, i);
    }
  }

  lemma {:induction false} PrefixTriangle(a: string, i: nat, b: string, j: nat, c: string, k: nat)
    requires i <= |a| && j <= |b| && k <= |c|
    ensures PrefixDistance(a, i, c, k) <= PrefixDistance(a, i, b, j) + PrefixDistance(b, j, c, k)
    decreases i + j + k
  {
    hide PrefixDistance;
    BaseCases(a, b);
    BaseCases(b, c);
    BaseCases(a, c);
    PrefixLengthBounds(a, i, b, j);
    PrefixLengthBounds(b, j, c, k);
    PrefixLengthBounds(a, i, c, k);
    if i > 0 && j > 0 && k > 0 {
      Recurrence(a, i, b, j);
      Recurrence(b, j, c, k);
      Recurrence(a, i, c, k);
      PrefixTriangle(a, i - 1, b, j, c, k);
      PrefixTriangle(a, i, b, j, c, k - 1);
      PrefixTriangle(a, i, b, j - 1, c, k);
      PrefixTriangle(a, i - 1, b, j - 1, c, k);
      PrefixTriangle(a, i, b, j - 1, c, k - 1);
      PrefixTriangle(a, i - 1, b, j - 1, c, k - 1);
    }
  }

  /** Edit distance is a metric on strings, and two strings are never closer than their
      lengths are. */
  lemma DistanceIsMetric(a: string, b: string, c: string)
    ensures Distance(a, b) == 0 <==> a == b
    ensures Distance(a, b) == Distance(b, a)
    ensures Distance(a, c) <= Distance(a, b) + Distance(b, c)
    ensures |a| <= |b| + Distance(a, b)
  {
    PrefixZero(a, |a|, b, |b|);
    assert a[..|a|] == a && b[..|b|] == b;
    PrefixSymmetric(a, |a|, b, |b|);
    PrefixTriangle(a, |a|, b, |b|, c, |c|);
    PrefixLengthBounds(a, |a|, b, |b|);
  }

  // ---- The distance is the length of a shortest script ------------------------

  /** Strings that agree up to `p` and, shifted by `d`, beyond it: their prefix distances
      along the shifted diagonal never exceed the distance at the point of change. */
  lemma {:induction false} DiagonalAfter(a: string, b: string, p: nat, q: nat, n: nat)
    requires p + n <= |a| && q + n <= |b|
    requires a[p..p + n] == b[q..q + n]
    ensures PrefixDistance(a, p + n, b, q + n) <= PrefixDistance(a, p, b, q)
  {
    hide PrefixDistance;
    if n > 0 {
      assert a[p..p + n][n - 1] == b[q..q + n][n - 1];
      assert a[p..p + n][..n - 1] == a[p..p + n - 1] && b[q..q + n][..n - 1] == b[q..q + n - 1];
      DiagonalAfter(a, b, p, q, n - 1);
      Recurrence(a, p + n, b, q + n);
    }
  }

  /** One more character on either side, or on both, costs at most one. */
  lemma OneMore(a: string, i: nat, b: string, j: nat)
    requires i <= |a| && j <= |b|
    ensures i < |a| ==> PrefixDistance(a, i + 1, b, j) <= PrefixDistance(a, i, b, j) + 1
    ensures j < |b| ==> PrefixDistance(a, i, b, j + 1) <= PrefixDistance(a, i, b, j) + 1
    ensures i < |a| && j < |b| ==> PrefixDistance(a, i + 1, b, j + 1) <= PrefixDistance(a, i, b, j) + 1
  {
    hide PrefixDistance;
    BaseCases(a, b);
    if i < |a| && j > 0 { Recurrence(a, i + 1, b, j); }
    if j < |b| && i > 0 { Recurrence(a, i, b, j + 1); }
    if i < |a| && j < |b| { Recurrence(a, i + 1, b, j + 1); }
  }

  lemma TailAfterEdit(e: Edit, s: string, i: nat, j: nat)
    requires Applicable(e, s)
    requires i == (if e.Insert? then e.at else e.at + 1) && j == (if e.Delete? then e.at else e.at + 1)
    ensures |s| - i == |Apply(e, s)| - j
    ensures s[i..i + (|s| - i)] == Apply(e, s)[j..j + (|s| - i)]
  {
    assert s[i..i + (|s| - i)] == s[i..];
    assert Apply(e, s)[j..j + (|s| - i)] == Apply(e, s)[j..];
    assert Apply(e, s)[j..] == s[i..];
  }

  lemma OneEdit(e: Edit, s: string)
    requires Applicable(e, s)
    ensures Distance(s, Apply(e, s)) <= 1
  {
    hide PrefixDistance;
    var t, p := Apply(e, s), e.at;
    PrefixZero(s, p, t, p);
    assert s[..p] == t[..p];
    OneMore(s, p, t, p);
    var i := if e.Insert? then p else p + 1;
    var j := if e.Delete? then p else p + 1;
    TailAfterEdit(e, s, i, j);
    DiagonalAfter(s, t, i, j, |s| - i);
  }

  lemma {:induction false} ScriptBoundsDistance(script: seq<Edit>, a: string)
    requires Playable(script, a)
    ensures Distance(a, Play(script, a)) <= |script|
    decreases |script|
  {
    if script == [] {
      DistanceIsMetric(a, a, a);
    } else {
      var mid := Apply(script[0], a);
      OneEdit(script[0], a);
      ScriptBoundsDistance(script[1..], mid);
      DistanceIsMetric(a, mid, Play(script, a));
    }
  }

  lemma ApplyInFront(e: Edit, s: string, suffix: string)
    requires Applicable(e, s)
    ensures Applicable(e, s + suffix) && Apply(e, s + suffix) == Apply(e, s) + suffix
  {
    var t, n := s + suffix, if e.Insert? then e.at else e.at + 1;
    PartsInFront(s, suffix, e.at);
    PartsInFront(s, suffix, n);
    Regroup(s[..e.at], if e.Delete? then [] else [e.ch], s[n..], suffix);
  }

  lemma PartsInFront(s: string, suffix: string, n: nat)
    requires n <= |s|
    ensures (s + suffix)[..n] == s[..n] && (s + suffix)[n..] == s[n..] + suffix
  {
  }

  lemma Regroup(a: string, b: string, c: string, d: string)
    ensures a + b + (c + d) == (a + b + c) + d && a + (c + d) == (a + c) + d
    ensures a + [] == a
  {
  }

  /** A script that works on a string works, with the same effect, in front of any suffix. */
  lemma {:induction false} PlayInFront(script: seq<Edit>, s: string, suffix: string)
    requires Playable(script, s)
    ensures Playable(script, s + suffix) && Play(script, s + suffix) == Play(script, s) + suffix
    decreases |script|
  {
    hide Apply, Applicable;
    if script != [] {
      ApplyInFront(script[0], s, suffix);
      PlayInFront(script[1..], Apply(script[0], s), suffix);
    }
  }

  lemma OneStep(e: Edit, s: string)
    requires Applicable(e, s)
    ensures Turns([e], s, Apply(e, s))
  {
    assert [e][1..] == [];
  }

  lemma TurnsInFront(script: seq<Edit>, a: string, b: string, suffix: string)
    requires Turns(script, a, b)
    ensures Turns(script, a + suffix, b + suffix)
  {
    PlayInFront(script, a, suffix);
  }

  lemma {:induction false} PlayConcat(one: seq<Edit>, two: seq<Edit>, s: string)
    requires Playable(one, s) && Playable(two, Play(one, s))
    ensures Playable(one + two, s) && Play(one + two, s) == Play(two, Play(one, s))
    decreases |one|
  {
    hide Apply, Applicable;
    if one == [] {
      assert one + two == two;
    } else {
      assert (one + two)[0] == one[0] && (one + two)[1..] == one[1..] + two;
      PlayConcat(one[1..], two, Apply(one[0], s));
    }
  }

  lemma AppendEdit(script: seq<Edit>, last: Edit, a: string, b: string)
    requires Turns(script, a, b) && Applicable(last, b)
    ensures Turns(script + [last], a, Apply(last, b))
  {
    assert Playable([last][1..], Apply(last, b));
    PlayConcat(script, [last], a);
  }

  lemma PrependEdit(first: Edit, script: seq<Edit>, a: string, b: string)
    requires Applicable(first, a) && Turns(script, Apply(first, a), b)
    ensures Turns([first] + script, a, b)
  {
    assert ([first] + script)[1..] == script;
  }

  /** The three edits that change the end of a prefix. */
  lemma EditsAtTheEnd(s: string, n: nat, ch: char)
    requires n < |s|
    ensures Apply(Insert(n, s[n]), s[..n]) == s[..n + 1] == s[..n] + [s[n]]
    ensures Apply(Delete(n), s[..n + 1]) == s[..n]
    ensures Apply(Replace(n, ch), s[..n + 1]) == s[..n] + [ch]
  {
  }

  lemma NoEdits(a: string, b: string)
    ensures Turns([], a[..0], b[..0])
  {
  }

  /** A shortest script exists: the recurrence says which edit to make next. */
  lemma {:induction false} ShortestScript(a: string, i: nat, b: string, j: nat) returns (script: seq<Edit>)
    requires i <= |a| && j <= |b|
    ensures |script| == PrefixDistance(a, i, b, j)
    ensures Turns(script, a[..i], b[..j])
    decreases i + j
  {
    hide PrefixDistance;
    hide Apply;
    hide Applicable;
    hide Turns;
    BaseCases(a, b);
    var d := PrefixDistance(a, i, b, j);
    if i > 0 && j > 0 { Recurrence(a, i, b, j); }
    if i == 0 && j == 0 {
      script := [];
      NoEdits(a, b);
    } else if j > 0 && d == PrefixDistance(a, i, b, j - 1) + 1 {
      script := ShortestScript(a, i, b, j - 1);
      EditsAtTheEnd(b, j - 1, b[j - 1]);
      AppendEdit(script, Insert(j - 1, b[j - 1]), a[..i], b[..j - 1]);
      script := script + [Insert(j - 1, b[j - 1])];
    } else if i > 0 && d == PrefixDistance(a, i - 1, b, j) + 1 {
      script := ShortestScript(a, i - 1, b, j);
      EditsAtTheEnd(a, i - 1, a[i - 1]);
      PrependEdit(Delete(i - 1), script, a[..i], b[..j]);
      script := [Delete(i - 1)] + script;
    } else {
      script := ShortestScript(a, i - 1, b, j - 1);
      TurnsInFront(script, a[..i - 1], b[..j - 1], [b[j - 1]]);
      EditsAtTheEnd(b, j - 1, b[j - 1]);
      EditsAtTheEnd(a, i - 1, b[j - 1]);
      if a[i - 1] != b[j - 1] {
        PrependEdit(Replace(i - 1, b[j - 1]), script, a[..i], b[..j]);
        script := [Replace(i - 1, b[j - 1])] + script;
      }
    }
  }

  /** `Distance` is the minimum length over all insert/delete/replace scripts from `a` to `b`. */
  lemma DistanceIsMinimalScript(a: string, b: string)
    ensures exists script :: Turns(script, a, b) && |script| == Distance(a, b)
    ensures forall script :: Turns(script, a, b) ==> Distance(a, b) <= |script|
  {
    var shortest := ShortestScript(a, |a|, b, |b|);
    assert a[..|a|] == a && b[..|b|] == b;
    assert Turns(shortest, a, b);
    forall script | Turns(script, a, b) ensures Distance(a, b) <= |script| {
      ScriptBoundsDistance(script, a);
    }
  }

  // ---- The dynamic program -----------------------------------------------------

  /** The first `n` cells of `row` are row `i` of the table. */
  ghost predicate IsRow(row: seq<nat>, n: nat, a: string, i: nat, b: string) {
    i <= |a| && n <= |row| && n <= |b| + 1 && forall j :: 0 <= j < n ==> row[j] == PrefixDistance(a, i, b, j)
  }

  lemma NextCell(prev: seq<nat>, curr: seq<nat>, a: string, i: nat, b: string, j: nat, cell: nat)
    requires 0 < i <= |a| && 0 < j <= |b| && |curr| == |b| + 1
    requires IsRow(prev, |b| + 1, a, i - 1, b) && IsRow(curr, j, a, i, b)
    requires cell == Min(Min(curr[j - 1] + 1, prev[j] + 1), prev[j - 1] + Cost(a[i - 1], b[j - 1]))
    ensures IsRow(curr[j := cell], j + 1, a, i, b)
  {
    Recurrence(a, i, b, j);
  }

  lemma Borders(a: string, b: string)
    ensures IsRow(seq(|b| + 1, j requires 0 <= j => j), |b| + 1, a, 0, b)
    ensures forall i, row: seq<nat> :: 0 <= i <= |a| && |row| > 0 && row[0] == i ==> IsRow(row, 1, a, i, b)
  {
  }

  /** The scorer's two-row program, early returns and row copy included. */
  method Levenshtein(a: string, b: string) returns (d: nat)
    ensures d == Distance(a, b)
  {
    hide IsRow;
    hide PrefixDistance;
    if a == b {
      DistanceIsMetric(a, b, b);
      return 0;
    }
    BaseCases(a, b);
    if |a| == 0 { return |b|; }
    if |b| == 0 { return |a|; }
    Borders(a, b);
    var prev := new nat[|b| + 1](i => i);
    var curr := new nat[|b| + 1](_ => 0);
    assert prev[..] == seq(|b| + 1, j requires 0 <= j => j);
    for i := 1 to |a| + 1
      invariant prev.Length == curr.Length == |b| + 1
      invariant IsRow(prev[..], |b| + 1, a, i - 1, b)
    {
      curr[0] := i;
      for j := 1 to |b| + 1
        invariant IsRow(curr[..], j, a, i, b)
        invariant IsRow(prev[..], |b| + 1, a, i - 1, b)
      {
        var cost := if a[i - 1] == b[j - 1] then 0 else 1;
        ghost var before := curr[..];
        curr[j] := Min(Min(curr[j - 1] + 1, prev[j] + 1), prev[j - 1] + cost);
        NextCell(prev[..], before, a, i, b, j, curr[j]);
        assert curr[..] == before[j := curr[j]];
      }
      for j := 0 to |b| + 1
        invariant prev[..j] == curr[..j]
        invariant IsRow(curr[..], |b| + 1, a, i, b)
      {
        prev[j] := curr[j];
      }
      assert prev[..] == prev[..|b| + 1] == curr[..|b| + 1] == curr[..];
    }
    d := prev[|b|];
    LastCell(prev[..], a, b);
  }

  lemma LastCell(row: seq<nat>, a: string, b: string)
    requires |row| == |b| + 1 && IsRow(row, |b| + 1, a, |a|, b)
    ensures row[|b|] == Distance(a, b)
  {
  }
}
