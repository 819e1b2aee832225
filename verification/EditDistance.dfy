/** Edit distance with two rolling rows, proved to be the least number of single-character edits. */
module EditDistance {

  function Min(x: int, y: int): (m: int) { if x < y then x else y }

  function Cost(x: char, y: char): (c: nat) { if x == y then 0 else 1 }

  /** The textbook recurrence on last characters. */
  function Lev(a: string, b: string): (d: nat)
  {
    if a == [] then |b|
    else if b == [] then |a|
    else
      var a', b' := a[..|a| - 1], b[..|b| - 1];
      Min(Lev(a, b') + 1, Min(Lev(a', b) + 1, Lev(a', b') + Cost(a[|a| - 1], b[|b| - 1])))
  }

  /** The recurrence between prefixes, as the table cells use it. */
  lemma CellStep(a: string, b: string, i: nat, j: nat)
    requires 1 <= i <= |a| && 1 <= j <= |b|
    ensures Lev(a[..i], b[..j]) ==
            Min(Lev(a[..i], b[..j - 1]) + 1,
                Min(Lev(a[..i - 1], b[..j]) + 1, Lev(a[..i - 1], b[..j - 1]) + Cost(a[i - 1], b[j - 1])))
  {
    assert a[..i][..i - 1] == a[..i - 1] && b[..j][..j - 1] == b[..j - 1];
  }

  /** The rolling-row computation: prev holds the finished row, cur the one being filled. */
  method Levenshtein(a: string, b: string) returns (d: nat)
    ensures d == Lev(a, b)
  {
    if |a| == 0 { return |b|; }
    if |b| == 0 { return |a|; }
    var prev := new int[|b| + 1](j => j);
    var cur := new int[|b| + 1](_ => 0);
    for i := 1 to |a| + 1
      invariant prev.Length == cur.Length == |b| + 1 && prev != cur && fresh(prev) && fresh(cur)
      invariant forall j :: 0 <= j <= |b| ==> prev[j] == Lev(a[..i - 1], b[..j])
    {
      FillRow(a, b, i, prev, cur);
      prev, cur := cur, prev;
    }
    assert a[..|a|] == a && b[..|b|] == b;
    return prev[|b|];
  }

  /** One pass of the inner loop. */
  method FillRow(a: string, b: string, i: nat, prev: array<int>, cur: array<int>)
    requires 1 <= i <= |a| && prev.Length == cur.Length == |b| + 1 && prev != cur
    requires forall j :: 0 <= j <= |b| ==> prev[j] == Lev(a[..i - 1], b[..j])
    modifies cur
    ensures forall j :: 0 <= j <= |b| ==> cur[j] == Lev(a[..i], b[..j])
  {
    cur[0] := i;
    for j := 1 to |b| + 1
      invariant forall k :: 0 <= k < j ==> cur[k] == Lev(a[..i], b[..k])
    {
      CellStep(a, b, i, j);
      var cost := 1;
      if a[i - 1] == b[j - 1] { cost := 0; }
      cur[j] := Min(cur[j - 1] + 1, Min(prev[j] + 1, prev[j - 1] + cost));
    }
  }

  // ---- Single-character edits -------------------------------------------------------------

  /** Between a common prefix p and suffix s, x is replaced by y: each at most one character, not both empty. */
  predicate EditAt(a: string, b: string, p: string, x: string, y: string, s: string) {
    a == p + x + s && b == p + y + s && |x| <= 1 && |y| <= 1 && |x| + |y| > 0
  }

  /** One insertion (x empty), deletion (y empty) or substitution turns a into b. */
  ghost predicate Edit(a: string, b: string) {
    exists p, x, y, s :: EditAt(a, b, p, x, y, s)
  }

  /** Exactly n edits in a row turn a into b. */
  ghost predicate Edits(a: string, b: string, n: nat)
    decreases n
  {
    if n == 0 then a == b else exists m :: Edit(a, m) && Edits(m, b, n - 1)
  }

  /** Changing at most one character of b in place moves the distance from any a by at most one. */
  lemma {:induction false} OneCharacterBound(a: string, p: string, x: string, y: string, s: string)
    requires |x| <= 1 && |y| <= 1
    ensures Lev(a, p + x + s) <= Lev(a, p + y + s) + 1
    decreases |a| + |s|
  {
    if a != [] {
      var a' := a[..|a| - 1];
      OneCharacterBound(a', p, x, y, s);
      if s == [] {
        EndBound(a, p, x, y);
        assert p + x + s == p + x && p + y + s == p + y;
      } else {
        var s', z := s[..|s| - 1], s[|s| - 1];
        OneCharacterBound(a, p, x, y, s');
        OneCharacterBound(a', p, x, y, s');
        LastCharacter(p + x, s);
        LastCharacter(p + y, s);
      }
    }
  }

  lemma LastCharacter(u: string, s: string)
    requires s != []
    ensures (u + s)[..|u + s| - 1] == u + s[..|s| - 1] && (u + s)[|u + s| - 1] == s[|s| - 1]
  {
  }

  /** The same bound when the character is the last one. */
  lemma {:induction false} EndBound(a: string, p: string, x: string, y: string)
    requires |x| <= 1 && |y| <= 1
    ensures Lev(a, p + x) <= Lev(a, p + y) + 1
    decreases |a|
  {
    assert p + [] == p;
    if x != [] { assert (p + x)[..|p|] == p; }
    if y != [] { assert (p + y)[..|p|] == p; }
    if a != [] {
      var a' := a[..|a| - 1];
      EndBound(a', p, x, y);
      EndBound(a', p, [], y);
      AppendBound(a, p, x);
      AppendBound(a', p, x);
      DropBound(a, p);
    }
  }

  lemma AppendBound(a: string, p: string, x: string)
    requires |x| <= 1
    ensures Lev(a, p + x) <= Lev(a, p) + 1
  {
    if x == [] { assert p + x == p; } else { assert (p + x)[..|p|] == p; }
  }

  lemma DropBound(a: string, p: string)
    requires a != []
    ensures Lev(a, p) <= Lev(a[..|a| - 1], p) + 1
  {
  }

  lemma EditBound(a: string, b: string, c: string)
    requires Edit(b, c)
    ensures Lev(a, c) <= Lev(a, b) + 1
  {
    var p, x, y, s :| EditAt(b, c, p, x, y, s);
    OneCharacterBound(a, p, y, x, s);
  }

  lemma {:induction false} LevSelf(a: string)
    ensures Lev(a, a) == 0
  {
    if a != [] {
      LevSelf(a[..|a| - 1]);
    }
  }

  /** Lower bound: no sequence of edits from b to c is shorter than the growth of the distance. */
  lemma {:induction false} EditsBound(a: string, b: string, c: string, n: nat)
    requires Edits(b, c, n)
    ensures Lev(a, c) <= Lev(a, b) + n
    decreases n
  {
    if n > 0 {
      var m :| Edit(b, m) && Edits(m, c, n - 1);
      EditBound(a, b, m);
      EditsBound(a, m, c, n - 1);
    }
  }

  // ---- A sequence of Lev(a, b) edits exists -----------------------------------------------

  lemma EditExtend(a: string, b: string, z: char)
    requires Edit(a, b)
    ensures Edit(a + [z], b + [z])
  {
    var p, x, y, s :| EditAt(a, b, p, x, y, s);
    assert p + x + s + [z] == p + x + (s + [z]) && p + y + s + [z] == p + y + (s + [z]);
    assert EditAt(a + [z], b + [z], p, x, y, s + [z]);
  }

  lemma {:induction false} EditsExtend(a: string, b: string, z: char, n: nat)
    requires Edits(a, b, n)
    ensures Edits(a + [z], b + [z], n)
    decreases n
  {
    if n > 0 {
      var m :| Edit(a, m) && Edits(m, b, n - 1);
      EditExtend(a, m, z);
      EditsExtend(m, b, z, n - 1);
    }
  }

  lemma {:induction false} EditsConcat(a: string, b: string, c: string, m: nat, n: nat)
    requires Edits(a, b, m) && Edits(b, c, n)
    ensures Edits(a, c, m + n)
    decreases m
  {
    if m > 0 {
      var x :| Edit(a, x) && Edits(x, b, m - 1);
      EditsConcat(x, b, c, m - 1, n);
    }
  }

  lemma OneEdit(a: string, b: string)
    requires Edit(a, b)
    ensures Edits(a, b, 1)
  {
    assert Edits(b, b, 0);
  }

  /** Finishing with an insertion at the end. */
  lemma ThenInsert(a: string, b: string, z: char, n: nat)
    requires Edits(a, b, n)
    ensures Edits(a, b + [z], n + 1)
  {
    assert EditAt(b, b + [z], b, [], [z], []);
    OneEdit(b, b + [z]);
    EditsConcat(a, b, b + [z], n, 1);
  }

  /** Starting with a deletion at the end. */
  lemma FirstDelete(a: string, y: char, b: string, n: nat)
    requires Edits(a, b, n)
    ensures Edits(a + [y], b, n + 1)
  {
    assert EditAt(a + [y], a, a, [y], [], []);
    OneEdit(a + [y], a);
    EditsConcat(a + [y], a, b, 1, n);
  }

  /** Matching or substituting the last characters. */
  lemma FirstReplace(a: string, y: char, b: string, z: char, n: nat)
    requires Edits(a, b, n)
    ensures Edits(a + [y], b + [z], n + Cost(y, z))
  {
    EditsExtend(a, b, z, n);
    if y != z {
      assert EditAt(a + [y], a + [z], a, [y], [z], []);
      OneEdit(a + [y], a + [z]);
      EditsConcat(a + [y], a + [z], b + [z], 1, n);
    }
  }

  /** Upper bound: some sequence of exactly Lev(a, b) edits turns a into b. */
  lemma {:induction false} LevReached(a: string, b: string)
    ensures Edits(a, b, Lev(a, b))
    decreases |a| + |b|, 1
  {
    if a == [] {
      AllInserts(b);
    } else if b == [] {
      AllDeletes(a);
    } else {
      LevReachedBoth(a[..|a| - 1], a[|a| - 1], b[..|b| - 1], b[|b| - 1]);
      assert a == a[..|a| - 1] + [a[|a| - 1]] && b == b[..|b| - 1] + [b[|b| - 1]];
    }
  }

  lemma {:induction false} AllInserts(b: string)
    ensures Edits([], b, |b|)
  {
    if b != [] {
      AllInserts(b[..|b| - 1]);
      ThenInsert([], b[..|b| - 1], b[|b| - 1], |b| - 1);
      assert b == b[..|b| - 1] + [b[|b| - 1]];
    }
  }

  lemma {:induction false} AllDeletes(a: string)
    ensures Edits(a, [], |a|)
  {
    if a != [] {
      AllDeletes(a[..|a| - 1]);
      FirstDelete(a[..|a| - 1], a[|a| - 1], [], |a| - 1);
      assert a == a[..|a| - 1] + [a[|a| - 1]];
    }
  }

  lemma {:induction false} LevReachedBoth(a: string, y: char, b: string, z: char)
    ensures Edits(a + [y], b + [z], Lev(a + [y], b + [z]))
    decreases |a| + |b| + 2, 0
  {
    var u, v := a + [y], b + [z];
    assert u[..|u| - 1] == a && v[..|v| - 1] == b;
    if Lev(u, v) == Lev(u, b) + 1 {
      LevReached(u, b);
      ThenInsert(u, b, z, Lev(u, b));
    } else if Lev(u, v) == Lev(a, v) + 1 {
      LevReached(a, v);
      FirstDelete(a, y, v, Lev(a, v));
    } else {
      LevReached(a, b);
      FirstReplace(a, y, b, z, Lev(a, b));
    }
  }

  /** The distance is the length of a shortest edit sequence: one of that length exists and none is shorter. */
  lemma LevIsShortest(a: string, b: string)
    ensures Edits(a, b, Lev(a, b))
    ensures forall n: nat :: Edits(a, b, n) ==> Lev(a, b) <= n
  {
    LevReached(a, b);
    forall n: nat | Edits(a, b, n) ensures Lev(a, b) <= n {
      LevSelf(a);
      EditsBound(a, a, b, n);
    }
  }

  // ---- Metric laws ------------------------------------------------------------------------

  lemma {:induction false} EditsReverse(a: string, b: string, n: nat)
    requires Edits(a, b, n)
    ensures Edits(b, a, n)
    decreases n
  {
    if n > 0 {
      var m :| Edit(a, m) && Edits(m, b, n - 1);
      EditsReverse(m, b, n - 1);
      EditReverse(a, m);
      OneEdit(m, a);
      EditsConcat(b, m, a, n - 1, 1);
    }
  }

  lemma EditReverse(a: string, b: string)
    requires Edit(a, b)
    ensures Edit(b, a)
  {
    var p, x, y, s :| EditAt(a, b, p, x, y, s);
    assert EditAt(b, a, p, y, x, s);
  }

  /** Zero exactly for equal strings, symmetric, and subject to the triangle inequality. */
  lemma LevIsMetric(a: string, b: string, c: string)
    ensures Lev(a, b) == 0 <==> a == b
    ensures Lev(a, b) == Lev(b, a)
    ensures Lev(a, c) <= Lev(a, b) + Lev(b, c)
  {
    LevIsShortest(a, b);
    LevIsShortest(b, a);
    LevSelf(a);
    EditsReverse(a, b, Lev(a, b));
    EditsReverse(b, a, Lev(b, a));
    LevReached(b, c);
    EditsBound(a, b, c, Lev(b, c));
  }
}
