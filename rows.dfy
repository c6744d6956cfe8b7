/** Row-level surgery on a table: which rows a single condition selects, the
    first row on which it throws, and what is left of a cell list once a set
    of row positions is erased. */
module Rows {
  import opened Wrappers
  import opened Strings
  import opened Schema
  import opened Condition

  // ---------------------------------------------------------------------------
  // A single condition over the first n rows

  /** The rows below `n` on which the condition holds, in increasing order. */
  function Matching(t: Table, column: string, op: string, literal: string, n: nat): seq<nat>
    requires ColumnExists(t, column) && n <= |GetColumn(t, column).data|
  {
    if n == 0 then []
    else
      Matching(t, column, op, literal, n - 1)
      + (if EvaluateCondition(t, column, op, literal, n - 1) == Some(true) then [n - 1] else [])
  }

  /** The rows a list holds. */
  function Elems(s: seq<nat>): set<nat> {
    set x | x in s
  }

  /** A list of rows in strictly increasing order. */
  predicate Increasing(s: seq<nat>) {
    forall i, j :: 0 <= i < j < |s| ==> s[i] < s[j]
  }

  lemma {:induction false} MatchingMembers(t: Table, column: string, op: string, literal: string, n: nat)
    requires ColumnExists(t, column) && n <= |GetColumn(t, column).data|
    ensures var m := Matching(t, column, op, literal, n);
      Increasing(m)
      && (forall i :: 0 <= i < |m| ==> m[i] < n)
      && (forall x: nat :: x in m <==> x < n && EvaluateCondition(t, column, op, literal, x) == Some(true))
  {
    if n > 0 {
      MatchingMembers(t, column, op, literal, n - 1);
      var prev := Matching(t, column, op, literal, n - 1);
      if EvaluateCondition(t, column, op, literal, n - 1) == Some(true) {
        MatchingGrows(prev, n - 1);
      }
    }
  }

  /** A list of rows below `x` that is increasing stays increasing with `x`
      appended, and gains exactly `x`. */
  lemma MatchingGrows(prev: seq<nat>, x: nat)
    requires Increasing(prev) && forall i :: 0 <= i < |prev| ==> prev[i] < x
    ensures var m := prev + [x];
      Increasing(m) && (forall i :: 0 <= i < |m| ==> m[i] <= x)
      && forall y :: y in m <==> y in prev || y == x
  {
  }

  /** The first row at or after `i` and below `n` on which the condition
      throws, or `n` when there is none. */
  function FirstThrow(t: Table, column: string, op: string, literal: string, i: nat, n: nat): (f: nat)
    requires ColumnExists(t, column) && n <= |GetColumn(t, column).data|
    ensures i <= n ==> i <= f <= n
    ensures forall r :: i <= r < f && r < n ==> EvaluateCondition(t, column, op, literal, r).Some?
    ensures f < n ==> EvaluateCondition(t, column, op, literal, f).None?
    decreases n - i
  {
    if i >= n then n
    else if EvaluateCondition(t, column, op, literal, i).None? then i
    else FirstThrow(t, column, op, literal, i + 1, n)
  }

  /** A row visited before the first throw that evaluates is passed: the
      first throw lies beyond it. */
  lemma FirstThrowBeyond(t: Table, column: string, op: string, literal: string, i: nat, n: nat)
    requires ColumnExists(t, column) && n <= |GetColumn(t, column).data| && i < n
    requires i <= FirstThrow(t, column, op, literal, 0, n)
    requires EvaluateCondition(t, column, op, literal, i).Some?
    ensures i + 1 <= FirstThrow(t, column, op, literal, 0, n)
  {
  }

  // ---------------------------------------------------------------------------
  // Erasing positions

  /** The elements of `s` whose positions, counted from `base`, are not in
      `doomed`, in their original order. */
  function Keep<T>(s: seq<T>, doomed: set<nat>, base: nat): (r: seq<T>)
    ensures |r| <= |s|
    decreases |s|
  {
    if s == [] then [] else (if base in doomed then [] else [s[0]]) + Keep(s[1..], doomed, base + 1)
  }

  /** The positions `base`, `base + 1`, ..., `base + n - 1`. */
  function Iota(base: nat, n: nat): (r: seq<nat>)
    ensures |r| == n && forall i :: 0 <= i < n ==> r[i] == base + i
  {
    seq(n, i requires 0 <= i < n => base + i)
  }

  /** Nothing below position `base + x` is doomed: the first x elements stay. */
  lemma {:induction false} KeepBelow<T>(s: seq<T>, doomed: set<nat>, base: nat, x: nat)
    requires x <= |s|
    requires forall d :: d in doomed ==> !(base <= d < base + x)
    ensures Keep(s, doomed, base) == s[..x] + Keep(s[x..], doomed, base + x)
    decreases x
  {
    if x == 0 {
      assert s[..0] == [] && s[0..] == s;
    } else {
      var rest := Keep(s[x..], doomed, base + x);
      KeepBelow(s[1..], doomed, base + 1, x - 1);
      assert s[1..][x - 1..] == s[x..];
      assert Keep(s, doomed, base) == [s[0]] + (s[1..][..x - 1] + rest);
      AppendAssoc([s[0]], s[1..][..x - 1], rest);
      assert [s[0]] + s[1..][..x - 1] == s[..x];
    }
  }


  /** Only the doomed positions from `base` on matter. */
  lemma {:induction false} KeepAgree<T>(s: seq<T>, d1: set<nat>, d2: set<nat>, base: nat)
    requires forall d :: base <= d ==> (d in d1 <==> d in d2)
    ensures Keep(s, d1, base) == Keep(s, d2, base)
    decreases |s|
  {
    if s != [] {
      KeepAgree(s[1..], d1, d2, base + 1);
    }
  }

  /** One step of Keep on the suffix that starts at position p. */
  lemma KeepStep<T>(s: seq<T>, doomed: set<nat>, p: nat)
    requires p < |s|
    ensures Keep(s[p..], doomed, p) == (if p in doomed then [] else [s[p]]) + Keep(s[p + 1..], doomed, p + 1)
  {
    assert s[p..][1..] == s[p + 1..];
  }

  /** Erasing position p, below every doomed position, from what is kept
      dooms p as well: this is why the erase runs from the highest index down. */
  lemma KeepErase<T>(s: seq<T>, doomed: set<nat>, p: nat)
    requires p < |s| && forall d :: d in doomed ==> p < d
    ensures p < |Keep(s, doomed, 0)|
    ensures Keep(s, doomed + {p}, 0) == Keep(s, doomed, 0)[..p] + Keep(s, doomed, 0)[p + 1..]
  {
    var more := doomed + {p};
    var tail := Keep(s[p + 1..], doomed, p + 1);
    KeepBelow(s, doomed, 0, p);
    KeepBelow(s, more, 0, p);
    KeepStep(s, doomed, p);
    KeepStep(s, more, p);
    KeepAgree(s[p + 1..], doomed, more, p + 1);
    assert Keep(s, doomed, 0) == s[..p] + ([s[p]] + tail);
    assert Keep(s[p..], more, p) == [] + tail == tail;
    SplitAround(s[..p], s[p], tail);
  }

  /** Cutting the element after `a` out of `a + [x] + b` leaves `a + b`. */
  lemma SplitAround<T>(a: seq<T>, x: T, b: seq<T>)
    ensures var k := a + ([x] + b);
      |a| < |k| && k[..|a|] + k[|a| + 1..] == a + b
  {
    var k := a + ([x] + b);
    assert k[..|a|] == a && k[|a| + 1..] == b;
  }

  /** Two lists of the same length keep the same number of elements. */
  lemma {:induction false} KeepLength<T>(s1: seq<T>, s2: seq<T>, doomed: set<nat>, base: nat)
    requires |s1| == |s2|
    ensures |Keep(s1, doomed, base)| == |Keep(s2, doomed, base)|
    decreases |s1|
  {
    if s1 != [] {
      KeepLength(s1[1..], s2[1..], doomed, base + 1);
    }
  }

  /** What is kept is the list read at the surviving positions: element p of
      the result is the element at survivor p. */
  lemma {:induction false} KeepPositions<T>(s: seq<T>, doomed: set<nat>, base: nat)
    ensures var k := Keep<nat>(Iota(base, |s|), doomed, base);
      |k| == |Keep(s, doomed, base)|
      && forall p :: 0 <= p < |k| ==> base <= k[p] < base + |s| && Keep(s, doomed, base)[p] == s[k[p] - base]
    decreases |s|
  {
    if s != [] {
      var iota := Iota(base, |s|);
      assert iota[1..] == Iota(base + 1, |s| - 1);
      KeepPositions(s[1..], doomed, base + 1);
    }
  }

  /** The surviving positions are exactly the undoomed ones, in increasing order. */
  lemma {:induction false} SurvivorsMembers(doomed: set<nat>, base: nat, n: nat)
    ensures var k := Keep<nat>(Iota(base, n), doomed, base);
      Increasing(k) && forall x :: x in k <==> base <= x < base + n && x !in doomed
    decreases n
  {
    if n > 0 {
      var iota := Iota(base, n);
      assert iota[1..] == Iota(base + 1, n - 1);
      SurvivorsMembers(doomed, base + 1, n - 1);
      var k := Keep<nat>(Iota(base, n), doomed, base);
      var tail := Keep<nat>(Iota(base + 1, n - 1), doomed, base + 1);
      assert forall i :: 0 <= i < |tail| ==> tail[i] in tail;
    }
  }
}
