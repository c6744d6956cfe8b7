/** The ORDER_BY clause of `Parser::parseOrderByQuery`: `column ASC|DESC`
    pairs, and the multi-key comparator handed to `std::ranges::sort`. */
module OrderBy {
  import opened Wrappers
  import opened Strings
  import opened Schema

  datatype SortKey = SortKey(column: string, ascending: bool)

  predicate KeysValid(t: Table, keys: seq<SortKey>) {
    forall i :: 0 <= i < |keys| ==> ColumnExists(t, keys[i].column)
  }

  /** The pair loop `while (stream >> column >> order)`, resumed at `pos`
      with `acc` read so far. The direction is upper-cased, the column is
      checked first, then the direction; a lone last token is consumed and
      dropped. */
  function ScanOrderBy(t: Table, ts: seq<string>, pos: nat, acc: seq<SortKey>): Result<seq<SortKey>, Error>
    requires pos <= |ts|
    decreases |ts| - pos
  {
    if |ts| - pos < 2 then Ok(acc)
    else
      var column := ts[pos];
      var order := Upper(ts[pos + 1]);
      if !ColumnExists(t, column) then Err(NoSuchColumn(column))
      else if order == "ASC" || order == "DESC" then
        ScanOrderBy(t, ts, pos + 2, acc + [SortKey(column, order == "ASC")])
      else Err(BadDirection(order))
  }

  /** Every key returned names an existing column, in the order written, one
      key per pair of tokens. */
  lemma {:induction false} ScanOrderBySound(t: Table, ts: seq<string>, pos: nat, acc: seq<SortKey>)
    requires pos <= |ts| && KeysValid(t, acc)
    requires ScanOrderBy(t, ts, pos, acc).Ok?
    ensures var keys := ScanOrderBy(t, ts, pos, acc).value;
      KeysValid(t, keys) && |keys| == |acc| + (|ts| - pos) / 2 && keys[..|acc|] == acc
    decreases |ts| - pos
  {
    if |ts| - pos >= 2 {
      var next := acc + [SortKey(ts[pos], Upper(ts[pos + 1]) == "ASC")];
      ScanOrderBySound(t, ts, pos + 2, next);
      var keys := ScanOrderBy(t, ts, pos, acc).value;
      assert keys[..|next|][..|acc|] == keys[..|acc|];
    }
  }

  /** The comparator: the first key whose two cells differ as strings decides,
      numerically for a NUMBER column and by string order for TEXT, reversed
      for a descending key; when every key's cells are equal the rows are
      not ordered. None when `std::stod` throws on one of the deciding cells. */
  function RowLess(t: Table, keys: seq<SortKey>, a: nat, b: nat): Option<bool>
    requires KeysValid(t, keys) && InRange(t, a) && InRange(t, b)
    decreases |keys|
  {
    if keys == [] then Some(false)
    else
      var col := GetColumn(t, keys[0].column);
      var x := col.data[a];
      var y := col.data[b];
      if x == y then RowLess(t, keys[1..], a, b)
      else if col.ctype == Number then
        match (ParseNum(x), ParseNum(y))
        case (Some(u), Some(v)) => Some(if keys[0].ascending then u < v else u > v)
        case _ => None
      else Some(if keys[0].ascending then LexLess(x, y) else LexLess(y, x))
  }

  lemma {:induction false} RowLessIrreflexive(t: Table, keys: seq<SortKey>, a: nat)
    requires KeysValid(t, keys) && InRange(t, a)
    ensures RowLess(t, keys, a, a) == Some(false)
    decreases |keys|
  {
    if keys != [] {
      RowLessIrreflexive(t, keys[1..], a);
    }
  }

  /** A row is never both before and after another, and the comparison
      throws one way exactly when it throws the other way. */
  lemma {:induction false} RowLessAsymmetric(t: Table, keys: seq<SortKey>, a: nat, b: nat)
    requires KeysValid(t, keys) && InRange(t, a) && InRange(t, b)
    ensures RowLess(t, keys, a, b) == Some(true) ==> RowLess(t, keys, b, a) == Some(false)
    ensures RowLess(t, keys, a, b).None? <==> RowLess(t, keys, b, a).None?
    decreases |keys|
  {
    if keys != [] {
      var col := GetColumn(t, keys[0].column);
      var x := col.data[a];
      var y := col.data[b];
      if x == y {
        RowLessAsymmetric(t, keys[1..], a, b);
      } else if col.ctype == Text {
        LexAsymmetric(x, y);
      }
    }
  }

  /** The numeric-tie quirk: when the first key is a NUMBER column whose two
      cells are different strings with the same value ("1" and "1.0"), the
      rows are not ordered either way, whatever the later keys say. */
  lemma NumericTieStops(t: Table, keys: seq<SortKey>, a: nat, b: nat)
    requires KeysValid(t, keys) && InRange(t, a) && InRange(t, b) && keys != []
    requires GetColumn(t, keys[0].column).ctype == Number
    requires var col := GetColumn(t, keys[0].column);
      col.data[a] != col.data[b] && ParseNum(col.data[a]).Some? && ParseNum(col.data[a]) == ParseNum(col.data[b])
    ensures RowLess(t, keys, a, b) == Some(false) && RowLess(t, keys, b, a) == Some(false)
  {
  }

  /** Every cell a NUMBER key compares parses. */
  predicate NumericKeysParse(t: Table, keys: seq<SortKey>, a: nat)
    requires KeysValid(t, keys) && InRange(t, a)
  {
    forall i :: 0 <= i < |keys| && GetColumn(t, keys[i].column).ctype == Number ==>
      ParseNum(GetColumn(t, keys[i].column).data[a]).Some?
  }

  /** The comparator can only throw on a NUMBER cell that does not parse. */
  lemma {:induction false} RowLessDefined(t: Table, keys: seq<SortKey>, a: nat, b: nat)
    requires KeysValid(t, keys) && InRange(t, a) && InRange(t, b)
    requires NumericKeysParse(t, keys, a) && NumericKeysParse(t, keys, b)
    ensures RowLess(t, keys, a, b).Some?
    decreases |keys|
  {
    if keys != [] {
      assert NumericKeysParse(t, keys[1..], a) && NumericKeysParse(t, keys[1..], b) by {
        forall i | 0 <= i < |keys[1..]| ensures keys[1..][i] == keys[i + 1] { }
      }
      RowLessDefined(t, keys[1..], a, b);
    }
  }

  /** No row of the list is placed before a row that the comparator puts
      ahead of it. */
  predicate Sorted(t: Table, keys: seq<SortKey>, s: seq<nat>)
    requires KeysValid(t, keys) && AllInRange(t, s)
  {
    forall i :: 0 < i < |s| ==> RowLess(t, keys, s[i], s[i - 1]) == Some(false)
  }

  /** The two rows' NUMBER key cells all parse, and wherever two of them
      differ as strings they differ as numbers: no numeric tie can stop the
      comparator early. */
  predicate NoNumericTie(t: Table, keys: seq<SortKey>, a: nat, b: nat)
    requires KeysValid(t, keys) && InRange(t, a) && InRange(t, b)
  {
    NumericKeysParse(t, keys, a) && NumericKeysParse(t, keys, b)
    && forall i :: 0 <= i < |keys| && GetColumn(t, keys[i].column).ctype == Number ==>
      var col := GetColumn(t, keys[i].column);
      col.data[a] != col.data[b] ==> ParseNum(col.data[a]) != ParseNum(col.data[b])
  }

  lemma NoNumericTieTail(t: Table, keys: seq<SortKey>, a: nat, b: nat)
    requires KeysValid(t, keys) && InRange(t, a) && InRange(t, b) && keys != []
    requires NoNumericTie(t, keys, a, b)
    ensures KeysValid(t, keys[1..]) && NoNumericTie(t, keys[1..], a, b)
  {
    forall i | 0 <= i < |keys[1..]| ensures keys[1..][i] == keys[i + 1] { }
  }

  /** Without numeric ties "not behind" is transitive: a row not behind a
      second row, which is not behind a third, is not behind the third. */
  lemma {:induction false} NotBehindTransitive(t: Table, keys: seq<SortKey>, a: nat, b: nat, c: nat)
    requires KeysValid(t, keys) && InRange(t, a) && InRange(t, b) && InRange(t, c)
    requires NoNumericTie(t, keys, a, b) && NoNumericTie(t, keys, b, c)
    requires RowLess(t, keys, b, a) == Some(false) && RowLess(t, keys, c, b) == Some(false)
    ensures RowLess(t, keys, c, a) == Some(false)
    decreases |keys|
  {
    if keys != [] {
      var col := GetColumn(t, keys[0].column);
      var xa, xb, xc := col.data[a], col.data[b], col.data[c];
      if xa == xb && xb == xc {
        NoNumericTieTail(t, keys, a, b);
        NoNumericTieTail(t, keys, b, c);
        NotBehindTransitive(t, keys[1..], a, b, c);
      } else if col.ctype == Text {
        LexTotal(xa, xb);
        LexTotal(xb, xc);
        if LexLess(xa, xb) && LexLess(xb, xc) {
          LexTransitive(xa, xb, xc);
        }
        if LexLess(xc, xb) && LexLess(xb, xa) {
          LexTransitive(xc, xb, xa);
        }
        LexIrreflexive(xa);
        LexAsymmetric(xa, xc);
      }
    }
  }

  /** A sorted list of rows with no numeric tie among them is ordered
      throughout: no row is behind any row placed before it. */
  lemma SortedOrdered(t: Table, keys: seq<SortKey>, s: seq<nat>)
    requires KeysValid(t, keys) && AllInRange(t, s) && Sorted(t, keys, s)
    requires forall i, j :: 0 <= i < |s| && 0 <= j < |s| ==> NoNumericTie(t, keys, s[i], s[j])
    ensures forall i, j :: 0 <= i < j < |s| ==> RowLess(t, keys, s[j], s[i]) == Some(false)
  {
    forall i, j | 0 <= i < j < |s|
      ensures RowLess(t, keys, s[j], s[i]) == Some(false)
    {
      SortedChain(t, keys, s, i, j);
    }
  }

  lemma {:induction false} SortedChain(t: Table, keys: seq<SortKey>, s: seq<nat>, i: nat, j: nat)
    requires KeysValid(t, keys) && AllInRange(t, s) && Sorted(t, keys, s)
    requires forall i, j :: 0 <= i < |s| && 0 <= j < |s| ==> NoNumericTie(t, keys, s[i], s[j])
    requires i < j < |s|
    ensures RowLess(t, keys, s[j], s[i]) == Some(false)
    decreases j - i
  {
    if i + 1 < j {
      SortedChain(t, keys, s, i, j - 1);
      NotBehindTransitive(t, keys, s[i], s[j - 1], s[j]);
    }
  }

  method Swap(a: array<nat>, i: nat, j: nat)
    requires i < a.Length && j < a.Length
    modifies a
    ensures a[..] == old(a[..])[i := old(a[j])][j := old(a[i])]
    ensures multiset(a[..]) == multiset(old(a[..]))
  {
    a[i], a[j] := a[j], a[i];
  }

  /** Two rows of the collection whose comparison throws. */
  predicate SomePairThrows(t: Table, keys: seq<SortKey>, rows: multiset<nat>)
    requires KeysValid(t, keys)
  {
    exists x, y :: x in rows && y in rows && InRange(t, x) && InRange(t, y) && RowLess(t, keys, x, y).None?
  }

  lemma PairThrows(t: Table, keys: seq<SortKey>, s: seq<nat>, j: nat)
    requires KeysValid(t, keys) && AllInRange(t, s) && 0 < j < |s|
    requires RowLess(t, keys, s[j], s[j - 1]).None?
    ensures SomePairThrows(t, keys, multiset(s))
  {
    assert s[j] in multiset(s) && s[j - 1] in multiset(s);
  }

  /** `std::ranges::sort(rows, comparator)`, in place. The standard leaves the
      algorithm open, so the model sorts by insertion; what it promises is what
      any comparison sort gives with this comparator: the rows are permuted,
      and on success no row stands right after one it should precede. A
      failure comes from a comparison of two rows of the list that throws. */
  method SortRows(t: Table, keys: seq<SortKey>, a: array<nat>) returns (ok: bool)
    requires KeysValid(t, keys) && AllInRange(t, a[..])
    modifies a
    ensures multiset(a[..]) == multiset(old(a[..]))
    ensures AllInRange(t, a[..])
    ensures ok ==> Sorted(t, keys, a[..])
    ensures !ok ==> SomePairThrows(t, keys, multiset(old(a[..])))
  {
    ok := true;
    if a.Length == 0 {
      return;
    }
    var i := 1;
    while i < a.Length
      invariant 1 <= i <= a.Length
      invariant multiset(a[..]) == multiset(old(a[..]))
      invariant AllInRange(t, a[..])
      invariant Sorted(t, keys, a[..i])
    {
      ok := Insert(t, keys, a, i);
      if !ok {
        return;
      }
      i := i + 1;
    }
    assert a[..a.Length] == a[..];
  }

  /** The state of one insertion: rows 0..i are in order except around the
      gap at j, where the moving row stands, and its neighbours are in order
      with each other. */
  predicate Inserting(t: Table, keys: seq<SortKey>, s: seq<nat>, i: nat, j: nat)
    requires KeysValid(t, keys) && AllInRange(t, s)
  {
    j <= i < |s|
    && (forall k :: 0 < k <= i && k != j ==> RowLess(t, keys, s[k], s[k - 1]) == Some(false))
    && (0 < j < i ==> RowLess(t, keys, s[j + 1], s[j - 1]) == Some(false))
  }

  lemma InsertingStarts(t: Table, keys: seq<SortKey>, s: seq<nat>, i: nat)
    requires KeysValid(t, keys) && AllInRange(t, s)
    requires 0 < i < |s| && Sorted(t, keys, s[..i])
    ensures Inserting(t, keys, s, i, i)
  {
    forall k | 0 < k < i
      ensures RowLess(t, keys, s[k], s[k - 1]) == Some(false)
    {
      assert s[..i][k] == s[k] && s[..i][k - 1] == s[k - 1];
    }
  }

  lemma InsertingStops(t: Table, keys: seq<SortKey>, s: seq<nat>, i: nat, j: nat)
    requires KeysValid(t, keys) && AllInRange(t, s)
    requires Inserting(t, keys, s, i, j)
    requires j == 0 || RowLess(t, keys, s[j], s[j - 1]) == Some(false)
    ensures Sorted(t, keys, s[..i + 1])
  {
    var p := s[..i + 1];
    forall k | 0 < k < |p|
      ensures RowLess(t, keys, p[k], p[k - 1]) == Some(false)
    {
      assert p[k] == s[k] && p[k - 1] == s[k - 1];
    }
  }

  /** Swapping the moving row with a predecessor it precedes moves the gap
      one place down. */
  lemma InsertingSteps(t: Table, keys: seq<SortKey>, s: seq<nat>, i: nat, j: nat)
    requires KeysValid(t, keys) && AllInRange(t, s)
    requires Inserting(t, keys, s, i, j) && 0 < j
    requires RowLess(t, keys, s[j], s[j - 1]) == Some(true)
    ensures AllInRange(t, s[j - 1 := s[j]][j := s[j - 1]])
    ensures Inserting(t, keys, s[j - 1 := s[j]][j := s[j - 1]], i, j - 1)
  {
    var s' := s[j - 1 := s[j]][j := s[j - 1]];
    RowLessAsymmetric(t, keys, s[j], s[j - 1]);
    assert RowLess(t, keys, s'[j], s'[j - 1]) == Some(false);
    forall k | 0 < k <= i && k != j - 1
      ensures RowLess(t, keys, s'[k], s'[k - 1]) == Some(false)
    {
      if k == j + 1 {
        assert s'[k] == s[j + 1] && s'[k - 1] == s[j - 1];
      } else if k != j {
        assert s'[k] == s[k] && s'[k - 1] == s[k - 1];
      }
    }
    if 0 < j - 1 {
      assert s'[j] == s[j - 1] && s'[j - 2] == s[j - 2];
    }
  }

  /** One step of the insertion sort: moves a[i] down into the ordered prefix
      a[..i] by swapping it with each predecessor it precedes. */
  method Insert(t: Table, keys: seq<SortKey>, a: array<nat>, i: nat) returns (ok: bool)
    requires KeysValid(t, keys) && AllInRange(t, a[..])
    requires 0 < i < a.Length && Sorted(t, keys, a[..i])
    modifies a
    ensures multiset(a[..]) == multiset(old(a[..]))
    ensures AllInRange(t, a[..])
    ensures ok ==> Sorted(t, keys, a[..i + 1])
    ensures !ok ==> SomePairThrows(t, keys, multiset(old(a[..])))
  {
    ok := true;
    InsertingStarts(t, keys, a[..], i);
    var j := i;
    while j > 0
      invariant j <= i
      invariant multiset(a[..]) == multiset(old(a[..]))
      invariant AllInRange(t, a[..])
      invariant Inserting(t, keys, a[..], i, j)
    {
      var x, y := a[j], a[j - 1];
      assert x == a[..][j] && y == a[..][j - 1];
      var c := RowLess(t, keys, x, y);
      if c.None? {
        PairThrows(t, keys, a[..], j);
        ok := false;
        return;
      }
      if !c.value {
        break;
      }
      assert RowLess(t, keys, a[..][j], a[..][j - 1]) == Some(true);
      InsertingSteps(t, keys, a[..], i, j);
      Swap(a, j - 1, j);
      j := j - 1;
    }
    InsertingStops(t, keys, a[..], i, j);
  }
}
