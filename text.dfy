/** The character-level library behaviour the query engine relies on:
    `toupper` in the "C" locale, `std::string`'s `operator<`, the decimal
    prefixes that `std::stod` and `std::stoi` accept, the decimal text that
    `operator<<` writes for a count, `std::getline` line splitting and the
    space-separated name lists of the listing commands. */
module Strings {
  import opened Wrappers

  // ---------------------------------------------------------------------------
  // toupper

  function UpperChar(c: char): char {
    if 'a' <= c <= 'z' then (c as int - 32) as char else c
  }

  /** `std::ranges::transform(s, toupper)`: only the ASCII letters a-z change. */
  function Upper(s: string): string {
    seq(|s|, i requires 0 <= i < |s| => UpperChar(s[i]))
  }

  // ---------------------------------------------------------------------------
  // std::string operator<

  /** Lexicographic order by character code; a proper prefix is smaller. */
  predicate LexLess(a: string, b: string)
    decreases |a|
  {
    |b| > 0 && (|a| == 0 || a[0] < b[0] || (a[0] == b[0] && LexLess(a[1..], b[1..])))
  }

  lemma {:induction false} LexIrreflexive(a: string)
    ensures !LexLess(a, a)
    decreases |a|
  {
    if |a| > 0 {
      LexIrreflexive(a[1..]);
    }
  }

  lemma {:induction false} LexAsymmetric(a: string, b: string)
    ensures LexLess(a, b) ==> !LexLess(b, a)
    decreases |a|
  {
    if |a| > 0 && |b| > 0 && a[0] == b[0] {
      LexAsymmetric(a[1..], b[1..]);
    }
  }

  /** Two different strings are always ordered one way or the other. */
  lemma {:induction false} LexTotal(a: string, b: string)
    ensures a == b || LexLess(a, b) || LexLess(b, a)
    decreases |a|
  {
    if |a| > 0 && |b| > 0 && a[0] == b[0] {
      LexTotal(a[1..], b[1..]);
      if a[1..] == b[1..] {
        assert a == [a[0]] + a[1..] && b == [b[0]] + b[1..];
      }
    }
  }

  lemma {:induction false} LexTransitive(a: string, b: string, c: string)
    requires LexLess(a, b) && LexLess(b, c)
    ensures LexLess(a, c)
    decreases |a|
  {
    if |a| > 0 && a[0] == b[0] && b[0] == c[0] {
      LexTransitive(a[1..], b[1..], c[1..]);
    }
  }

  // ---------------------------------------------------------------------------
  // Decimal digits

  predicate IsDigit(c: char) {
    '0' <= c <= '9'
  }

  predicate AllDigits(s: string) {
    forall i :: 0 <= i < |s| ==> IsDigit(s[i])
  }

  function DigitChar(d: nat): char
    requires d < 10
  {
    ('0' as int + d) as char
  }

  /** Length of the run of decimal digits `s` starts with. */
  function DigitRun(s: string): (n: nat)
    ensures n <= |s|
  {
    if |s| == 0 || !IsDigit(s[0]) then 0 else 1 + DigitRun(s[1..])
  }

  /** The run is the longest prefix of `s` made of digits. */
  lemma {:induction false} DigitRunLongest(s: string)
    ensures AllDigits(s[..DigitRun(s)])
    ensures DigitRun(s) == |s| || !IsDigit(s[DigitRun(s)])
    decreases |s|
  {
    if |s| > 0 && IsDigit(s[0]) {
      DigitRunLongest(s[1..]);
      assert s[..DigitRun(s)] == [s[0]] + s[1..][..DigitRun(s[1..])];
    }
  }

  function DigitValue(c: char): (v: nat)
    ensures v < 10
  {
    if IsDigit(c) then c as int - '0' as int else 0
  }

  /** The number a string of decimal digits denotes. */
  function DigitsValue(d: string): nat {
    if |d| == 0 then 0 else 10 * DigitsValue(d[..|d| - 1]) + DigitValue(d[|d| - 1])
  }

  function Pow10(k: nat): (p: nat)
    ensures p >= 1
  {
    if k == 0 then 1 else 10 * Pow10(k - 1)
  }

  /** `isspace` in the "C" locale. */
  predicate IsSpace(c: char) {
    c == ' ' || 9 <= c as int <= 13
  }

  /** What is left of `s` once its leading white space is skipped. */
  function SkipSpace(s: string): (t: string)
    ensures |t| <= |s|
  {
    if |s| > 0 && IsSpace(s[0]) then SkipSpace(s[1..]) else s
  }

  /** Skipping drops a prefix of white space and stops at anything else. */
  lemma {:induction false} SkipSpaceSuffix(s: string)
    ensures var t := SkipSpace(s); t == s[|s| - |t|..] && (|t| == 0 || !IsSpace(t[0]))
    decreases |s|
  {
    if |s| > 0 && IsSpace(s[0]) {
      SkipSpaceSuffix(s[1..]);
    }
  }

  // ---------------------------------------------------------------------------
  // std::stod and std::stoi

  /** The value of the unsigned decimal prefix `digits[.digits]` of `s`, which
      needs at least one digit on either side of the point. */
  function UnsignedPrefix(s: string): Option<real> {
    var n := DigitRun(s);
    if n < |s| && s[n] == '.' then
      var m := DigitRun(s[n + 1..]);
      if n + m == 0 then None
      else Some(DigitsValue(s[..n]) as real + DigitsValue(s[n + 1..][..m]) as real / Pow10(m) as real)
    else if n == 0 then None
    else Some(DigitsValue(s[..n]) as real)
  }

  /** `std::stod`: skip white space, take an optional sign and the longest
      decimal prefix; None stands for the `invalid_argument` it throws when
      there is no such prefix. Characters after the prefix are ignored. */
  function ParseNum(s: string): Option<real> {
    var t := SkipSpace(s);
    if |t| > 0 && (t[0] == '+' || t[0] == '-') then
      match UnsignedPrefix(t[1..])
      case None => None
      case Some(v) => Some(if t[0] == '-' then -v else v)
    else UnsignedPrefix(t)
  }

  /** `std::stoi`, scanning from the left as `strtol` does: white space is
      skipped, a sign may follow, then a run of decimal digits; None when
      there is no digit. Characters after the run are ignored. */
  function ParseInt(s: string): Option<int>
    decreases |s|
  {
    if |s| > 0 && IsSpace(s[0]) then ParseInt(s[1..])
    else if |s| > 0 && s[0] == '-' then
      match LeadingDigits(s[1..])
      case None => None
      case Some(v) => Some(-v)
    else if |s| > 0 && s[0] == '+' then LeadingDigits(s[1..])
    else LeadingDigits(s)
  }

  /** The value of the digits `s` starts with; None when it starts with none. */
  function LeadingDigits(s: string): Option<int> {
    if |s| > 0 && IsDigit(s[0]) then Some(Accumulate(s[1..], DigitValue(s[0]))) else None
  }

  /** The value `v` takes on when the digits `s` starts with are appended to
      it, one at a time. */
  function Accumulate(s: string, v: int): int
    decreases |s|
  {
    if |s| > 0 && IsDigit(s[0]) then Accumulate(s[1..], 10 * v + DigitValue(s[0])) else v
  }

  lemma {:induction false} NoDigitNoRun(s: string)
    requires forall i :: 0 <= i < |s| ==> !IsDigit(s[i])
    ensures DigitRun(s) == 0
  {
  }

  /** A string without a single digit is rejected by `std::stod`; this is why
      a TEXT-looking token such as "abc" is never a NUMBER. */
  lemma NoDigitNotNumber(s: string)
    requires forall i :: 0 <= i < |s| ==> !IsDigit(s[i])
    ensures ParseNum(s) == None
  {
    var t := SkipSpace(s);
    SkipSpaceSuffix(s);
    assert forall i :: 0 <= i < |t| ==> t[i] == s[|s| - |t| + i];
    NoDigitNoRun(t);
    if |t| > 0 {
      NoDigitNoRun(t[1..]);
      if t[0] == '.' {
        NoDigitNoRun(t[1..]);
      }
      var u := t[1..];
      if DigitRun(u) < |u| && u[DigitRun(u)] == '.' {
        NoDigitNoRun(u[1..]);
      }
    }
  }

  // ---------------------------------------------------------------------------
  // operator<< on a count

  /** The decimal text written for a count: no sign and no leading zero. */
  function NatToString(n: nat): (s: string)
    ensures |s| > 0 && AllDigits(s)
    ensures |s| > 1 ==> s[0] != '0'
  {
    if n < 10 then [DigitChar(n)] else NatToString(n / 10) + [DigitChar(n % 10)]
  }

  lemma {:induction false} AccumulateSnoc(a: string, c: char, v: int)
    requires AllDigits(a) && IsDigit(c)
    ensures Accumulate(a + [c], v) == 10 * Accumulate(a, v) + DigitValue(c)
    decreases |a|
  {
    if a == [] {
      assert a + [c] == [c];
    } else {
      assert (a + [c])[1..] == a[1..] + [c];
      AccumulateSnoc(a[1..], c, 10 * v + DigitValue(a[0]));
    }
  }

  lemma {:induction false} AccumulateOfNat(n: nat)
    ensures Accumulate(NatToString(n), 0) == n
  {
    if n >= 10 {
      AccumulateOfNat(n / 10);
      AccumulateSnoc(NatToString(n / 10), DigitChar(n % 10), 0);
    }
  }

  /** `std::stoi` reads back exactly the count that was written. */
  lemma ParseIntOfNat(n: nat)
    ensures ParseInt(NatToString(n)) == Some(n)
  {
    var s := NatToString(n);
    AccumulateOfNat(n);
    assert Accumulate(s, 0) == Accumulate(s[1..], DigitValue(s[0]));
  }

  // ---------------------------------------------------------------------------
  // Lines: what writeToFile emits and std::getline reads back

  predicate NoNewline(s: string) {
    forall i :: 0 <= i < |s| ==> s[i] != '\n'
  }

  /** Concatenation is associative. */
  lemma AppendAssoc<T>(a: seq<T>, b: seq<T>, c: seq<T>)
    ensures a + (b + c) == (a + b) + c
  {
  }

  /** Five pieces joined from the left are the first followed by the other four. */
  lemma Regroup<T>(a: seq<T>, b: seq<T>, c: seq<T>, d: seq<T>, e: seq<T>)
    ensures a + b + c + d + e == a + (b + c + d + e)
  {
  }

  /** Every line followed by '\n', as `file << line << '\n'` produces. */
  function JoinLines(lines: seq<string>): string {
    if lines == [] then "" else lines[0] + "\n" + JoinLines(lines[1..])
  }

  /** The text cut at every '\n'. The last piece is what follows the final
      newline (the empty string for a file that ends in one). */
  function SplitLines(t: string): (r: seq<string>)
    ensures |r| > 0
    ensures forall i :: 0 <= i < |r| ==> NoNewline(r[i])
  {
    if |t| == 0 then [""]
    else
      var rest := SplitLines(t[1..]);
      if t[0] == '\n' then [""] + rest
      else [[t[0]] + rest[0]] + rest[1..]
  }

  lemma {:induction false} JoinLinesSnoc(lines: seq<string>, last: string)
    ensures JoinLines(lines + [last]) == JoinLines(lines) + last + "\n"
  {
    if lines != [] {
      JoinLinesSnoc(lines[1..], last);
      assert (lines + [last])[1..] == lines[1..] + [last];
    }
  }

  /** Cutting loses nothing: re-joining the pieces with '\n' gives the text back. */
  lemma {:induction false} SplitThenJoin(t: string)
    ensures var r := SplitLines(t); JoinLines(r[..|r| - 1]) + r[|r| - 1] == t
    decreases |t|
  {
    if |t| > 0 {
      SplitThenJoin(t[1..]);
      JoinAfter(t[0], SplitLines(t[1..]));
      assert [t[0]] + t[1..] == t;
    }
  }

  /** Re-joining the pieces of a text with one more character in front: a
      newline opens a new first piece, another character joins the first
      piece, and either way the character comes first in the joined text. */
  lemma JoinAfter(c: char, rs: seq<string>)
    requires |rs| > 0
    ensures var r := if c == '\n' then [""] + rs else [[c] + rs[0]] + rs[1..];
      JoinLines(r[..|r| - 1]) + r[|r| - 1] == [c] + (JoinLines(rs[..|rs| - 1]) + rs[|rs| - 1])
  {
    var init, last := rs[..|rs| - 1], rs[|rs| - 1];
    if c == '\n' {
      var r := [""] + rs;
      assert r[..|r| - 1] == [""] + init && r[|r| - 1] == last;
      JoinCons("", init);
      AppendAssoc("\n", JoinLines(init), last);
    } else if |rs| == 1 {
      var r := [[c] + rs[0]];
      assert r[..|r| - 1] == [] && init == [];
    } else {
      var r := [[c] + rs[0]] + rs[1..];
      var mid := rs[1..|rs| - 1];
      assert r[..|r| - 1] == [[c] + rs[0]] + mid && r[|r| - 1] == last;
      assert init == [rs[0]] + mid;
      JoinCons([c] + rs[0], mid);
      JoinCons(rs[0], mid);
      Regroup([c], rs[0], "\n", JoinLines(mid), last);
    }
  }

  /** Joining a line in front of others. */
  lemma JoinCons(line: string, lines: seq<string>)
    ensures JoinLines([line] + lines) == line + "\n" + JoinLines(lines)
  {
    assert ([line] + lines)[1..] == lines;
  }

  lemma {:induction false} SplitLineThenRest(line: string, t: string)
    requires NoNewline(line)
    ensures SplitLines(line + "\n" + t) == [line] + SplitLines(t)
    decreases |line|
  {
    if |line| == 0 {
      assert line + "\n" + t == "\n" + t;
      assert ("\n" + t)[1..] == t;
    } else {
      var u := line + "\n" + t;
      assert u[1..] == line[1..] + "\n" + t;
      SplitLineThenRest(line[1..], t);
      assert [u[0]] + line[1..] == line;
    }
  }

  /** Reading back a file of newline-free lines gives every line in order,
      then the empty piece after the final newline. */
  lemma {:induction false} SplitJoin(lines: seq<string>)
    requires forall i :: 0 <= i < |lines| ==> NoNewline(lines[i])
    ensures SplitLines(JoinLines(lines)) == lines + [""]
  {
    if lines != [] {
      SplitJoin(lines[1..]);
      SplitLineThenRest(lines[0], JoinLines(lines[1..]));
      assert lines == [lines[0]] + lines[1..];
    }
  }

  // ---------------------------------------------------------------------------
  // Name lists

  /** Every name followed by one space, as the listing loops build it. */
  function SpaceTerminated(names: seq<string>): (s: string)
    ensures |s| >= |names|
  {
    if names == [] then "" else SpaceTerminated(names[..|names| - 1]) + names[|names| - 1] + " "
  }

  /** `names.substr(0, names.size() - 1)`: the list without its last space
      (the whole, empty, string when there is nothing to cut). */
  function JoinNames(names: seq<string>): string {
    var all := SpaceTerminated(names);
    if |all| == 0 then "" else all[..|all| - 1]
  }

  /** The joined list is empty exactly when there is no name, or a single
      empty name. */
  lemma JoinNamesEmpty(names: seq<string>)
    ensures JoinNames(names) == "" <==> names == [] || names == [""]
  {
    if |names| == 1 {
      JoinSingle(names);
    } else if |names| >= 2 {
      assert |SpaceTerminated(names)| >= 2;
    }
  }

  lemma JoinSingle(names: seq<string>)
    requires |names| == 1
    ensures JoinNames(names) == names[0]
    ensures names == [""] <==> names[0] == ""
  {
    assert names[..0] == [];
    assert SpaceTerminated(names[..0]) == "";
    var all := SpaceTerminated(names);
    assert all == names[0] + " ";
    assert all[..|all| - 1] == names[0];
  }
}
