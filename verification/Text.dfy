// Strings as the daemon uses them: byte strings from a PTY, and the textual
// identifiers of sessions, panes and windows. A byte string is a `string` whose
// characters are byte values; nothing below depends on the upper bound.
module Text {

  type byte = b: int | 0 <= b < 256

  datatype Option<+T> = None | Some(value: T)

  const MAX_INT64: int := 0x7fff_ffff_ffff_ffff

  predicate IsDigit(c: char) {
    '0' <= c <= '9'
  }

  predicate AllDigits(s: string) {
    forall i | 0 <= i < |s| :: IsDigit(s[i])
  }

  function Digit(d: nat): (c: char)
    requires d < 10
    ensures IsDigit(c)
  {
    '0' + d as char
  }

  // The decimal form of a number, without leading zeros.
  function Itoa(n: nat): (s: string)
    ensures s != "" && AllDigits(s)
  {
    if n < 10 then [Digit(n)] else Itoa(n / 10) + [Digit(n % 10)]
  }

  // The number a run of digits denotes.
  function Value(s: string): (n: nat)
    requires AllDigits(s)
  {
    if s == "" then 0 else 10 * Value(s[..|s| - 1]) + (s[|s| - 1] as int - '0' as int)
  }

  // strconv.Atoi: an optional sign, at least one digit, and a value that fits a
  // signed 64-bit integer.
  function Atoi(s: string): (r: Option<int>) {
    var signed := s != "" && (s[0] == '+' || s[0] == '-');
    var digits := if signed then s[1..] else s;
    if digits == "" || !AllDigits(digits) then None
    else if signed && s[0] == '-' then
      if Value(digits) > MAX_INT64 + 1 then None else Some(0 - Value(digits))
    else
      if Value(digits) > MAX_INT64 then None else Some(Value(digits))
  }

  lemma {:induction false} ValueItoa(n: nat)
    ensures Value(Itoa(n)) == n
  {
    if n < 10 {
      assert Itoa(n)[..0] == "";
    } else {
      ValueItoa(n / 10);
      assert Itoa(n)[..|Itoa(n)| - 1] == Itoa(n / 10);
    }
  }

  lemma AtoiItoa(n: nat)
    requires n <= MAX_INT64
    ensures Atoi(Itoa(n)) == Some(n)
  {
    ValueItoa(n);
    assert IsDigit(Itoa(n)[0]);
  }

  lemma {:induction false} ZerosBefore(s: string)
    requires AllDigits(s)
    ensures AllDigits("0" + s) && Value("0" + s) == Value(s)
  {
    if s == "" {
      assert "0" + s == "0" && "0"[..0] == "";
    } else {
      var n := |s| - 1;
      ZerosBefore(s[..n]);
      assert ("0" + s)[..n + 1] == "0" + s[..n];
    }
  }

  // What strconv.Atoi reads: a number as it is written, with or without a sign, if it fits.
  lemma AtoiReads(n: nat)
    ensures Atoi(Itoa(n)) == (if n <= MAX_INT64 then Some(n) else None)
    ensures Atoi("+" + Itoa(n)) == if n <= MAX_INT64 then Some(n) else None
    ensures Atoi("-" + Itoa(n)) == if n <= MAX_INT64 + 1 then Some(0 - n) else None
  {
    ValueItoa(n);
    var s := Itoa(n);
    assert s != "" && AllDigits(s) && IsDigit(s[0]);
    hide Itoa, Value;
    assert ("+" + s)[1..] == s && ("-" + s)[1..] == s;
  }

  // Zeros before its digits do not change it, and what is not digits is no number.
  lemma AtoiRefuses(s: string)
    ensures AllDigits(s) && s != "" ==> Atoi("0" + s) == Atoi(s)
    ensures !AllDigits(s) && (s[0] !in {'+', '-'} || !AllDigits(s[1..])) ==> Atoi(s) == None
    ensures s in {"", "+", "-"} ==> Atoi(s) == None
  {
    if AllDigits(s) && s != "" {
      ZerosBefore(s);
      assert IsDigit(s[0]);
    }
    hide Value;
  }

  lemma ItoaInjective(m: nat, n: nat)
    requires Itoa(m) == Itoa(n)
    ensures m == n
  {
    ValueItoa(m);
    ValueItoa(n);
  }

  // The order strings.Compare and slices.Sort use.
  predicate Leq(a: string, b: string) {
    a == "" || (b != "" && (a[0] < b[0] || (a[0] == b[0] && Leq(a[1..], b[1..]))))
  }

  lemma {:induction false} LeqTotal(a: string, b: string)
    ensures Leq(a, b) || Leq(b, a)
  {
    if a != "" && b != "" && a[0] == b[0] {
      LeqTotal(a[1..], b[1..]);
    }
  }

  lemma {:induction false} LeqAntisymmetric(a: string, b: string)
    requires Leq(a, b) && Leq(b, a)
    ensures a == b
  {
    if a != "" && b != "" {
      LeqAntisymmetric(a[1..], b[1..]);
      assert a == [a[0]] + a[1..] && b == [b[0]] + b[1..];
    }
  }

  lemma {:induction false} LeqTransitive(a: string, b: string, c: string)
    requires Leq(a, b) && Leq(b, c)
    ensures Leq(a, c)
  {
    if a != "" && b != "" && c != "" && a[0] == b[0] && b[0] == c[0] {
      LeqTransitive(a[1..], b[1..], c[1..]);
    }
  }

  // It is the order by the first byte that differs, a beginning before what it begins.
  predicate BelowAt(a: string, b: string, i: nat) {
    i < |a| && i < |b| && a[..i] == b[..i] && a[i] < b[i]
  }

  lemma BelowLater(a: string, b: string, i: nat)
    requires a != "" && b != ""
    ensures BelowAt(a, b, 0) <==> a[0] < b[0]
    ensures BelowAt(a, b, i + 1) <==> a[0] == b[0] && BelowAt(a[1..], b[1..], i)
  {
    if i + 1 < |a| && i + 1 < |b| {
      assert a[..i + 1] == [a[0]] + a[1..][..i] && b[..i + 1] == [b[0]] + b[1..][..i];
      assert a[..i + 1][0] == a[0] && b[..i + 1][0] == b[0];
      assert a[..i + 1][1..] == a[1..][..i] && b[..i + 1][1..] == b[1..][..i];
    }
  }

  lemma {:induction false} LeqExactly(a: string, b: string)
    ensures Leq(a, b) <==> a <= b || exists i: nat :: BelowAt(a, b, i)
  {
    if a != "" && b != "" {
      BelowLater(a, b, 0);
      BeginsLater(a, b);
      if a[0] == b[0] { LeqExactly(a[1..], b[1..]); }
      hide BelowAt;
      if i: nat :| i > 0 && BelowAt(a, b, i) { BelowLater(a, b, i - 1); }
      if i: nat :| BelowAt(a[1..], b[1..], i) { BelowLater(a, b, i); }
    }
  }

  lemma BeginsLater(a: string, b: string)
    requires a != "" && b != ""
    ensures a <= b <==> a[0] == b[0] && a[1..] <= b[1..]
  {
    assert a == [a[0]] + a[1..] && b == [b[0]] + b[1..];
    if a[0] == b[0] && a[1..] <= b[1..] {
      assert b == [a[0]] + (a[1..] + b[1..][|a| - 1..]);
      assert b == a + b[1..][|a| - 1..];
    }
  }

  // The stream a sequence of reads delivers.
  function Concat(chunks: seq<string>): string {
    if chunks == [] then "" else chunks[0] + Concat(chunks[1..])
  }

  predicate Distinct<T(==)>(s: seq<T>) {
    forall i, j | 0 <= i < j < |s| :: s[i] != s[j]
  }

  function Elements<T>(s: seq<T>): set<T> {
    set x | x in s
  }

  ghost predicate IsLeast(m: string, s: set<string>) {
    m in s && forall x | x in s :: Leq(m, x)
  }

  lemma {:induction false} LeastExists(s: set<string>)
    requires s != {}
    ensures exists m :: IsLeast(m, s)
  {
    var x :| x in s;
    LeqTotal(x, x);
    var rest := s - {x};
    if rest == {} {
      assert forall y | y in s :: y == x by {
        forall y | y in s ensures y == x { assert y !in rest; }
      }
      assert IsLeast(x, s);
    } else {
      LeastExists(rest);
      var r :| IsLeast(r, rest);
      LeqTotal(x, r);
      var m := if Leq(x, r) then x else r;
      forall y | y in s ensures Leq(m, y) {
        if y != x && m == x { LeqTransitive(x, r, y); }
      }
      assert IsLeast(m, s);
    }
  }

  lemma LeastIsUnique(m: string, n: string, s: set<string>)
    requires IsLeast(m, s) && IsLeast(n, s)
    ensures m == n
  {
    LeqAntisymmetric(m, n);
  }

  // sortedMapKeys: the members of a set in ascending order.
  ghost function SortedKeys(s: set<string>): (r: seq<string>)
    ensures Elements(r) == s && Distinct(r)
    ensures s != {} ==> r != []
  {
    if s == {} then []
    else
      LeastExists(s);
      var m :| IsLeast(m, s);
      var rest := SortedKeys(s - {m});
      assert forall x :: x in [m] + rest <==> x == m || x in Elements(rest);
      [m] + rest
  }

  // firstString.
  function First(s: seq<string>): string {
    if s == [] then "" else s[0]
  }

  lemma SortedKeysStart(s: set<string>)
    requires s != {}
    ensures var r := SortedKeys(s); IsLeast(r[0], s) && r == [r[0]] + SortedKeys(s - {r[0]})
  {
    hide IsLeast, Leq;
    LeastExists(s);
  }

  lemma {:induction false} SortedKeysAscend(s: set<string>, i: nat, j: nat)
    requires i <= j < |SortedKeys(s)|
    ensures Leq(SortedKeys(s)[i], SortedKeys(s)[j])
    decreases s
  {
    SortedKeysStart(s);
    hide SortedKeys;
    var r := SortedKeys(s);
    assert r[j] in Elements(r);
    if i > 0 { SortedKeysAscend(s - {r[0]}, i - 1, j - 1); }
  }
}
