/** String helpers with the Java semantics the source relies on:
    splitting and joining on one character, decimal rendering and
    parsing (`Integer.toString`, `Integer.valueOf`), `String.trim`,
    and `String.replace` of one character by nothing. */
module Strings {
  import opened Results

  const IntMax: int := 0x7fff_ffff
  const IntMin: int := -0x8000_0000

  /** Java `int` arithmetic: the result of a 32-bit operation, wrapped. */
  function Wrap32(x: int): (r: int)
    ensures IntMin <= r <= IntMax
    ensures (r - x) % 0x1_0000_0000 == 0
    ensures IntMin <= x <= IntMax ==> r == x
  {
    var m := (x - IntMin) % 0x1_0000_0000;
    m + IntMin
  }

  // ---------------------------------------------------------------------
  // Splitting and joining on a single character

  /** Position of the first `c` in `s` (Java `indexOf`, when it is found). */
  function IndexOf(s: string, c: char): (k: nat)
    requires c in s
    ensures k < |s| && s[k] == c && c !in s[..k]
  {
    if s[0] == c then 0
    else
      var k' := IndexOf(s[1..], c);
      assert s[..k' + 1] == [s[0]] + s[1..][..k'];
      k' + 1
  }

  /** The pieces of `s` between occurrences of `c`; never empty. */
  function Split(s: string, c: char): (parts: seq<string>)
    ensures |parts| >= 1
    ensures forall i :: 0 <= i < |parts| ==> c !in parts[i]
    decreases |s|
  {
    if c !in s then [s]
    else
      var k := IndexOf(s, c);
      [s[..k]] + Split(s[k + 1..], c)
  }

  /** The pieces separated by `c`. */
  function Join(parts: seq<string>, c: char): string
  {
    if |parts| == 0 then ""
    else if |parts| == 1 then parts[0]
    else parts[0] + [c] + Join(parts[1..], c)
  }

  lemma {:induction false} IndexOfConcat(a: string, c: char, b: string)
    requires c !in a
    ensures c in a + [c] + b
    ensures IndexOf(a + [c] + b, c) == |a|
  {
    var s := a + [c] + b;
    assert s[|a|] == c;
    if |a| > 0 {
      assert s[1..] == a[1..] + [c] + b;
      IndexOfConcat(a[1..], c, b);
    }
  }

  /** A separator-free head is split off as the first piece. */
  lemma SplitCons(a: string, c: char, b: string)
    requires c !in a
    ensures Split(a + [c] + b, c) == [a] + Split(b, c)
  {
    var s := a + [c] + b;
    IndexOfConcat(a, c, b);
    assert s[..|a|] == a;
    assert s[|a| + 1..] == b;
  }

  /** Joining the pieces of a split gives the string back. */
  lemma {:induction false} JoinSplit(s: string, c: char)
    ensures Join(Split(s, c), c) == s
    decreases |s|
  {
    if c in s {
      var k := IndexOf(s, c);
      JoinSplit(s[k + 1..], c);
      var rest := Split(s[k + 1..], c);
      assert Split(s, c) == [s[..k]] + rest;
      assert s == s[..k] + [c] + s[k + 1..];
    }
  }

  /** Splitting a join recovers the separator-free leading pieces, and
      splits the last piece on its own. */
  lemma JoinCons(p: string, rest: seq<string>, c: char)
    requires |rest| >= 1
    ensures Join([p] + rest, c) == p + [c] + Join(rest, c)
  {
    assert ([p] + rest)[1..] == rest;
  }

  lemma {:induction false} SplitJoinPrefix(ps: seq<string>, t: string, c: char)
    requires forall i :: 0 <= i < |ps| ==> c !in ps[i]
    ensures Split(Join(ps + [t], c), c) == ps + Split(t, c)
  {
    if |ps| == 0 {
      assert ps + [t] == [t];
    } else {
      var p := ps[0];
      var rest := ps[1..] + [t];
      var j := Join(rest, c);
      calc {
        Split(Join(ps + [t], c), c);
        == { assert ps + [t] == [p] + rest; }
        Split(Join([p] + rest, c), c);
        == { JoinCons(p, rest, c); }
        Split(p + [c] + j, c);
        == { SplitCons(p, c, j); }
        [p] + Split(j, c);
        == { SplitJoinPrefix(ps[1..], t, c); }
        [p] + (ps[1..] + Split(t, c));
        == { assert ps == [p] + ps[1..]; }
        ps + Split(t, c);
      }
    }
  }

  /** Splitting a join of separator-free pieces recovers the pieces. */
  lemma SplitJoin(ps: seq<string>, c: char)
    requires |ps| >= 1
    requires forall i :: 0 <= i < |ps| ==> c !in ps[i]
    ensures Split(Join(ps, c), c) == ps
  {
    var n := |ps| - 1;
    assert ps == ps[..n] + [ps[n]];
    SplitJoinPrefix(ps[..n], ps[n], c);
  }

  /** A piece joined at the end follows the separator. */
  lemma {:induction false} JoinSnoc(ps: seq<string>, x: string, c: char)
    requires |ps| >= 1
    ensures Join(ps + [x], c) == Join(ps, c) + [c] + x
    decreases |ps|
  {
    if |ps| == 1 {
      assert ps + [x] == [ps[0]] + [x];
    } else {
      assert (ps + [x])[1..] == ps[1..] + [x];
      JoinSnoc(ps[1..], x, c);
    }
  }

  /** Appending a separator and a separator-free piece adds one piece. */
  lemma SplitSnoc(s: string, x: string, c: char)
    requires c !in x
    ensures Split(s + [c] + x, c) == Split(s, c) + [x]
  {
    var ps := Split(s, c);
    JoinSplit(s, c);
    JoinSnoc(ps, x, c);
    SplitJoinPrefix(ps, x, c);
  }

  // ---------------------------------------------------------------------
  // Decimal numbers

  predicate IsDigit(ch: char) {
    '0' <= ch <= '9'
  }

  predicate AllDigits(s: string) {
    forall i :: 0 <= i < |s| ==> IsDigit(s[i])
  }

  function DigitChar(d: nat): (ch: char)
    requires d < 10
    ensures IsDigit(ch)
  {
    ('0' as int + d) as char
  }

  /** Decimal rendering of a natural number, as Java's `Integer.toString`. */
  function NatToString(n: nat): (s: string)
    ensures |s| >= 1 && AllDigits(s)
    ensures |s| > 1 ==> s[0] != '0'
    decreases n
  {
    if n < 10 then [DigitChar(n)]
    else NatToString(n / 10) + [DigitChar(n % 10)]
  }

  /** Decimal rendering of an integer, with a leading '-' when negative. */
  function IntToString(i: int): string
  {
    if i < 0 then "-" + NatToString(-i) else NatToString(i)
  }

  /** A rendered integer holds only digits and the minus sign. */
  lemma IntToStringChars(i: int, c: char)
    requires !IsDigit(c) && c != '-'
    ensures c !in IntToString(i)
  {
    var s := IntToString(i);
    if i < 0 {
      assert s == "-" + NatToString(-i);
      assert forall k :: 1 <= k < |s| ==> s[k] == NatToString(-i)[k - 1];
    }
  }

  /** The value of a string of decimal digits. */
  function DigitsValue(s: string): nat
    requires AllDigits(s)
  {
    if |s| == 0 then 0
    else DigitsValue(s[..|s| - 1]) * 10 + (s[|s| - 1] as int - '0' as int)
  }

  lemma {:induction false} DigitsOfNat(n: nat)
    ensures DigitsValue(NatToString(n)) == n
    decreases n
  {
    if n >= 10 {
      var s := NatToString(n);
      DigitsOfNat(n / 10);
      assert s[..|s| - 1] == NatToString(n / 10);
    }
  }

  /** Whether `Sql.parseId` turns an id into an `Integer`: a non-empty run of
      decimal digits whose value fits in a 32-bit int. */
  predicate IsSqlIntegerId(s: string) {
    |s| > 0 && AllDigits(s) && DigitsValue(s) <= IntMax
  }

  /** Java's `Integer.valueOf(String)`: an optional sign followed by
      decimal digits whose value is a 32-bit int; `None` stands for the
      `NumberFormatException`. */
  function ParseJavaInt(s: string): (r: Option<int>)
    ensures r.Some? ==> IntMin <= r.value <= IntMax
  {
    if |s| >= 1 && (s[0] == '-' || s[0] == '+') then
      var digits := s[1..];
      if |digits| == 0 || !AllDigits(digits) then None
      else
        var v: int := if s[0] == '-' then 0 - (DigitsValue(digits) as int) else DigitsValue(digits);
        if IntMin <= v <= IntMax then Some(v) else None
    else if |s| == 0 || !AllDigits(s) then None
    else if DigitsValue(s) <= IntMax then Some(DigitsValue(s))
    else None
  }

  /** Every 32-bit int survives rendering and parsing. */
  lemma IntRoundTrip(i: int)
    requires IntMin <= i <= IntMax
    ensures ParseJavaInt(IntToString(i)) == Some(i)
  {
    if i < 0 {
      NegativeRoundTrip(i);
    } else {
      NonNegativeRoundTrip(i);
    }
  }

  lemma NonNegativeRoundTrip(n: nat)
    requires n <= IntMax
    ensures ParseJavaInt(NatToString(n)) == Some(n)
  {
    var s := NatToString(n);
    DigitsOfNat(n);
    assert IsDigit(s[0]);
  }

  lemma NegativeRoundTrip(i: int)
    requires IntMin <= i < 0
    ensures ParseJavaInt("-" + NatToString(-i)) == Some(i)
  {
    var d := NatToString(-i);
    var s := "-" + d;
    DigitsOfNat(-i);
    assert s[0] == '-' && s[1..] == d;
  }

  // ---------------------------------------------------------------------
  // Trimming, blankness, character removal

  /** Java's `String.trim` removes every leading and trailing char <= ' '. */
  predicate IsBlank(s: string) {
    forall i :: 0 <= i < |s| ==> s[i] <= ' '
  }

  function TrimStart(s: string): (r: string)
    ensures |r| <= |s| && r == s[|s| - |r|..]
    ensures |r| > 0 ==> r[0] > ' '
    ensures IsBlank(s[..|s| - |r|])
  {
    if |s| == 0 then s
    else if s[0] <= ' ' then
      var r := TrimStart(s[1..]);
      assert s[..|s| - |r|] == [s[0]] + s[1..][..|s| - 1 - |r|];
      r
    else s
  }

  function TrimEnd(s: string): (r: string)
    ensures |r| <= |s| && r == s[..|r|]
    ensures |r| > 0 ==> r[|r| - 1] > ' '
    ensures IsBlank(s[|r|..])
  {
    if |s| == 0 then s
    else if s[|s| - 1] <= ' ' then
      var r := TrimEnd(s[..|s| - 1]);
      assert s[|r|..] == s[..|s| - 1][|r|..] + [s[|s| - 1]];
      r
    else s
  }

  function Trim(s: string): string {
    TrimEnd(TrimStart(s))
  }

  /** `s.trim().isEmpty()` holds exactly for blank strings. */
  lemma TrimEmptyIffBlank(s: string)
    ensures Trim(s) == "" <==> IsBlank(s)
  {
    var t := TrimStart(s);
    if Trim(s) == "" {
      assert IsBlank(t[0..]);
      assert s == s[..|s| - |t|] + t;
    } else {
      var k := |s| - |t|;
      assert t[0] > ' ';
      assert s[k] == t[0];
    }
  }

  /** `s.replace(c, "")`: every occurrence of `c` removed. */
  function RemoveChar(s: string, c: char): (r: string)
    ensures c !in r
    ensures |r| <= |s|
    ensures c !in s ==> r == s
  {
    if |s| == 0 then s
    else (if s[0] == c then "" else [s[0]]) + RemoveChar(s[1..], c)
  }

  /** Every other character is kept, in order. */
  lemma {:induction false} RemoveCharKeeps(s: string, c: char, d: char)
    requires d != c
    ensures multiset(RemoveChar(s, c))[d] == multiset(s)[d]
  {
    if |s| > 0 {
      RemoveCharKeeps(s[1..], c, d);
      var head: string := if s[0] == c then "" else [s[0]];
      assert RemoveChar(s, c) == head + RemoveChar(s[1..], c);
      assert multiset(RemoveChar(s, c)) == multiset(head) + multiset(RemoveChar(s[1..], c));
      assert s == [s[0]] + s[1..];
      assert multiset(s) == multiset([s[0]]) + multiset(s[1..]);
    }
  }
}
