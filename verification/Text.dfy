/**
 Strings as the program holds them: one `char` per byte.  Decimal numbers, the byte
 order keys are sorted in, and the white space `strings.TrimSpace` removes.
 */
module Text {

  /******* Decimal numbers *******/

  function Digit(d: nat): char
    requires d < 10
  {
    '0' + d as char
  }

  /** `strconv.Itoa` of a number that is not negative. */
  function Decimal(n: nat): (r: string)
    ensures r != []
  {
    if n < 10 then [Digit(n)] else Decimal(n / 10) + [Digit(n % 10)]
  }

  lemma {:induction false} DecimalDigits(n: nat)
    ensures forall i :: 0 <= i < |Decimal(n)| ==> '0' <= Decimal(n)[i] <= '9'
  {
    if n >= 10 {
      DecimalDigits(n / 10);
    }
  }

  /** `strconv.Itoa`. */
  function Itoa(n: int): (r: string)
    ensures r != []
  {
    if n < 0 then "-" + Decimal(-n) else Decimal(n)
  }

  lemma ItoaChars(n: int)
    ensures forall i :: 0 <= i < |Itoa(n)| ==> Itoa(n)[i] == '-' || '0' <= Itoa(n)[i] <= '9'
    ensures Itoa(n)[0] == '-' <==> n < 0
  {
    DecimalDigits(if n < 0 then -n else n);
  }

  /** The number a text of digits stands for. */
  function Value(s: string): nat {
    if s == "" then 0
    else
      var c := s[|s| - 1];
      10 * Value(s[..|s| - 1]) + if '0' <= c <= '9' then c as int - '0' as int else 0
  }

  /** `s` is the decimal text of `n`: digits alone, without a leading zero. */
  ghost predicate DigitsOf(s: string, n: nat) {
    && s != "" && (forall i :: 0 <= i < |s| ==> '0' <= s[i] <= '9') && Value(s) == n
    && (|s| > 1 ==> s[0] != '0')
  }

  /** The same with a sign before what is less than zero. */
  ghost predicate Numeral(s: string, n: int) {
    if n < 0 then s != "" && s[0] == '-' && DigitsOf(s[1..], -n) else DigitsOf(s, n)
  }

  lemma {:induction false} DecimalReads(n: nat)
    ensures DigitsOf(Decimal(n), n) && (n > 0 ==> Decimal(n)[0] != '0')
  {
    if n >= 10 {
      DecimalReads(n / 10);
      var front := Decimal(n / 10);
      assert Decimal(n)[..|front|] == front;
      assert Decimal(n)[0] == front[0];
    }
  }

  /** What `strconv.Itoa` writes reads as the number it was given. */
  lemma ItoaReads(n: int)
    ensures Numeral(Itoa(n), n)
  {
    if n < 0 {
      DecimalReads(-n);
      assert Itoa(n)[1..] == Decimal(-n);
    } else {
      DecimalReads(n);
    }
  }

  function Width(n: nat): (r: nat)
    ensures r == |Decimal(n)| && r >= 1
  {
    if n < 10 then 1 else 1 + Width(n / 10)
  }

  lemma {:induction false} WidthMonotone(m: nat, n: nat)
    requires m <= n
    ensures Width(m) <= Width(n)
  {
    if m >= 10 {
      WidthMonotone(m / 10, n / 10);
    }
  }

  /** Numbers within a factor of ten differ in width by one at most. */
  lemma {:induction false} WidthFactor(m: nat, n: nat)
    requires n <= 10 * m
    ensures Width(n) <= Width(m) + 1
  {
    if n >= 10 {
      WidthMonotone(n / 10, m);
    }
  }

  lemma {:induction false} DecimalInjective(m: nat, n: nat)
    requires Decimal(m) == Decimal(n)
    ensures m == n
  {
    var a, b := Decimal(m), Decimal(n);
    if m < 10 || n < 10 {
      assert |a| == Width(m) && |b| == Width(n);
    } else {
      assert a[..|a| - 1] == Decimal(m / 10) && b[..|b| - 1] == Decimal(n / 10);
      DecimalInjective(m / 10, n / 10);
      assert a[|a| - 1] == Digit(m % 10) && b[|b| - 1] == Digit(n % 10);
    }
  }

  lemma ItoaInjective(m: int, n: int)
    requires Itoa(m) == Itoa(n)
    ensures m == n
  {
    var a, b := Itoa(m), Itoa(n);
    ItoaChars(m);
    ItoaChars(n);
    if m < 0 && n < 0 {
      assert a[1..] == Decimal(-m) && b[1..] == Decimal(-n);
      DecimalInjective(-m, -n);
    } else if m >= 0 && n >= 0 {
      DecimalInjective(m, n);
    }
  }

  /******* Order *******/

  /** Byte order of strings, the order `sort.Strings` gives. */
  predicate Below(a: string, b: string) {
    a == "" || (b != "" && (a[0] < b[0] || (a[0] == b[0] && Below(a[1..], b[1..]))))
  }

  lemma {:induction false} BelowTotal(a: string, b: string)
    ensures Below(a, b) || Below(b, a)
    ensures Below(a, b) && Below(b, a) ==> a == b
  {
    if a != "" && b != "" && a[0] == b[0] {
      BelowTotal(a[1..], b[1..]);
      assert a == [a[0]] + a[1..] && b == [b[0]] + b[1..];
    }
  }

  lemma {:induction false} BelowTransitive(a: string, b: string, c: string)
    requires Below(a, b) && Below(b, c)
    ensures Below(a, c)
  {
    if a != "" && a[0] == b[0] && b[0] == c[0] {
      BelowTransitive(a[1..], b[1..], c[1..]);
    }
  }

  /** One is a prefix of the other, or at the first place where they differ its byte is the smaller. */
  lemma {:induction false} BelowIs(a: string, b: string)
    ensures Below(a, b) <==> a <= b || exists i :: FirstDifference(a, b, i) && a[i] < b[i]
  {
    if a != "" && b != "" {
      if a[0] == b[0] {
        BelowIs(a[1..], b[1..]);
        assert a <= b <==> a[1..] <= b[1..] by {
          assert a == [a[0]] + a[1..] && b == [b[0]] + b[1..];
        }
        if exists i :: FirstDifference(a[1..], b[1..], i) && a[1..][i] < b[1..][i] {
          var i :| FirstDifference(a[1..], b[1..], i) && a[1..][i] < b[1..][i];
          assert forall k :: 0 < k <= i ==> a[k] == a[1..][k - 1] && b[k] == b[1..][k - 1];
          assert FirstDifference(a, b, i + 1);
        }
        if exists i :: FirstDifference(a, b, i) && a[i] < b[i] {
          var i :| FirstDifference(a, b, i) && a[i] < b[i];
          assert i > 0;
          assert FirstDifference(a[1..], b[1..], i - 1);
        }
      } else {
        assert FirstDifference(a, b, 0);
      }
    }
  }

  ghost predicate FirstDifference(a: string, b: string, i: int) {
    0 <= i < |a| && i < |b| && a[i] != b[i] && forall k :: 0 <= k < i ==> a[k] == b[k]
  }

  predicate IsLeast(s: set<string>, k: string) {
    k in s && forall x :: x in s ==> Below(k, x)
  }

  lemma {:induction false} HasLeast(s: set<string>)
    requires s != {}
    ensures exists k :: IsLeast(s, k)
  {
    var x :| x in s;
    BelowTotal(x, x);
    if s == {x} {
      assert IsLeast(s, x);
    } else {
      HasLeast(s - {x});
      var k :| IsLeast(s - {x}, k);
      BelowTotal(x, k);
      var l := if Below(x, k) then x else k;
      forall y | y in s ensures Below(l, y) {
        if y != x && l == x {
          BelowTransitive(x, k, y);
        }
      }
      assert IsLeast(s, l);
    }
  }

  function Least(s: set<string>): (k: string)
    requires s != {}
    ensures IsLeast(s, k)
  {
    HasLeast(s);
    assert forall a, b :: IsLeast(s, a) && IsLeast(s, b) ==> a == b by {
      forall a, b | IsLeast(s, a) && IsLeast(s, b) ensures a == b { BelowTotal(a, b); }
    }
    var k :| IsLeast(s, k);
    k
  }

  /** The keys of a map in byte order. */
  function Sorted(s: set<string>): (r: seq<string>)
    ensures forall k :: k in r <==> k in s
    ensures forall i, j :: 0 <= i < j < |r| ==> r[i] != r[j] && Below(r[i], r[j])
  {
    if s == {} then [] else
      var k := Least(s);
      [k] + Sorted(s - {k})
  }

  /******* White space *******/

  /** The UTF-8 forms of the white space `unicode.IsSpace` knows. */
  predicate IsSpace(s: string) {
    match |s|
    case 1 => s[0] == ' ' || '\t' <= s[0] <= '\r'
    case 2 => s[0] == '\U{C2}' && (s[1] == '\U{85}' || s[1] == '\U{A0}')
    case 3 =>
      || (s[0] == '\U{E1}' && s[1] == '\U{9A}' && s[2] == '\U{80}')
      || (s[0] == '\U{E2}' && s[1] == '\U{80}' && '\U{80}' <= s[2] <= '\U{8A}')
      || (s[0] == '\U{E2}' && s[1] == '\U{80}' && (s[2] == '\U{A8}' || s[2] == '\U{A9}' || s[2] == '\U{AF}'))
      || (s[0] == '\U{E2}' && s[1] == '\U{81}' && s[2] == '\U{9F}')
      || (s[0] == '\U{E3}' && s[1] == '\U{80}' && s[2] == '\U{80}')
    case _ => false
  }

  /** The UTF-8 form of a code point below U+10000. */
  function Utf8(p: nat): string
    requires p < 0x10000
  {
    if p < 0x80 then [p as char]
    else if p < 0x800 then [(0xC0 + p / 64) as char, (0x80 + p % 64) as char]
    else [(0xE0 + p / 4096) as char, (0x80 + p / 64 % 64) as char, (0x80 + p % 64) as char]
  }

  /** The code points that are white space. */
  predicate SpacePoint(p: nat) {
    || 9 <= p <= 13 || p == 0x20 || p == 0x85 || p == 0xA0 || p == 0x1680 || 0x2000 <= p <= 0x200A
    || p == 0x2028 || p == 0x2029 || p == 0x202F || p == 0x205F || p == 0x3000
  }

  /** `unicode.IsSpace`. */
  lemma IsSpaceIs(p: nat)
    requires p < 0x10000
    ensures IsSpace(Utf8(p)) <==> SpacePoint(p)
  {
  }

  /** The length of the white space character `s` starts with, 0 for none. */
  function SpaceFirst(s: string): (n: nat)
    ensures n <= |s| && (n > 0 ==> IsSpace(s[..n]))
  {
    if |s| >= 1 && IsSpace(s[..1]) then 1
    else if |s| >= 2 && IsSpace(s[..2]) then 2
    else if |s| >= 3 && IsSpace(s[..3]) then 3
    else 0
  }

  /** The length of the white space character `s` ends with, 0 for none. */
  function SpaceLast(s: string): (n: nat)
    ensures n <= |s| && (n > 0 ==> IsSpace(s[|s| - n..]))
  {
    if |s| >= 1 && IsSpace(s[|s| - 1..]) then 1
    else if |s| >= 2 && IsSpace(s[|s| - 2..]) then 2
    else if |s| >= 3 && IsSpace(s[|s| - 3..]) then 3
    else 0
  }

  function TrimLeft(s: string): string {
    if SpaceFirst(s) == 0 then s else TrimLeft(s[SpaceFirst(s)..])
  }

  function TrimRight(s: string): string {
    if SpaceLast(s) == 0 then s else TrimRight(s[..|s| - SpaceLast(s)])
  }

  /** `strings.TrimSpace`. */
  function Trim(s: string): string {
    TrimRight(TrimLeft(s))
  }

  lemma {:induction false} TrimLeftShorter(s: string)
    ensures |TrimLeft(s)| <= |s|
    ensures |TrimLeft(s)| == |s| ==> SpaceFirst(s) == 0
  {
    if SpaceFirst(s) != 0 {
      TrimLeftShorter(s[SpaceFirst(s)..]);
    }
  }

  lemma {:induction false} TrimRightShorter(s: string)
    ensures |TrimRight(s)| <= |s|
    ensures |TrimRight(s)| == |s| ==> SpaceLast(s) == 0
  {
    if SpaceLast(s) != 0 {
      TrimRightShorter(s[..|s| - SpaceLast(s)]);
    }
  }

  /** What trimming leaves alone has no white space at either end, and the other way round. */
  lemma TrimmedEnds(s: string)
    ensures Trim(s) == s <==> SpaceFirst(s) == 0 && SpaceLast(s) == 0
  {
    TrimLeftShorter(s);
    TrimRightShorter(TrimLeft(s));
  }

  /** Text that begins and ends with printable ASCII is trimmed. */
  lemma GraphicIsTrimmed(s: string)
    requires s != "" && ' ' < s[0] < '\U{7F}' && ' ' < s[|s| - 1] < '\U{7F}'
    ensures Trim(s) == s
  {
    if SpaceFirst(s) > 0 {
      SpaceEnds(s[..SpaceFirst(s)]);
      assert false;
    } else if SpaceLast(s) > 0 {
      SpaceEnds(s[|s| - SpaceLast(s)..]);
      assert false;
    }
    TrimmedEnds(s);
  }

  lemma SpaceEnds(s: string)
    requires IsSpace(s)
    ensures s != "" && !(' ' < s[0] < '\U{7F}') && !(' ' < s[|s| - 1] < '\U{7F}')
  {
  }

  lemma TrimSubset(s: string, c: char)
    requires c !in s
    ensures c !in Trim(s)
  {
    TrimLeftEnds(s);
    TrimRightEnds(TrimLeft(s));
  }

  lemma FirstOfPrefix(t: string, l: string)
    requires t <= l && SpaceFirst(l) == 0
    ensures SpaceFirst(t) == 0
  {
    assert forall n :: 0 <= n <= |t| ==> t[..n] == l[..n];
  }

  /** Trimming twice trims once. */
  lemma TrimIsTrimmed(s: string)
    ensures Trim(Trim(s)) == Trim(s)
  {
    var l := TrimLeft(s);
    TrimLeftEnds(s);
    TrimRightEnds(l);
    var t := TrimRight(l);
    assert SpaceFirst(t) == 0 by {
      FirstOfPrefix(t, l);
    }
    TrimmedEnds(t);
  }

  lemma {:induction false} TrimLeftEnds(s: string)
    ensures SpaceFirst(TrimLeft(s)) == 0
    ensures forall c :: c in TrimLeft(s) ==> c in s
  {
    if SpaceFirst(s) != 0 {
      TrimLeftEnds(s[SpaceFirst(s)..]);
    }
  }

  lemma {:induction false} TrimRightEnds(s: string)
    ensures SpaceLast(TrimRight(s)) == 0
    ensures TrimRight(s) <= s
  {
    if SpaceLast(s) != 0 {
      TrimRightEnds(s[..|s| - SpaceLast(s)]);
    }
  }

  /** The texts one after another. */
  function Flat(xs: seq<string>): string {
    if xs == [] then "" else xs[0] + Flat(xs[1..])
  }

  lemma FlatFirst(x: string, xs: seq<string>)
    ensures Flat([x] + xs) == x + Flat(xs)
  {
    assert ([x] + xs)[1..] == xs;
  }

  lemma {:induction false} FlatLast(xs: seq<string>, x: string)
    ensures Flat(xs + [x]) == Flat(xs) + x
  {
    if xs == [] {
      assert xs + [x] == [x] + [];
      FlatFirst(x, []);
    } else {
      FlatLast(xs[1..], x);
      assert xs + [x] == [xs[0]] + (xs[1..] + [x]);
      FlatFirst(xs[0], xs[1..] + [x]);
    }
  }

  lemma Assoc(a: string, b: string, c: string)
    ensures a + (b + c) == a + b + c
  {
  }

  predicate AllSpaces(xs: seq<string>) {
    forall i :: 0 <= i < |xs| ==> IsSpace(xs[i])
  }

  lemma TrimLeftOnce(s: string) returns (x: string, r: string)
    requires SpaceFirst(s) != 0
    ensures IsSpace(x) && s == x + r && |r| < |s| && TrimLeft(s) == TrimLeft(r)
  {
    x, r := s[..SpaceFirst(s)], s[SpaceFirst(s)..];
  }

  lemma TrimRightOnce(s: string) returns (r: string, x: string)
    requires SpaceLast(s) != 0
    ensures IsSpace(x) && s == r + x && |r| < |s| && TrimRight(s) == TrimRight(r)
  {
    r, x := s[..|s| - SpaceLast(s)], s[|s| - SpaceLast(s)..];
  }

  lemma {:induction false} TrimLeftTakes(s: string, t: string) returns (xs: seq<string>)
    requires t == TrimLeft(s)
    ensures AllSpaces(xs) && s == Flat(xs) + t
    decreases |s|
  {
    if SpaceFirst(s) == 0 {
      xs := [];
      assert t == s;
    } else {
      var x, r := TrimLeftOnce(s);
      var more := TrimLeftTakes(r, t);
      FlatFirst(x, more);
      Assoc(x, Flat(more), t);
      xs := [x] + more;
    }
  }

  lemma {:induction false} TrimRightTakes(s: string, t: string) returns (xs: seq<string>)
    requires t == TrimRight(s)
    ensures AllSpaces(xs) && s == t + Flat(xs)
    decreases |s|
  {
    if SpaceLast(s) == 0 {
      xs := [];
      assert t == s;
    } else {
      var r, x := TrimRightOnce(s);
      var more := TrimRightTakes(r, t);
      FlatLast(more, x);
      Assoc(t, Flat(more), x);
      xs := more + [x];
    }
  }

  /** `strings.TrimSpace`: what is left when the white space at both ends, all of it, is taken off. */
  lemma TrimIs(s: string) returns (before: seq<string>, behind: seq<string>)
    ensures s == Flat(before) + Trim(s) + Flat(behind) && AllSpaces(before) && AllSpaces(behind)
    ensures forall k :: 0 <= k <= |Trim(s)| ==> !IsSpace(Trim(s)[..k]) && !IsSpace(Trim(s)[k..])
  {
    var l := TrimLeft(s);
    before := TrimLeftTakes(s, l);
    behind := TrimRightTakes(l, Trim(s));
    Assoc(Flat(before), Trim(s), Flat(behind));
    assert SpaceFirst(Trim(s)) == 0 && SpaceLast(Trim(s)) == 0 by {
      TrimIsTrimmed(s);
      TrimmedEnds(Trim(s));
    }
    NoSpaceAtEnds(Trim(s));
  }

  lemma NoSpaceAtEnds(t: string)
    requires SpaceFirst(t) == 0 && SpaceLast(t) == 0
    ensures forall k :: 0 <= k <= |t| ==> !IsSpace(t[..k]) && !IsSpace(t[k..])
  {
    forall k | 0 <= k <= |t| ensures !IsSpace(t[..k]) && !IsSpace(t[k..]) {
      assert t[..0] == "" && t[|t|..] == "";
      assert k == |t| - 1 ==> t[k..] == t[|t| - 1..];
      assert k == |t| - 2 ==> t[k..] == t[|t| - 2..];
      assert k == |t| - 3 ==> t[k..] == t[|t| - 3..];
    }
  }

  /** A space put before trimmed text is what trimming takes off again. */
  lemma TrimSpaceBefore(s: string)
    requires Trim(s) == s
    ensures Trim(" " + s) == s
  {
    TrimmedEnds(s);
    assert (" " + s)[..1] == " ";
    assert SpaceFirst(" " + s) == 1;
    assert (" " + s)[1..] == s;
    assert TrimLeft(" " + s) == TrimLeft(s) == s;
  }

  /******* Searching *******/

  predicate OccursAt(s: string, sub: string, i: int) {
    0 <= i <= |s| - |sub| && s[i..i + |sub|] == sub
  }

  /** `strings.Index`: the first place, or -1. */
  function Index(s: string, sub: string): (i: int)
    ensures i == -1 || OccursAt(s, sub, i)
    ensures forall j :: OccursAt(s, sub, j) ==> 0 <= i <= j
  {
    IndexFrom(s, sub, 0)
  }

  function IndexFrom(s: string, sub: string, from: nat): (i: int)
    requires from <= |s| + 1
    ensures i == -1 || (from <= i && OccursAt(s, sub, i))
    ensures forall j :: from <= j && OccursAt(s, sub, j) ==> 0 <= i <= j
    decreases |s| + 1 - from
  {
    if from + |sub| > |s| then -1
    else if OccursAt(s, sub, from) then from
    else IndexFrom(s, sub, from + 1)
  }

  /******* Separators *******/

  /** Text before the first `c` and text after it are both determined by the whole. */
  lemma {:induction false} SplitUnique(a: string, x: string, b: string, y: string, c: char)
    requires c !in a && c !in b && a + [c] + x == b + [c] + y
    ensures a == b && x == y
  {
    var s := a + [c] + x;
    assert forall i :: 0 <= i < |a| ==> s[i] == a[i] && s[i] != c;
    assert forall i :: 0 <= i < |b| ==> s[i] == b[i] && s[i] != c;
    assert s[|a|] == c && s[|b|] == c;
    assert a == s[..|a|] && b == s[..|a|];
    assert x == s[|a| + 1..] && y == s[|a| + 1..];
  }
}
