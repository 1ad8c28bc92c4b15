/**
 * The JavaScript string and number built-ins the route handler relies on,
 * restricted to the inputs the handler can give them: `String.prototype.split`
 * and `replaceAll` with a one-character pattern, `startsWith`, the decimal
 * value of a digit string (`BigInt(s)`, `parseInt(s)`), the decimal rendering
 * of a non-negative integer inside a template string, and `>>` on a BigInt.
 */
module JsText {

  predicate IsDigit(c: char) {
    '0' <= c <= '9'
  }

  /** Every character is an ASCII decimal digit (the regex class `[0-9]`). */
  predicate IsDigits(s: string) {
    forall i :: 0 <= i < |s| ==> IsDigit(s[i])
  }

  /** `s.startsWith(prefix)`. */
  predicate StartsWith(s: string, prefix: string) {
    |prefix| <= |s| && s[..|prefix|] == prefix
  }

  // ---------------------------------------------------------------- split / join

  /**
   * `s.split(sep)` for a one-character separator: the maximal pieces between
   * separators, in order, empty pieces included; `"".split(sep)` is `[""]`.
   */
  function Split(s: string, sep: char): (parts: seq<string>)
    ensures |parts| >= 1
    ensures forall i :: 0 <= i < |parts| ==> sep !in parts[i]
  {
    if s == [] then [""]
    else
      var rest := Split(s[1..], sep);
      if s[0] == sep then [""] + rest
      else [[s[0]] + rest[0]] + rest[1..]
  }

  /** `parts.join(sep)`: the inverse of Split. */
  function Join(parts: seq<string>, sep: char): string
    requires |parts| >= 1
  {
    if |parts| == 1 then parts[0] else parts[0] + [sep] + Join(parts[1..], sep)
  }

  /** Splitting loses nothing: joining the pieces with the separator gives the string back. */
  lemma {:induction false} JoinSplit(s: string, sep: char)
    ensures Join(Split(s, sep), sep) == s
  {
    if s != [] {
      JoinSplit(s[1..], sep);
      var rest := Split(s[1..], sep);
      if s[0] == sep {
        assert Split(s, sep) == [""] + rest;
        assert ([""] + rest)[1..] == rest;
      } else {
        var parts := Split(s, sep);
        assert parts == [[s[0]] + rest[0]] + rest[1..];
        if |rest| == 1 {
          assert parts == [[s[0]] + rest[0]];
        } else {
          assert parts[1..] == rest[1..];
          assert Join(rest, sep) == rest[0] + [sep] + Join(rest[1..], sep);
          assert s == [s[0]] + s[1..];
        }
      }
    }
  }

  /** A string without the separator is one piece. */
  lemma {:induction false} SplitWithoutSeparator(s: string, sep: char)
    requires sep !in s
    ensures Split(s, sep) == [s]
  {
    if s != [] {
      SplitWithoutSeparator(s[1..], sep);
      assert s == [s[0]] + s[1..];
    }
  }

  /** A string with exactly one separator, between `x` and `y`, is the two pieces `x` and `y`. */
  lemma {:induction false} SplitOnce(x: string, y: string, sep: char)
    requires sep !in x && sep !in y
    ensures Split(x + [sep] + y, sep) == [x, y]
  {
    if x == [] {
      assert x + [sep] + y == [sep] + y;
      assert ([sep] + y)[1..] == y;
      SplitWithoutSeparator(y, sep);
    } else {
      SplitOnce(x[1..], y, sep);
      assert (x + [sep] + y)[1..] == x[1..] + [sep] + y;
      assert x == [x[0]] + x[1..];
    }
  }

  /** Splitting `x + [sep] + y` when `x` holds no separator: `x` is the first piece, the rest is y's. */
  lemma {:induction false} SplitFirst(x: string, y: string, sep: char)
    requires sep !in x
    ensures Split(x + [sep] + y, sep) == [x] + Split(y, sep)
  {
    if x == [] {
      assert x + [sep] + y == [sep] + y;
      assert ([sep] + y)[1..] == y;
    } else {
      SplitFirst(x[1..], y, sep);
      assert (x + [sep] + y)[1..] == x[1..] + [sep] + y;
      assert x == [x[0]] + x[1..];
    }
  }

  /** A separator-led string of three separator-free pieces splits into an empty piece and the three. */
  lemma SplitThreeLed(a: string, b: string, c: string, sep: char)
    requires sep !in a && sep !in b && sep !in c
    ensures Split([sep] + a + [sep] + b + [sep] + c, sep) == ["", a, b, c]
  {
    var s := [sep] + a + [sep] + b + [sep] + c;
    assert s == [] + [sep] + (a + [sep] + (b + [sep] + c));
    SplitOnce(b, c, sep);
    SplitFirst(a, b + [sep] + c, sep);
    SplitFirst([], a + [sep] + (b + [sep] + c), sep);
  }

  /** The last piece is what follows the last separator. */
  lemma {:induction false} SplitLast(x: string, y: string, sep: char)
    requires sep !in y
    ensures var parts := Split(x + [sep] + y, sep); |parts| >= 2 && parts[|parts| - 1] == y
  {
    if x == [] {
      assert x + [sep] + y == [sep] + y;
      assert ([sep] + y)[1..] == y;
      SplitWithoutSeparator(y, sep);
    } else {
      SplitLast(x[1..], y, sep);
      assert (x + [sep] + y)[1..] == x[1..] + [sep] + y;
    }
  }

  // ---------------------------------------------------------------- replaceAll

  /**
   * `s.replaceAll(from, to)` for one-character `from` and `to`: every
   * occurrence of `from` becomes `to`, every other character stays.
   */
  function ReplaceAll(s: string, from: char, to: char): (r: string)
    ensures |r| == |s|
    ensures forall i :: 0 <= i < |s| ==> r[i] == if s[i] == from then to else s[i]
  {
    if s == [] then []
    else [if s[0] == from then to else s[0]] + ReplaceAll(s[1..], from, to)
  }

  /** A string without `from` is left as it is. */
  lemma ReplaceAllWithout(s: string, from: char, to: char)
    requires from !in s
    ensures ReplaceAll(s, from, to) == s
  {
    var r := ReplaceAll(s, from, to);
    assert forall i :: 0 <= i < |s| ==> r[i] == s[i];
  }

  // ---------------------------------------------------------------- decimal numbers

  function DigitValue(c: char): (d: nat)
    requires IsDigit(c)
    ensures d < 10
  {
    (c as int - '0' as int) as nat
  }

  function DigitChar(d: nat): (c: char)
    requires d < 10
    ensures IsDigit(c) && DigitValue(c) == d
  {
    ('0' as int + d) as char
  }

  function Pow10(k: nat): (p: nat)
    ensures p >= 1
  {
    if k == 0 then 1 else 10 * Pow10(k - 1)
  }

  function Pow2(k: nat): (p: nat)
    ensures p >= 1
  {
    if k == 0 then 1 else 2 * Pow2(k - 1)
  }

  /**
   * The value of a digit string read in base 10, most significant digit
   * first; leading zeros add nothing. This is `BigInt(s)`, and `parseInt(s)`
   * while the value is exact as a double.
   */
  function DecimalValue(s: string): (v: nat)
    requires IsDigits(s)
    ensures v < Pow10(|s|)
  {
    if s == [] then 0
    else DecimalValue(s[..|s| - 1]) * 10 + DigitValue(s[|s| - 1])
  }

  /**
   * The decimal rendering of `n` that a template string produces: digits only,
   * no leading zero unless `n` is zero.
   */
  function NatToString(n: nat): (s: string)
    ensures |s| >= 1 && IsDigits(s)
    ensures s[0] == '0' ==> n == 0 && s == "0"
  {
    if n < 10 then [DigitChar(n)] else NatToString(n / 10) + [DigitChar(n % 10)]
  }

  /** Rendering a number and reading it back gives the number. */
  lemma {:induction false} DecimalValueOfNatToString(n: nat)
    ensures DecimalValue(NatToString(n)) == n
  {
    if n >= 10 {
      DecimalValueOfNatToString(n / 10);
      var s := NatToString(n);
      assert s[..|s| - 1] == NatToString(n / 10);
    }
  }

  /** A one-digit number renders as that one digit. */
  lemma NatToStringSmall(n: nat)
    requires n < 10
    ensures NatToString(n) == [DigitChar(n)]
  {
  }

  // ---------------------------------------------------------------- BigInt shift

  /** `n >> k` on a non-negative BigInt: drop the k lowest bits, one at a time. */
  function ShiftRight(n: nat, k: nat): nat {
    if k == 0 then n else ShiftRight(n / 2, k - 1)
  }

  lemma MulMonotone(d: nat, x: nat, y: nat)
    requires x <= y
    ensures d * x <= d * y
  {
    assert d * y == d * x + d * (y - x);
  }

  /** A multiple of d strictly between -d and d is zero. */
  lemma MultipleInsideIsZero(d: int, t: int)
    requires d >= 1 && -d < d * t < d
    ensures t == 0
  {
  }

  /** Euclidean division is determined by its quotient-remainder decomposition. */
  lemma DivisionUnique(n: nat, d: nat, q: nat, r: nat)
    requires d >= 1 && r < d && n == d * q + r
    ensures n / d == q
  {
    var q', r' := n / d, n % d;
    assert d * q' + r' == d * q + r;
    assert d * (q' - q) == d * q' - d * q;
    MultipleInsideIsZero(d, q' - q);
  }

  lemma MulAssociates(a: nat, b: nat, c: nat)
    ensures a * (b * c) == (a * b) * c
  {
  }

  lemma MulDistributes(a: nat, x: nat, y: nat)
    ensures a * (x + y) == a * x + a * y
  {
  }

  lemma DivDiv(n: nat, a: nat, b: nat)
    requires a >= 1 && b >= 1
    ensures n / a / b == n / (a * b)
  {
    var q, r := n / a, n % a;
    var q2, r2 := q / b, q % b;
    assert n == a * q + r;
    assert q == b * q2 + r2;
    MulDistributes(a, b * q2, r2);
    MulAssociates(a, b, q2);
    assert a * q == (a * b) * q2 + a * r2;
    MulMonotone(a, r2, b - 1);
    MulDistributes(a, b - 1, 1);
    assert a * r2 + r < a * b;
    DivisionUnique(n, a * b, q2, a * r2 + r);
  }

  /** Shifting a BigInt right by k bits is exact floor division by 2^k, for any size. */
  lemma {:induction false} ShiftRightIsDivision(n: nat, k: nat)
    ensures ShiftRight(n, k) == n / Pow2(k)
  {
    if k > 0 {
      ShiftRightIsDivision(n / 2, k - 1);
      DivDiv(n, 2, Pow2(k - 1));
    }
  }
}
