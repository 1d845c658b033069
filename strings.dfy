/**
 * Text building: decimal rendering of integers, as Kotlin's `Int.toString()` does for
 * non-negative values, and the concatenation a `StringBuilder` accumulates in a loop.
 */
module Strings {

  function Digit(d: nat): (c: char)
    requires d < 10
    ensures '0' <= c <= '9'
  {
    "0123456789"[d]
  }

  /** The decimal digits of `n`, most significant first, without leading zeros. */
  function NatToString(n: nat): (s: string)
    ensures 1 <= |s|
    ensures forall i :: 0 <= i < |s| ==> '0' <= s[i] <= '9'
    ensures n < 10 <==> |s| == 1
    decreases n
  {
    if n < 10 then [Digit(n)] else NatToString(n / 10) + [Digit(n % 10)]
  }

  lemma DigitInjective(a: nat, b: nat)
    requires a < 10 && b < 10 && Digit(a) == Digit(b)
    ensures a == b
  {
  }

  /** Different numbers get different texts (so face labels "1".."n" are all distinct). */
  lemma {:induction false} NatToStringInjective(a: nat, b: nat)
    requires NatToString(a) == NatToString(b)
    ensures a == b
    decreases a
  {
    var s := NatToString(a);
    if a < 10 {
      assert |NatToString(b)| == 1;
      DigitInjective(a, b);
    } else {
      assert b >= 10;
      var sa, sb := NatToString(a / 10), NatToString(b / 10);
      assert s == sa + [Digit(a % 10)];
      assert s == sb + [Digit(b % 10)];
      assert s[|s| - 1] == Digit(a % 10) == Digit(b % 10);
      DigitInjective(a % 10, b % 10);
      assert sa == s[..|s| - 1] == sb;
      NatToStringInjective(a / 10, b / 10);
    }
  }

  lemma NatToStringExamples()
    ensures NatToString(1) == "1"
    ensures NatToString(12) == "12"
  {
  }

  /** The concatenation of `line(x)` for every `x` of `xs`, in order. */
  function ConcatMap<T>(xs: seq<T>, line: T -> string): string {
    if |xs| == 0 then "" else ConcatMap(xs[..|xs| - 1], line) + line(xs[|xs| - 1])
  }

  /** Concatenating over two pieces concatenates the two texts. */
  lemma {:induction false} ConcatMapAppend<T>(a: seq<T>, b: seq<T>, line: T -> string)
    ensures ConcatMap(a + b, line) == ConcatMap(a, line) + ConcatMap(b, line)
    decreases |b|
  {
    if |b| == 0 {
      assert a + b == a;
    } else {
      assert (a + b)[..|a + b| - 1] == a + b[..|b| - 1];
      ConcatMapAppend(a, b[..|b| - 1], line);
    }
  }

  /** Extending a prefix by one element appends that element's line. */
  lemma ConcatMapSnoc<T>(prefix: string, xs: seq<T>, j: nat, line: T -> string)
    requires j < |xs|
    ensures ConcatMap(xs[..j + 1], line) == ConcatMap(xs[..j], line) + line(xs[j])
    ensures prefix + ConcatMap(xs[..j + 1], line) == (prefix + ConcatMap(xs[..j], line)) + line(xs[j])
  {
    assert xs[..j + 1][..j] == xs[..j];
  }

  /** The text of a non-empty sequence starts with the line of its first element. */
  lemma {:induction false} ConcatMapFirst<T>(xs: seq<T>, line: T -> string)
    requires |xs| > 0
    ensures ConcatMap(xs, line) == line(xs[0]) + ConcatMap(xs[1..], line)
    decreases |xs|
  {
    var n := |xs|;
    if n == 1 {
      assert xs[..0] == [] && xs[1..] == [];
    } else {
      var init := xs[..n - 1];
      ConcatMapFirst(init, line);
      assert init[0] == xs[0];
      assert xs[1..][..n - 2] == init[1..];
      assert xs[1..][n - 2] == xs[n - 1];
    }
  }
}
