/**
 * The JavaScript string primitives the booking logic is built from:
 * decimal rendering of a number (`String(n)`, `n.toString()`),
 * `padStart(width, "0")`, and the relational operators `<`, `<=`, `>`
 * and `>=` on strings, which compare strings character by character.
 */
module Text {

  predicate IsDigit(c: char) {
    '0' <= c <= '9'
  }

  predicate AllDigits(s: string) {
    forall i :: 0 <= i < |s| ==> IsDigit(s[i])
  }

  function DigitValue(c: char): (d: nat)
    requires IsDigit(c)
    ensures d < 10
  {
    c as int - '0' as int
  }

  function DigitChar(d: nat): (c: char)
    requires d < 10
    ensures IsDigit(c) && DigitValue(c) == d
  {
    ('0' as int + d) as char
  }

  /** The number a run of decimal digits denotes (leading zeros allowed, 0 for the empty run) */
  function DigitsValue(s: string): nat
    requires AllDigits(s)
  {
    if |s| == 0 then 0 else DigitsValue(s[..|s| - 1]) * 10 + DigitValue(s[|s| - 1])
  }

  /** `String(n)` for a non-negative integer: its shortest decimal form */
  function NatToString(n: nat): (s: string)
    ensures 1 <= |s| && AllDigits(s)
    ensures DigitsValue(s) == n
    ensures n < 10 <==> |s| == 1
    ensures |s| > 1 ==> s[0] != '0'
  {
    if n < 10 then [DigitChar(n)]
    else
      var front := NatToString(n / 10);
      var s := front + [DigitChar(n % 10)];
      assert s[..|s| - 1] == front;
      s
  }

  /**
   * `s.padStart(width, fill)` with a one-character fill: `s` itself when it
   * is already `width` long or longer, otherwise `s` preceded by as many
   * copies of `fill` as make it `width` long (`PadStartShape`).
   */
  function PadStart(s: string, width: nat, fill: char): (r: string)
    ensures |s| >= width ==> r == s
    ensures |s| < width ==> |r| == width
  {
    if |s| >= width then s else Repeat(fill, width - |s|) + s
  }

  /** `k` copies of `c` */
  function Repeat(c: char, k: nat): (r: string)
    ensures |r| == k
  {
    if k == 0 then [] else [c] + Repeat(c, k - 1)
  }

  /** Every character of `Repeat(c, k)` is `c` */
  lemma {:induction false} RepeatAll(c: char, k: nat)
    ensures forall i :: 0 <= i < k ==> Repeat(c, k)[i] == c
  {
    if k > 0 {
      RepeatAll(c, k - 1);
      assert Repeat(c, k) == [c] + Repeat(c, k - 1);
    }
  }

  /** The padded string ends with `s` and everything before `s` is `fill` */
  lemma PadStartShape(s: string, width: nat, fill: char)
    ensures var r := PadStart(s, width, fill);
      && |r| >= |s| && |r| >= width
      && r[|r| - |s|..] == s
      && forall i :: 0 <= i < |r| - |s| ==> r[i] == fill
  {
    if |s| < width {
      RepeatAll(fill, width - |s|);
    }
  }

  /**
   * `String(n).padStart(2, "0")`: the number's two-digit field. Below 100 it
   * is exactly the tens digit and the units digit; from 100 on padStart
   * leaves the number as it is, three digits or more, never truncated.
   */
  function Pad2(n: nat): (r: string)
    ensures n < 100 ==> |r| == 2 && AllDigits(r) && DigitsValue(r) == n
    ensures n >= 100 ==> r == NatToString(n) && |r| >= 3
  {
    var s := NatToString(n);
    if n < 10 then
      var r := PadStart(s, 2, '0');
      assert Repeat('0', 1) == ['0'];
      assert r == ['0'] + s;
      assert r[..1] == ['0'] && r[..1][..0] == [];
      r
    else if n < 100 then
      assert NatToString(n / 10) == [DigitChar(n / 10)];
      PadStart(s, 2, '0')
    else
      assert NatToString(n / 10) != [] && |NatToString(n / 10)| >= 2;
      PadStart(s, 2, '0')
  }

  /**
   * The JavaScript string comparison `a < b`: the first differing character
   * decides, and a proper prefix is smaller than the longer string. No
   * string is smaller than itself.
   */
  function LexLess(a: string, b: string): (less: bool)
    ensures less ==> a != b
    decreases |a|
  {
    if |a| == 0 then |b| > 0
    else if |b| == 0 then false
    else a[0] < b[0] || (a[0] == b[0] && LexLess(a[1..], b[1..]))
  }

  /**
   * `LexLess` is the usual lexicographic order: `a < b` exactly when at the
   * first position where the two differ `a` has the smaller character, or
   * `a` is a proper prefix of `b`.
   */
  lemma {:induction false} LexLessFirstDifference(a: string, b: string)
    ensures LexLess(a, b) <==>
      (exists k :: 0 <= k < |a| && k < |b| && a[..k] == b[..k] && a[k] < b[k])
      || (|a| < |b| && a == b[..|a|])
    decreases |a|
  {
    if |a| > 0 && |b| > 0 {
      var a', b' := a[1..], b[1..];
      LexLessFirstDifference(a', b');
      if a[0] == b[0] {
        if LexLess(a', b') {
          if k' :| 0 <= k' < |a'| && k' < |b'| && a'[..k'] == b'[..k'] && a'[k'] < b'[k'] {
            assert a[..k' + 1] == [a[0]] + a'[..k'];
            assert b[..k' + 1] == [b[0]] + b'[..k'];
            assert a[k' + 1] == a'[k'] && b[k' + 1] == b'[k'];
          } else {
            assert a == [a[0]] + a' && b[..|a|] == [b[0]] + b'[..|a'|];
          }
        } else {
          forall k | 0 <= k < |a| && k < |b| && a[..k] == b[..k]
            ensures !(a[k] < b[k])
          {
            if k > 0 {
              assert a'[..k - 1] == a[..k][1..] && b'[..k - 1] == b[..k][1..];
              assert a'[k - 1] == a[k] && b'[k - 1] == b[k];
            }
          }
        }
      } else {
        assert |a| < |b| ==> b[..|a|][0] == b[0];
        assert a[..0] == b[..0];
      }
    } else if |a| == 0 {
      assert a == b[..0];
    }
  }

  /** Of two different strings exactly one is the smaller */
  lemma {:induction false} LexLessTotal(a: string, b: string)
    ensures a == b || LexLess(a, b) || LexLess(b, a)
    ensures !(LexLess(a, b) && LexLess(b, a))
    decreases |a|
  {
    if |a| > 0 && |b| > 0 {
      LexLessTotal(a[1..], b[1..]);
      if a[0] == b[0] && a[1..] == b[1..] {
        assert a == [a[0]] + a[1..] && b == [b[0]] + b[1..];
      }
    }
  }

  /**
   * Comparing two strings that begin with fields of equal width: the first
   * fields decide unless they are identical, and then the rest decides.
   */
  lemma {:induction false} LexLessConcat(a1: string, b1: string, a2: string, b2: string)
    requires |a1| == |a2|
    ensures LexLess(a1 + b1, a2 + b2) <==> LexLess(a1, a2) || (a1 == a2 && LexLess(b1, b2))
    decreases |a1|
  {
    if |a1| > 0 {
      assert (a1 + b1)[1..] == a1[1..] + b1;
      assert (a2 + b2)[1..] == a2[1..] + b2;
      LexLessConcat(a1[1..], b1, a2[1..], b2);
      if a1[0] == a2[0] && a1[1..] == a2[1..] {
        assert a1 == [a1[0]] + a1[1..] && a2 == [a2[0]] + a2[1..];
      }
    } else {
      assert a1 + b1 == b1 && a2 + b2 == b2;
    }
  }

  /** The value of a two-digit field */
  lemma TwoDigitValue(x: string)
    requires |x| == 2 && AllDigits(x)
    ensures DigitsValue(x) == DigitValue(x[0]) * 10 + DigitValue(x[1])
  {
    var front := x[..1];
    assert front == [x[0]] && front[..0] == [];
    assert DigitsValue(front) == DigitValue(x[0]);
    assert x[..|x| - 1] == front;
  }

  /** On two-digit fields string order is numeric order */
  lemma TwoDigitOrder(x: string, y: string)
    requires |x| == 2 && |y| == 2 && AllDigits(x) && AllDigits(y)
    ensures LexLess(x, y) <==> DigitsValue(x) < DigitsValue(y)
    ensures x == y <==> DigitsValue(x) == DigitsValue(y)
  {
    LexLessConcat([x[0]], [x[1]], [y[0]], [y[1]]);
    assert x == [x[0]] + [x[1]] && y == [y[0]] + [y[1]];
    TwoDigitValue(x);
    TwoDigitValue(y);
  }
}
