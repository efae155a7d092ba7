/**
 * Small JavaScript runtime facts the rest of the model leans on: optional
 * values, thrown errors as a result type, and the decimal printing that
 * template literals such as `data_${ context }` and Babel's uid names use.
 */
module Js {

  datatype Option<+T> = None | Some(value: T)

  /** Why a JavaScript evaluation of the modelled code would throw. */
  datatype Error =
    | TypeError(reason: string)
    | ReferenceError(name: string)
    | StackOverflow

  /** A value, or the exception the source throws instead of returning one. */
  datatype Result<+T> = Ok(value: T) | Err(error: Error)

  predicate IsDigit(c: char)
  {
    '0' <= c <= '9'
  }

  predicate AllDigits(s: string)
  {
    forall i :: 0 <= i < |s| ==> IsDigit(s[i])
  }

  function DigitChar(d: nat): (c: char)
    requires d < 10
    ensures IsDigit(c)
  {
    (('0' as int) + d) as char
  }

  function DigitValue(c: char): (d: nat)
    requires IsDigit(c)
    ensures d < 10
  {
    (c as int) - ('0' as int)
  }

  /** `String(n)` for a non-negative integer: its decimal digits, no leading zero. */
  function NatToString(n: nat): (s: string)
    ensures |s| >= 1
    ensures AllDigits(s)
    decreases n
  {
    if n < 10 then [DigitChar(n)] else NatToString(n / 10) + [DigitChar(n % 10)]
  }

  /** `String(i)` for an integer. */
  function IntToString(i: int): (s: string)
    ensures |s| >= 1
  {
    if i < 0 then "-" + NatToString(-i) else NatToString(i)
  }

  /** `parseInt` of a non-empty run of decimal digits. */
  function DigitsValue(s: string): nat
    requires AllDigits(s)
  {
    if |s| == 0 then 0 else DigitsValue(s[..|s| - 1]) * 10 + DigitValue(s[|s| - 1])
  }

  /** Reading back the decimal digits of `n` yields `n`. */
  lemma {:induction false} DigitsValueOfNatToString(n: nat)
    ensures DigitsValue(NatToString(n)) == n
    decreases n
  {
    var s := NatToString(n);
    if n < 10 {
      assert s[..0] == [];
    } else {
      var p := NatToString(n / 10);
      assert s == p + [DigitChar(n % 10)];
      assert s[..|s| - 1] == p;
      DigitsValueOfNatToString(n / 10);
    }
  }

  /** Distinct numbers print differently. */
  lemma NatToStringInjective(m: nat, n: nat)
    ensures NatToString(m) == NatToString(n) ==> m == n
  {
    DigitsValueOfNatToString(m);
    DigitsValueOfNatToString(n);
  }

  /** Reversal of a sequence (what repeated `unshift` produces). */
  function Reverse<T>(s: seq<T>): (r: seq<T>)
    ensures |r| == |s|
    ensures forall i :: 0 <= i < |s| ==> r[i] == s[|s| - 1 - i]
  {
    if |s| == 0 then [] else Reverse(s[1..]) + [s[0]]
  }

  /** `body.unshift(x)` for each `x` of `items` in turn: the last item ends up first. */
  function UnshiftAll<T>(body: seq<T>, items: seq<T>): (r: seq<T>)
    ensures r == Reverse(items) + body
    decreases |items|
  {
    if |items| == 0 then body else UnshiftAll([items[0]] + body, items[1..])
  }

  /** A non-empty sequence is its head followed by its tail, whatever follows it. */
  lemma ConsTail<T>(t: seq<T>, u: seq<T>)
    requires |t| > 0
    ensures [t[0]] + (t[1..] + u) == t + u
  {
    assert [t[0]] + t[1..] == t;
  }

  /** A position at which a member of a sequence sits. */
  lemma IndexOf<T>(s: seq<T>, x: T) returns (i: nat)
    requires x in s
    ensures i < |s| && s[i] == x
  {
    i :| 0 <= i < |s| && s[i] == x;
  }

  /** A sequence that starts with `items` reversed holds item `k` at `|items| - 1 - k`. */
  lemma ReversedPrefixAt<T>(r: seq<T>, items: seq<T>, k: nat)
    requires |items| <= |r| && r[..|items|] == Reverse(items) && k < |items|
    ensures r[|items| - 1 - k] == items[k]
  {
    assert r[|items| - 1 - k] == r[..|items|][|items| - 1 - k];
  }}
