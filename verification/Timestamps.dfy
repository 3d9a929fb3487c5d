/** UTC timestamps in whole seconds, in the form of section 5.6 of RFC 3339, and why comparing them
    as strings compares them as moments (section 5.1 of RFC 3339). */
module Timestamps {
  import opened Texts

  predicate IsDigit(c: char) {
    '0' <= c <= '9'
  }

  /** The punctuation at each position of a timestamp, or '0' where a digit stands. */
  const SHAPE: string := "0000-00-00T00:00:00Z"

  predicate HasShape(s: string, shape: string) {
    |s| == |shape| && forall i :: 0 <= i < |s| ==> if shape[i] == '0' then IsDigit(s[i]) else s[i] == shape[i]
  }

  predicate ValidTimestamp(s: string) {
    HasShape(s, SHAPE)
  }

  function Scale(shape: string): (n: nat)
    ensures n > 0
  {
    if shape == [] then 1 else if shape[0] == '0' then 10 * Scale(shape[1..]) else Scale(shape[1..])
  }

  /** A digit in its place. */
  function Weighed(digit: nat, scale: nat): nat {
    digit * scale
  }

  /** The digits read as one number: year, month, day, hour, minute, second. */
  function Moment(s: string, shape: string): nat
    requires HasShape(s, shape)
  {
    if s == [] then 0
    else
      assert HasShape(s[1..], shape[1..]);
      var rest := Moment(s[1..], shape[1..]);
      if shape[0] == '0' then Weighed(s[0] as int - '0' as int, Scale(shape[1..])) + rest else rest
  }

  lemma {:induction false} MomentBelowScale(s: string, shape: string)
    requires HasShape(s, shape)
    ensures Moment(s, shape) < Scale(shape)
  {
    if s != [] {
      MomentBelowScale(s[1..], shape[1..]);
      if shape[0] == '0' {
        DigitTimes(s[0] as int - '0' as int, 9, Scale(shape[1..]));
      }
    }
  }

  lemma {:induction false} DigitTimes(a: nat, b: nat, n: nat)
    requires a <= b
    ensures a * n <= b * n
    ensures a < b ==> a * n + n <= b * n
    decreases b - a
  {
    if a < b {
      DigitTimes(a, b - 1, n);
      assert b * n == (b - 1) * n + n;
    }
  }

  /** Strings of one shape are ordered as the numbers their digits spell. */
  lemma {:induction false} OrderOfMoments(a: string, b: string, shape: string)
    requires HasShape(a, shape) && HasShape(b, shape)
    ensures Less(a, b) <==> Moment(a, shape) < Moment(b, shape)
    ensures a == b <==> Moment(a, shape) == Moment(b, shape)
  {
    if a != [] {
      var tail := shape[1..];
      assert HasShape(a[1..], tail) && HasShape(b[1..], tail);
      OrderOfMoments(a[1..], b[1..], tail);
      assert a == [a[0]] + a[1..] && b == [b[0]] + b[1..];
      if shape[0] == '0' {
        MomentBelowScale(a[1..], tail);
        MomentBelowScale(b[1..], tail);
        var x, y := a[0] as int - '0' as int, b[0] as int - '0' as int;
        if x < y {
          DigitTimes(x, y, Scale(tail));
        } else {
          DigitTimes(y, x, Scale(tail));
        }
      }
    }
  }
}
