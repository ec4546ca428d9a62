/** Reference semantics for composite keys.

    A composite key is a tuple of fixed-width fields, most significant
    first. Viewed as a list of digits with one radix per position (2^w for
    a w-bit field), the key order is plain lexicographic order on the
    digits, and it coincides with the order of the number the digits spell
    in that mixed radix. The successor defined here is the mathematical
    "add one with carry"; the key module proves its cascading increments
    agree with it.
 */
module MixedRadix {

  predicate ValidRadix(radix: seq<nat>)
  {
    forall i :: 0 <= i < |radix| ==> radix[i] > 0
  }

  /** `ds` is a digit list for `radix`: one digit per position, each in range. */
  predicate Valid(radix: seq<nat>, ds: seq<nat>)
  {
    && |ds| == |radix|
    && forall i :: 0 <= i < |ds| ==> ds[i] < radix[i]
  }

  /** The number of distinct digit lists: the product of the radices. */
  function Capacity(radix: seq<nat>): nat
  {
    if |radix| == 0 then 1 else radix[0] * Capacity(radix[1..])
  }

  /** The number the digits spell, most significant digit first. */
  function Value(radix: seq<nat>, ds: seq<nat>): nat
    requires |ds| == |radix|
  {
    if |ds| == 0 then 0 else ds[0] * Capacity(radix[1..]) + Value(radix[1..], ds[1..])
  }

  /** Lexicographic order, first position most significant. */
  predicate LexLess(a: seq<nat>, b: seq<nat>)
    requires |a| == |b|
  {
    |a| > 0 && (a[0] < b[0] || (a[0] == b[0] && LexLess(a[1..], b[1..])))
  }

  /** Every digit from position `i` on is at its maximum. */
  predicate MaxFrom(radix: seq<nat>, ds: seq<nat>, i: nat)
    requires Valid(radix, ds)
  {
    forall j :: i <= j < |ds| ==> ds[j] + 1 == radix[j]
  }

  /** Add one with carry; the flag is the carry out of the top digit. */
  function Succ(radix: seq<nat>, ds: seq<nat>): (r: (seq<nat>, bool))
    requires Valid(radix, ds)
    ensures |r.0| == |ds|
  {
    if |ds| == 0 then ([], true)
    else
      var (low, carry) := Succ(radix[1..], ds[1..]);
      if !carry then ([ds[0]] + low, false)
      else
        var d := (ds[0] + 1) % radix[0];
        ([d] + low, d == 0)
  }

  /** `n` successive successors. */
  function SuccN(radix: seq<nat>, ds: seq<nat>, n: nat): (r: seq<nat>)
    requires Valid(radix, ds)
    ensures Valid(radix, r)
    decreases n
  {
    if n == 0 then ds
    else
      SuccValid(radix, ds);
      SuccN(radix, Succ(radix, ds).0, n - 1)
  }

  // ---------------------------------------------------------------------
  // Arithmetic facts

  lemma MulLe(a: nat, b: nat, c: nat)
    requires a <= b
    ensures a * c <= b * c
  {}

  lemma MulSucc(a: nat, c: nat)
    ensures (a + 1) * c == a * c + c
  {}

  /** The first step of `Value` and `Capacity`, with the tail's capacity named. */
  lemma Unfold(radix: seq<nat>, ds: seq<nat>)
    requires |ds| == |radix| > 0
    ensures Value(radix, ds) == ds[0] * Capacity(radix[1..]) + Value(radix[1..], ds[1..])
    ensures Capacity(radix) == radix[0] * Capacity(radix[1..])
  {}

  lemma ValidTail(radix: seq<nat>, ds: seq<nat>)
    requires Valid(radix, ds) && |ds| > 0
    ensures Valid(radix[1..], ds[1..])
    ensures ds[0] < radix[0]
  {
    forall i | 0 <= i < |ds| - 1 ensures ds[1..][i] < radix[1..][i] {
      assert ds[i + 1] < radix[i + 1];
    }
  }

  /** The digits spell a number below the capacity. */
  lemma {:induction false} ValueBound(radix: seq<nat>, ds: seq<nat>)
    requires Valid(radix, ds)
    ensures Value(radix, ds) < Capacity(radix)
  {
    if |ds| > 0 {
      ValidTail(radix, ds);
      Unfold(radix, ds);
      var c := Capacity(radix[1..]);
      ValueBound(radix[1..], ds[1..]);
      MulLe(ds[0] + 1, radix[0], c);
      MulSucc(ds[0], c);
    }
  }

  lemma {:induction false} SuccValid(radix: seq<nat>, ds: seq<nat>)
    requires Valid(radix, ds)
    ensures Valid(radix, Succ(radix, ds).0)
  {
    if |ds| > 0 {
      ValidTail(radix, ds);
      SuccValid(radix[1..], ds[1..]);
      var r := Succ(radix, ds).0;
      forall i | 0 <= i < |ds| ensures r[i] < radix[i] {
        if i > 0 {
          assert r[i] == Succ(radix[1..], ds[1..]).0[i - 1];
        }
      }
    }
  }

  /** One step of `Succ`: the tail is the tail's successor, and the head
      moves only on a carry out of the tail. */
  lemma SuccShape(radix: seq<nat>, ds: seq<nat>)
    requires Valid(radix, ds) && |ds| > 0
    ensures Valid(radix[1..], ds[1..])
    ensures Succ(radix, ds).0[1..] == Succ(radix[1..], ds[1..]).0
    ensures !Succ(radix[1..], ds[1..]).1 ==>
      Succ(radix, ds).0[0] == ds[0] && !Succ(radix, ds).1
    ensures Succ(radix[1..], ds[1..]).1 && ds[0] + 1 < radix[0] ==>
      Succ(radix, ds).0[0] == ds[0] + 1 && !Succ(radix, ds).1
    ensures Succ(radix[1..], ds[1..]).1 && ds[0] + 1 == radix[0] ==>
      Succ(radix, ds).0[0] == 0 && Succ(radix, ds).1
  {
    ValidTail(radix, ds);
    var low := Succ(radix[1..], ds[1..]);
    if low.1 {
      var d := (ds[0] + 1) % radix[0];
      assert Succ(radix, ds) == ([d] + low.0, d == 0);
      if ds[0] + 1 < radix[0] {
        assert d == ds[0] + 1;
      } else {
        assert d == 0;
      }
    } else {
      assert Succ(radix, ds) == ([ds[0]] + low.0, false);
    }
  }

  /** The successor adds one to the value; it carries out exactly when the
      value was the largest one, and then every digit is zero. */
  lemma {:induction false} SuccValue(radix: seq<nat>, ds: seq<nat>)
    requires Valid(radix, ds)
    ensures Valid(radix, Succ(radix, ds).0)
    ensures Succ(radix, ds).1 <==> Value(radix, ds) + 1 == Capacity(radix)
    ensures Succ(radix, ds).1 ==> Value(radix, Succ(radix, ds).0) == 0
    ensures !Succ(radix, ds).1 ==> Value(radix, Succ(radix, ds).0) == Value(radix, ds) + 1
  {
    SuccValid(radix, ds);
    if |ds| > 0 {
      SuccShape(radix, ds);
      ValidTail(radix, ds);
      var c := Capacity(radix[1..]);
      var low := Succ(radix[1..], ds[1..]);
      var r := Succ(radix, ds);
      SuccValue(radix[1..], ds[1..]);
      ValueBound(radix[1..], ds[1..]);
      Unfold(radix, ds);
      Unfold(radix, r.0);
      var v := Value(radix[1..], ds[1..]);
      assert Value(radix[1..], r.0[1..]) == Value(radix[1..], low.0);
      MulSucc(ds[0], c);
      if !low.1 {
        MulLe(ds[0] + 1, radix[0], c);
      } else if ds[0] + 1 < radix[0] {
        MulLe(ds[0] + 2, radix[0], c);
        MulSucc(ds[0] + 1, c);
      }
    }
  }

  /** Lexicographic order on digits is the order of the values they spell. */
  lemma {:induction false} LexLessIffValueLess(radix: seq<nat>, a: seq<nat>, b: seq<nat>)
    requires Valid(radix, a) && Valid(radix, b)
    ensures LexLess(a, b) <==> Value(radix, a) < Value(radix, b)
  {
    if |a| > 0 {
      ValidTail(radix, a);
      ValidTail(radix, b);
      Unfold(radix, a);
      Unfold(radix, b);
      var c := Capacity(radix[1..]);
      ValueBound(radix[1..], a[1..]);
      ValueBound(radix[1..], b[1..]);
      if a[0] < b[0] {
        MulLe(a[0] + 1, b[0], c);
        MulSucc(a[0], c);
      } else if a[0] > b[0] {
        MulLe(b[0] + 1, a[0], c);
        MulSucc(b[0], c);
      } else {
        LexLessIffValueLess(radix[1..], a[1..], b[1..]);
      }
    }
  }

  lemma {:induction false} LexTotal(a: seq<nat>, b: seq<nat>)
    requires |a| == |b| && a != b
    ensures LexLess(a, b) || LexLess(b, a)
  {
    if a[0] == b[0] {
      assert a == [a[0]] + a[1..] && b == [b[0]] + b[1..];
      LexTotal(a[1..], b[1..]);
    }
  }

  /** Distinct digit lists spell distinct numbers. */
  lemma ValueInjective(radix: seq<nat>, a: seq<nat>, b: seq<nat>)
    requires Valid(radix, a) && Valid(radix, b)
    requires Value(radix, a) == Value(radix, b)
    ensures a == b
  {
    if a != b {
      LexTotal(a, b);
      LexLessIffValueLess(radix, a, b);
      LexLessIffValueLess(radix, b, a);
    }
  }

  lemma MaxFromTail(radix: seq<nat>, ds: seq<nat>, i: nat)
    requires Valid(radix, ds) && |ds| > 0
    ensures Valid(radix[1..], ds[1..])
    ensures MaxFrom(radix, ds, i + 1) <==> MaxFrom(radix[1..], ds[1..], i)
  {
    ValidTail(radix, ds);
    if MaxFrom(radix[1..], ds[1..], i) {
      forall j | i + 1 <= j < |ds| ensures ds[j] + 1 == radix[j] {
        assert ds[1..][j - 1] + 1 == radix[1..][j - 1];
      }
    }
  }

  lemma MaxFromStep(radix: seq<nat>, ds: seq<nat>, i: nat)
    requires Valid(radix, ds) && i < |ds|
    ensures MaxFrom(radix, ds, i) <==> ds[i] + 1 == radix[i] && MaxFrom(radix, ds, i + 1)
  {
  }

  /** Digit by digit: position `i` moves (by one, modulo its radix) exactly
      when every less significant position was at its maximum; the carry
      out means every position was at its maximum. */
  lemma {:induction false} SuccDigitwise(radix: seq<nat>, ds: seq<nat>)
    requires Valid(radix, ds)
    ensures Succ(radix, ds).1 <==> MaxFrom(radix, ds, 0)
    ensures forall i :: 0 <= i < |ds| ==>
      Succ(radix, ds).0[i] == if MaxFrom(radix, ds, i + 1) then (ds[i] + 1) % radix[i] else ds[i]
  {
    if |ds| > 0 {
      SuccShape(radix, ds);
      var low := Succ(radix[1..], ds[1..]);
      var r := Succ(radix, ds);
      SuccDigitwise(radix[1..], ds[1..]);
      MaxFromTail(radix, ds, 0);
      forall i | 0 <= i < |ds|
        ensures r.0[i] == if MaxFrom(radix, ds, i + 1) then (ds[i] + 1) % radix[i] else ds[i]
      {
        if i > 0 {
          assert r.0[i] == low.0[i - 1];
          MaxFromTail(radix, ds, i);
        }
      }
    }
  }

  /** `n` successors add `n` to the value while no carry leaves the top digit. */
  lemma {:induction false} SuccNValue(radix: seq<nat>, ds: seq<nat>, n: nat)
    requires Valid(radix, ds)
    requires Value(radix, ds) + n < Capacity(radix)
    ensures Value(radix, SuccN(radix, ds, n)) == Value(radix, ds) + n
    decreases n
  {
    if n > 0 {
      SuccValue(radix, ds);
      SuccNValue(radix, Succ(radix, ds).0, n - 1);
    }
  }
}
