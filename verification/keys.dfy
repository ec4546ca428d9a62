/** Database keys of the guest query library: the `increment_key` overloads
    for fixed-width fields and for the key of the `at.e.nra` query (action
    traces of executed transactions ordered by name, receiver, account,
    block, transaction and action), and the extraction of that key from an
    action trace.

    `increment_key` turns an inclusive upper bound into an exclusive one: it
    replaces the key by its successor in key order and reports whether the
    key wrapped around to all zeros.
 */
module Keys {

  import opened Ints
  import MixedRadix

  /** The unsigned integer types `increment_key` is overloaded for. */
  datatype Width = W8 | W16 | W32 | W64 | W128 {
    function Modulus(): nat
    {
      match this
      case W8 => BYTE_MOD
      case W16 => U16_MOD
      case W32 => U32_MOD
      case W64 => U64_MOD
      case W128 => U128_MOD
    }
  }

  /** `!++key` on an unsigned integer: the new key and whether it wrapped. */
  function IncrementUint(w: Width, key: nat): (r: (nat, bool))
    requires key < w.Modulus()
    ensures r.0 < w.Modulus()
    ensures r.1 <==> key + 1 == w.Modulus()
    ensures r.1 ==> r.0 == 0
    ensures !r.1 ==> r.0 == key + 1
  {
    var next := (key + 1) % w.Modulus();
    (next, next == 0)
  }

  /** An account or action name: a 64-bit value (its text form is not modelled). */
  datatype Name = Name(value: u64)

  /** `!++key.value`: a name steps like its 64-bit value. */
  function IncrementName(key: Name): (r: (Name, bool))
    ensures r.1 <==> key.value + 1 == U64_MOD
    ensures r.0.value == if r.1 then 0 else key.value + 1
  {
    var (value, wrapped) := IncrementUint(W64, key.value);
    (Name(value), wrapped)
  }

  /** A 256-bit hash as its two 128-bit words: `word0` is `data()[0]`,
      `word1` is `data()[1]`. */
  datatype Checksum256 = Checksum256(word0: u128, word1: u128)

  function ChecksumValue(c: Checksum256): nat
  {
    c.word0 * U128_MOD + c.word1
  }

  /** Increments `data()[1]`, and `data()[0]` only when `data()[1]` wrapped. */
  function IncrementChecksum(key: Checksum256): (r: (Checksum256, bool))
    ensures r.0.word1 == (key.word1 + 1) % U128_MOD
    ensures r.0.word0 == if key.word1 + 1 == U128_MOD then (key.word0 + 1) % U128_MOD else key.word0
    ensures r.1 <==> key.word0 + 1 == U128_MOD && key.word1 + 1 == U128_MOD
  {
    var (word1, wrapped1) := IncrementUint(W128, key.word1);
    if !wrapped1 then (key.(word1 := word1), false)
    else
      var (word0, wrapped0) := IncrementUint(W128, key.word0);
      (Checksum256(word0, word1), wrapped0)
  }

  /** The checksum increment is "add one modulo 2^256" on the 256-bit number
      whose high half is `data()[0]`. */
  lemma IncrementChecksumAddsOne(key: Checksum256)
    ensures ChecksumValue(IncrementChecksum(key).0) == (ChecksumValue(key) + 1) % (U128_MOD * U128_MOD)
    ensures IncrementChecksum(key).1 <==> ChecksumValue(key) + 1 == U128_MOD * U128_MOD
  {
  }

  // ---------------------------------------------------------------------
  // The key of query `at.e.nra`

  /** Field order is key order: `name` is the most significant field. */
  datatype ActionTraceKey = ActionTraceKey(
    name: Name,
    receiptReceiver: Name,
    account: Name,
    blockIndex: u32,
    transactionId: Checksum256,
    actionIndex: u32)

  /** The radix of each digit of `Digits`. */
  const KEY_RADIX: seq<nat> := [U64_MOD, U64_MOD, U64_MOD, U32_MOD, U128_MOD, U128_MOD, U32_MOD]

  /** The key as digits, most significant first; the transaction id
      contributes `data()[0]` then `data()[1]`. */
  function Digits(k: ActionTraceKey): (ds: seq<nat>)
    ensures MixedRadix.Valid(KEY_RADIX, ds)
  {
    [k.name.value, k.receiptReceiver.value, k.account.value, k.blockIndex,
     k.transactionId.word0, k.transactionId.word1, k.actionIndex]
  }

  /** Key order: lexicographic over the fields in declaration order. */
  predicate KeyLess(a: ActionTraceKey, b: ActionTraceKey)
  {
    MixedRadix.LexLess(Digits(a), Digits(b))
  }

  /** The position of a key in key order. */
  function Rank(k: ActionTraceKey): nat
  {
    MixedRadix.Value(KEY_RADIX, Digits(k))
  }

  /** Every digit from position `i` on is at its maximum. */
  predicate MaxFrom(k: ActionTraceKey, i: nat)
  {
    MixedRadix.MaxFrom(KEY_RADIX, Digits(k), i)
  }

  /** The six-field cascade, least significant field first; `&&` stops at
      the first field that did not wrap. */
  function IncrementActionTraceKey(key: ActionTraceKey): (r: (ActionTraceKey, bool))
    ensures r.0.actionIndex == (key.actionIndex + 1) % U32_MOD
  {
    var (actionIndex, wrapped) := IncrementUint(W32, key.actionIndex);
    var k1 := key.(actionIndex := actionIndex);
    if !wrapped then (k1, false)
    else
      var (transactionId, wrapped) := IncrementChecksum(k1.transactionId);
      var k2 := k1.(transactionId := transactionId);
      if !wrapped then (k2, false)
      else
        var (blockIndex, wrapped) := IncrementUint(W32, k2.blockIndex);
        var k3 := k2.(blockIndex := blockIndex);
        if !wrapped then (k3, false)
        else
          var (account, wrapped) := IncrementName(k3.account);
          var k4 := k3.(account := account);
          if !wrapped then (k4, false)
          else
            var (receiptReceiver, wrapped) := IncrementName(k4.receiptReceiver);
            var k5 := k4.(receiptReceiver := receiptReceiver);
            if !wrapped then (k5, false)
            else
              var (name, wrapped) := IncrementName(k5.name);
              (k5.(name := name), wrapped)
  }

  lemma MaxFromSteps(key: ActionTraceKey)
    ensures MaxFrom(key, 6) <==> key.actionIndex + 1 == U32_MOD
    ensures MaxFrom(key, 5) <==> key.transactionId.word1 + 1 == U128_MOD && MaxFrom(key, 6)
    ensures MaxFrom(key, 4) <==> key.transactionId.word0 + 1 == U128_MOD && MaxFrom(key, 5)
    ensures MaxFrom(key, 3) <==> key.blockIndex + 1 == U32_MOD && MaxFrom(key, 4)
    ensures MaxFrom(key, 2) <==> key.account.value + 1 == U64_MOD && MaxFrom(key, 3)
    ensures MaxFrom(key, 1) <==> key.receiptReceiver.value + 1 == U64_MOD && MaxFrom(key, 2)
    ensures MaxFrom(key, 0) <==> key.name.value + 1 == U64_MOD && MaxFrom(key, 1)
  {
    var ds := Digits(key);
    assert MixedRadix.MaxFrom(KEY_RADIX, ds, 7);
    MixedRadix.MaxFromStep(KEY_RADIX, ds, 6);
    MixedRadix.MaxFromStep(KEY_RADIX, ds, 5);
    MixedRadix.MaxFromStep(KEY_RADIX, ds, 4);
    MixedRadix.MaxFromStep(KEY_RADIX, ds, 3);
    MixedRadix.MaxFromStep(KEY_RADIX, ds, 2);
    MixedRadix.MaxFromStep(KEY_RADIX, ds, 1);
    MixedRadix.MaxFromStep(KEY_RADIX, ds, 0);
  }

  /** Field by field: a field moves (by one, wrapping) exactly when every
      less significant field was at its maximum, and is otherwise left as
      it was; the increment reports a wrap exactly when every field was at
      its maximum. */
  lemma IncrementCascade(key: ActionTraceKey)
    ensures forall i :: 0 <= i < 7 ==>
      Digits(IncrementActionTraceKey(key).0)[i] ==
        if MaxFrom(key, i + 1) then (Digits(key)[i] + 1) % KEY_RADIX[i] else Digits(key)[i]
    ensures IncrementActionTraceKey(key).1 <==> MaxFrom(key, 0)
  {
    var ds := Digits(key);
    var rs := Digits(IncrementActionTraceKey(key).0);
    MaxFromSteps(key);
    assert MaxFrom(key, 7) by {
      assert MixedRadix.MaxFrom(KEY_RADIX, ds, 7);
    }
    forall i | 0 <= i < 7
      ensures rs[i] == if MaxFrom(key, i + 1) then (ds[i] + 1) % KEY_RADIX[i] else ds[i]
    {
      if i == 0 {
      } else if i == 1 {
      } else if i == 2 {
      } else if i == 3 {
      } else if i == 4 {
      } else if i == 5 {
      } else {
      }
    }
  }

  lemma DigitsInjective(a: ActionTraceKey, b: ActionTraceKey)
    requires Digits(a) == Digits(b)
    ensures a == b
  {
  }

  /** The cascade is the mixed-radix successor of the key's digits. */
  lemma IncrementIsSucc(key: ActionTraceKey)
    ensures Digits(IncrementActionTraceKey(key).0) == MixedRadix.Succ(KEY_RADIX, Digits(key)).0
    ensures IncrementActionTraceKey(key).1 == MixedRadix.Succ(KEY_RADIX, Digits(key)).1
  {
    var ds := Digits(key);
    var s := MixedRadix.Succ(KEY_RADIX, ds);
    var r := IncrementActionTraceKey(key);
    MixedRadix.SuccDigitwise(KEY_RADIX, ds);
    IncrementCascade(key);
    var a := Digits(r.0);
    assert |a| == |s.0| == 7;
    forall i | 0 <= i < 7 ensures a[i] == s.0[i] {
      assert MaxFrom(key, i + 1) == MixedRadix.MaxFrom(KEY_RADIX, ds, i + 1);
    }
    assert a == s.0;
  }

  /** The all-zero key. */
  const ZERO_KEY := ActionTraceKey(Name(0), Name(0), Name(0), 0, Checksum256(0, 0), 0)

  /** The increment reports a wrap exactly when all six fields were at their
      maximum, and the wrapped key is all zeros. */
  lemma IncrementWrapsOnlyAtMax(key: ActionTraceKey)
    ensures IncrementActionTraceKey(key).1 <==>
      && key.name.value + 1 == U64_MOD
      && key.receiptReceiver.value + 1 == U64_MOD
      && key.account.value + 1 == U64_MOD
      && key.blockIndex + 1 == U32_MOD
      && key.transactionId.word0 + 1 == U128_MOD
      && key.transactionId.word1 + 1 == U128_MOD
      && key.actionIndex + 1 == U32_MOD
    ensures IncrementActionTraceKey(key).1 ==> IncrementActionTraceKey(key).0 == ZERO_KEY
  {
  }

  /** Without a wrap, the increment gives the next key in key order: it is
      larger, and no key lies strictly between the two. */
  lemma IncrementIsNextKey(key: ActionTraceKey)
    requires !IncrementActionTraceKey(key).1
    ensures KeyLess(key, IncrementActionTraceKey(key).0)
    ensures forall x :: !(KeyLess(key, x) && KeyLess(x, IncrementActionTraceKey(key).0))
  {
    var next := IncrementActionTraceKey(key).0;
    IncrementIsSucc(key);
    MixedRadix.SuccValue(KEY_RADIX, Digits(key));
    assert Rank(next) == Rank(key) + 1;
    MixedRadix.LexLessIffValueLess(KEY_RADIX, Digits(key), Digits(next));
    forall x ensures !(KeyLess(key, x) && KeyLess(x, next)) {
      MixedRadix.LexLessIffValueLess(KEY_RADIX, Digits(key), Digits(x));
      MixedRadix.LexLessIffValueLess(KEY_RADIX, Digits(x), Digits(next));
    }
  }

  /** `n` successive increments. */
  function IncrementN(key: ActionTraceKey, n: nat): ActionTraceKey
    decreases n
  {
    if n == 0 then key else IncrementN(IncrementActionTraceKey(key).0, n - 1)
  }

  lemma {:induction false} IncrementNIsSuccN(key: ActionTraceKey, n: nat)
    ensures Digits(IncrementN(key, n)) == MixedRadix.SuccN(KEY_RADIX, Digits(key), n)
    decreases n
  {
    if n > 0 {
      IncrementIsSucc(key);
      IncrementNIsSuccN(IncrementActionTraceKey(key).0, n - 1);
    }
  }

  /** Repeated increments walk from `a` to any larger key `b` in exactly
      `Rank(b) - Rank(a)` steps, each intermediate key lying strictly
      between them: nothing is skipped. */
  lemma IncrementReachesInDistance(a: ActionTraceKey, b: ActionTraceKey)
    requires KeyLess(a, b)
    ensures Rank(a) < Rank(b)
    ensures IncrementN(a, Rank(b) - Rank(a)) == b
    ensures forall m :: 0 < m < Rank(b) - Rank(a) ==>
      KeyLess(a, IncrementN(a, m)) && KeyLess(IncrementN(a, m), b)
  {
    var d := Rank(b) - Rank(a);
    MixedRadix.LexLessIffValueLess(KEY_RADIX, Digits(a), Digits(b));
    MixedRadix.ValueBound(KEY_RADIX, Digits(b));
    IncrementNIsSuccN(a, d);
    MixedRadix.SuccNValue(KEY_RADIX, Digits(a), d);
    MixedRadix.ValueInjective(KEY_RADIX, Digits(IncrementN(a, d)), Digits(b));
    DigitsInjective(IncrementN(a, d), b);
    forall m | 0 < m < d
      ensures KeyLess(a, IncrementN(a, m)) && KeyLess(IncrementN(a, m), b)
    {
      var x := IncrementN(a, m);
      IncrementNIsSuccN(a, m);
      MixedRadix.SuccNValue(KEY_RADIX, Digits(a), m);
      MixedRadix.LexLessIffValueLess(KEY_RADIX, Digits(a), Digits(x));
      MixedRadix.LexLessIffValueLess(KEY_RADIX, Digits(x), Digits(b));
    }
  }

  // ---------------------------------------------------------------------
  // Action traces and key extraction

  /** An action trace row; only the key fields matter to the model, the
      rest are carried so that extraction can be shown to ignore them. */
  datatype ActionTrace = ActionTrace(
    blockIndex: u32,
    transactionId: Checksum256,
    actionIndex: u32,
    parentActionIndex: u32,
    transactionStatus: byte,
    receiptReceiver: Name,
    receiptActDigest: Checksum256,
    receiptGlobalSequence: u64,
    receiptRecvSequence: u64,
    receiptCodeSequence: u32,
    receiptAbiSequence: u32,
    account: Name,
    name: Name,
    data: seq<byte>,
    contextFree: bool,
    elapsed: int)

  /** `key::from_data`: the trace's place in key order is read off its
      name, receiver, account, block, transaction id and action index. */
  function FromData(t: ActionTrace): (k: ActionTraceKey)
    ensures Digits(k) == [t.name.value, t.receiptReceiver.value, t.account.value, t.blockIndex,
                          t.transactionId.word0, t.transactionId.word1, t.actionIndex]
  {
    ActionTraceKey(
      name := t.name,
      receiptReceiver := t.receiptReceiver,
      account := t.account,
      blockIndex := t.blockIndex,
      transactionId := t.transactionId,
      actionIndex := t.actionIndex)
  }

  /** Two traces get the same key exactly when they agree on the six key
      fields; every other field is ignored. */
  lemma FromDataSameKeyIff(t1: ActionTrace, t2: ActionTrace)
    ensures FromData(t1) == FromData(t2) <==>
      && t1.name == t2.name
      && t1.receiptReceiver == t2.receiptReceiver
      && t1.account == t2.account
      && t1.blockIndex == t2.blockIndex
      && t1.transactionId == t2.transactionId
      && t1.actionIndex == t2.actionIndex
  {
  }
}
