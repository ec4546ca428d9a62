/** The binary codec the host and the guest library share: little-endian
    fixed-width integers, the `varuint32` (LEB128) length prefix, and
    length-prefixed byte blobs and blob lists.

    The codec itself lives in the serialisation libraries the core calls
    into; this module is the model's own rendering of it, and each
    encoder carries its round-trip lemma with the matching decoder.
 */
module Bytes {

  import opened Ints
  import opened Errors

  function Pow(b: nat, n: nat): (r: nat)
    ensures b > 0 ==> r > 0
  {
    if n == 0 then 1 else b * Pow(b, n - 1)
  }

  // ---------------------------------------------------------------------
  // Little-endian fixed-width integers (uint32_t, name, uint64_t)

  /** `v` as `n` little-endian bytes. */
  function EncodeLE(v: nat, n: nat): (r: seq<byte>)
    requires v < Pow(256, n)
    ensures |r| == n
  {
    if n == 0 then [] else [v % 256] + EncodeLE(v / 256, n - 1)
  }

  /** The number whose little-endian bytes are `s`. */
  function DecodeLE(s: seq<byte>): (r: nat)
    ensures r < Pow(256, |s|)
  {
    if |s| == 0 then 0 else s[0] + 256 * DecodeLE(s[1..])
  }

  lemma {:induction false} DecodeEncodeLE(v: nat, n: nat)
    requires v < Pow(256, n)
    ensures DecodeLE(EncodeLE(v, n)) == v
  {
    if n > 0 {
      DecodeEncodeLE(v / 256, n - 1);
      assert EncodeLE(v, n)[1..] == EncodeLE(v / 256, n - 1);
    }
  }

  /** Reads an `n`-byte little-endian integer from the front of `s`. */
  function ReadLE(s: seq<byte>, n: nat): (r: Result<(nat, seq<byte>)>)
    ensures r.Ok? <==> n <= |s|
    ensures r.Ok? ==> r.value.0 < Pow(256, n) && r.value.1 == s[n..]
  {
    if |s| < n then Fail(ReadPastEnd) else Ok((DecodeLE(s[..n]), s[n..]))
  }

  lemma ReadEncodeLE(v: nat, n: nat, rest: seq<byte>)
    requires v < Pow(256, n)
    ensures ReadLE(EncodeLE(v, n) + rest, n) == Ok((v, rest))
  {
    assert (EncodeLE(v, n) + rest)[..n] == EncodeLE(v, n);
    assert (EncodeLE(v, n) + rest)[n..] == rest;
    DecodeEncodeLE(v, n);
  }

  function EncodeU32(v: u32): (r: seq<byte>)
    ensures |r| == 4
  {
    assert Pow(256, 4) == U32_MOD;
    EncodeLE(v, 4)
  }

  function EncodeU64(v: u64): (r: seq<byte>)
    ensures |r| == 8
  {
    assert Pow(256, 8) == U64_MOD;
    EncodeLE(v, 8)
  }

  function ReadU32(s: seq<byte>): (r: Result<(u32, seq<byte>)>)
    ensures r.Ok? <==> 4 <= |s|
    ensures r.Ok? ==> r.value.1 == s[4..]
  {
    assert Pow(256, 4) == U32_MOD;
    match ReadLE(s, 4)
    case Fail(e) => Fail(e)
    case Ok((v, rest)) => Ok((v, rest))
  }

  function ReadU64(s: seq<byte>): (r: Result<(u64, seq<byte>)>)
    ensures r.Ok? <==> 8 <= |s|
    ensures r.Ok? ==> r.value.1 == s[8..]
  {
    assert Pow(256, 8) == U64_MOD;
    match ReadLE(s, 8)
    case Fail(e) => Fail(e)
    case Ok((v, rest)) => Ok((v, rest))
  }

  lemma ReadEncodeU32(v: u32, rest: seq<byte>)
    ensures ReadU32(EncodeU32(v) + rest) == Ok((v, rest))
  {
    assert Pow(256, 4) == U32_MOD;
    ReadEncodeLE(v, 4, rest);
  }

  lemma ReadEncodeU64(v: u64, rest: seq<byte>)
    ensures ReadU64(EncodeU64(v) + rest) == Ok((v, rest))
  {
    assert Pow(256, 8) == U64_MOD;
    ReadEncodeLE(v, 8, rest);
  }

  // ---------------------------------------------------------------------
  // varuint32: seven bits per byte, low group first, top bit = "more"

  /** The LEB128 bytes of `v`, as `push_varuint32` emits them. */
  function EncodeVaruint(v: nat): (r: seq<byte>)
    ensures 0 < |r|
  {
    if v < 128 then [v] else [v % 128 + 128] + EncodeVaruint(v / 128)
  }

  /** Reads at most `budget` LEB128 bytes, returning the untruncated value. */
  function ReadVaruintBits(s: seq<byte>, budget: nat): (r: Result<(nat, seq<byte>)>)
    ensures r.Ok? ==> |r.value.1| < |s|
  {
    if budget == 0 then Fail(BadVaruint)
    else if |s| == 0 then Fail(ReadPastEnd)
    else if s[0] < 128 then Ok((s[0], s[1..]))
    else
      match ReadVaruintBits(s[1..], budget - 1)
      case Fail(e) => Fail(e)
      case Ok((v, rest)) => Ok((s[0] - 128 + 128 * v, rest))
  }

  /** A varuint32 of at most five bytes; the shifted groups are truncated to 32 bits. */
  function ReadVaruint32(s: seq<byte>): (r: Result<(u32, seq<byte>)>)
    ensures r.Ok? ==> |r.value.1| < |s|
  {
    match ReadVaruintBits(s, 5)
    case Fail(e) => Fail(e)
    case Ok((v, rest)) => Ok((TruncU32(v), rest))
  }

  lemma {:induction false} ReadEncodeVaruintBits(v: nat, budget: nat, rest: seq<byte>)
    requires 0 < budget && v < Pow(128, budget)
    ensures ReadVaruintBits(EncodeVaruint(v) + rest, budget) == Ok((v, rest))
  {
    var s := EncodeVaruint(v) + rest;
    if v < 128 {
      assert s[1..] == rest;
    } else {
      assert budget > 1;
      assert v / 128 < Pow(128, budget - 1);
      ReadEncodeVaruintBits(v / 128, budget - 1, rest);
      assert s[1..] == EncodeVaruint(v / 128) + rest;
    }
  }

  /** Decoding a `push_varuint32` encoding gives the value and leaves the rest. */
  lemma ReadEncodeVaruint32(v: u32, rest: seq<byte>)
    ensures ReadVaruint32(EncodeVaruint(v) + rest) == Ok((v, rest))
  {
    assert Pow(128, 5) == 0x8_0000_0000;
    ReadEncodeVaruintBits(v, 5, rest);
  }

  // ---------------------------------------------------------------------
  // Length-prefixed blobs: varuint32(size) followed by the bytes

  /** `native_to_bin` of a byte vector or string: the size is cast to 32 bits. */
  function EncodeBytes(b: seq<byte>): (r: seq<byte>)
    ensures |r| > |b|
  {
    EncodeVaruint(TruncU32(|b|)) + b
  }

  /** Reads one length-prefixed blob. */
  function ReadBytes(s: seq<byte>): (r: Result<(seq<byte>, seq<byte>)>)
    ensures r.Ok? ==> |r.value.1| < |s|
  {
    match ReadVaruint32(s)
    case Fail(e) => Fail(e)
    case Ok((n, rest)) =>
      if |rest| < n then Fail(ReadPastEnd) else Ok((rest[..n], rest[n..]))
  }

  predicate Fits32(b: seq<byte>) { |b| < U32_MOD }

  lemma ReadEncodeBytes(b: seq<byte>, rest: seq<byte>)
    requires Fits32(b)
    ensures ReadBytes(EncodeBytes(b) + rest) == Ok((b, rest))
  {
    ReadEncodeVaruint32(|b|, b + rest);
    assert EncodeBytes(b) + rest == EncodeVaruint(|b|) + (b + rest);
    assert (b + rest)[..|b|] == b;
    assert (b + rest)[|b|..] == rest;
  }

  // ---------------------------------------------------------------------
  // Blob lists: varuint32(count) followed by that many length-prefixed blobs
  // (the serialised form of `vector<vector<char>>`)

  function EncodeBlobSeq(rows: seq<seq<byte>>): seq<byte>
  {
    if |rows| == 0 then [] else EncodeBytes(rows[0]) + EncodeBlobSeq(rows[1..])
  }

  function EncodeBlobs(rows: seq<seq<byte>>): seq<byte>
  {
    EncodeVaruint(TruncU32(|rows|)) + EncodeBlobSeq(rows)
  }

  /** Reads exactly `n` length-prefixed blobs, in order. */
  function ReadBlobs(s: seq<byte>, n: nat): (r: Result<(seq<seq<byte>>, seq<byte>)>)
    ensures r.Ok? ==> |r.value.0| == n
    decreases n
  {
    if n == 0 then Ok(([], s))
    else
      match ReadBytes(s)
      case Fail(e) => Fail(e)
      case Ok((row, rest)) =>
        match ReadBlobs(rest, n - 1)
        case Fail(e) => Fail(e)
        case Ok((rows, tail)) => Ok(([row] + rows, tail))
  }

  /** Reads a blob list; bytes after the last blob are ignored. */
  function DecodeBlobs(s: seq<byte>): (r: Result<seq<seq<byte>>>)
  {
    match ReadVaruint32(s)
    case Fail(e) => Fail(e)
    case Ok((n, rest)) =>
      match ReadBlobs(rest, n)
      case Fail(e) => Fail(e)
      case Ok((rows, _)) => Ok(rows)
  }

  predicate AllFit32(rows: seq<seq<byte>>)
  {
    forall i :: 0 <= i < |rows| ==> Fits32(rows[i])
  }

  lemma EncodeBlobSeqCons(rows: seq<seq<byte>>, rest: seq<byte>)
    requires |rows| > 0
    ensures EncodeBlobSeq(rows) + rest == EncodeBytes(rows[0]) + (EncodeBlobSeq(rows[1..]) + rest)
  {
  }

  lemma ReadBlobsCons(row: seq<byte>, tail: seq<byte>, n: nat)
    requires Fits32(row) && ReadBlobs(tail, n).Ok?
    ensures ReadBlobs(EncodeBytes(row) + tail, n + 1)
         == Ok(([row] + ReadBlobs(tail, n).value.0, ReadBlobs(tail, n).value.1))
  {
    ReadEncodeBytes(row, tail);
  }

  lemma {:induction false} ReadEncodeBlobSeq(rows: seq<seq<byte>>, rest: seq<byte>)
    requires AllFit32(rows)
    ensures ReadBlobs(EncodeBlobSeq(rows) + rest, |rows|) == Ok((rows, rest))
  {
    if |rows| > 0 {
      assert Fits32(rows[0]);
      assert AllFit32(rows[1..]) by {
        forall i | 0 <= i < |rows| - 1 ensures Fits32(rows[1..][i]) {
          assert Fits32(rows[i + 1]);
        }
      }
      ReadEncodeBlobSeq(rows[1..], rest);
      EncodeBlobSeqCons(rows, rest);
      ReadBlobsCons(rows[0], EncodeBlobSeq(rows[1..]) + rest, |rows| - 1);
      assert [rows[0]] + rows[1..] == rows;
    } else {
      assert EncodeBlobSeq(rows) + rest == rest;
    }
  }

  /** A blob list decodes to the rows it was encoded from, in order. */
  lemma DecodeEncodeBlobs(rows: seq<seq<byte>>, rest: seq<byte>)
    requires |rows| < U32_MOD && AllFit32(rows)
    ensures DecodeBlobs(EncodeBlobs(rows) + rest) == Ok(rows)
  {
    ReadEncodeVaruint32(|rows|, EncodeBlobSeq(rows) + rest);
    assert EncodeBlobs(rows) + rest == EncodeVaruint(|rows|) + (EncodeBlobSeq(rows) + rest);
    ReadEncodeBlobSeq(rows, rest);
  }
}
