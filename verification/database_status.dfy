/** The database status a query module can ask for.

    Before every attempt the host serialises the storage engine's fill
    status into the thread state (`fill_context_data`): head block number
    and id, last irreversible block number and id, and the first block
    held, in that order. The guest library's `get_database_status`
    deserialises the same five fields in the same order.
 */
module DatabaseStatus {

  import opened Ints
  import opened Errors
  import opened Bytes

  /** A block id: a 32-byte checksum, serialised as its raw bytes. */
  type BlockId = s: seq<byte> | |s| == 32 witness seq(32, i => 0)

  /** What the storage engine reports about how far it has been filled. */
  datatype FillStatus = FillStatus(
    head: u32,
    headId: BlockId,
    irreversible: u32,
    irreversibleId: BlockId,
    first: u32)

  /** The size of the serialised status: three 32-bit numbers and two ids. */
  const STATUS_SIZE: nat := 76

  /** `fill_context_data`: the bytes the host hands to `get_database_status`. */
  function EncodeStatus(fs: FillStatus): (r: seq<byte>)
    ensures |r| == STATUS_SIZE
  {
    EncodeU32(fs.head) + (fs.headId + (EncodeU32(fs.irreversible) + (fs.irreversibleId + EncodeU32(fs.first))))
  }

  function ReadBlockId(s: seq<byte>): (r: Result<(BlockId, seq<byte>)>)
    ensures r.Ok? <==> 32 <= |s|
    ensures r.Ok? ==> r.value.0 + r.value.1 == s
  {
    if |s| < 32 then Fail(ReadPastEnd) else Ok((s[..32], s[32..]))
  }

  lemma ReadBlockIdPrefix(id: BlockId, rest: seq<byte>)
    ensures ReadBlockId(id + rest) == Ok((id, rest))
  {
    assert (id + rest)[..32] == id && (id + rest)[32..] == rest;
  }

  /** The guest's `get_database_status`: deserialise the five fields in
      order; bytes after them are ignored. */
  function DecodeStatus(bin: seq<byte>): (r: Result<FillStatus>)
    ensures r.Ok? <==> STATUS_SIZE <= |bin|
  {
    var (head, s1) :- ReadU32(bin);
    var (headId, s2) :- ReadBlockId(s1);
    var (irreversible, s3) :- ReadU32(s2);
    var (irreversibleId, s4) :- ReadBlockId(s3);
    var (first, _) :- ReadU32(s4);
    Ok(FillStatus(head, headId, irreversible, irreversibleId, first))
  }

  /** The guest reads back exactly the status the host serialised. */
  lemma DecodeEncodeStatus(fs: FillStatus, rest: seq<byte>)
    ensures DecodeStatus(EncodeStatus(fs) + rest) == Ok(fs)
  {
    var s4 := EncodeU32(fs.first) + rest;
    var s3 := fs.irreversibleId + s4;
    var s2 := EncodeU32(fs.irreversible) + s3;
    var s1 := fs.headId + s2;
    assert EncodeStatus(fs) + rest == EncodeU32(fs.head) + s1;
    ReadEncodeU32(fs.head, s1);
    ReadBlockIdPrefix(fs.headId, s2);
    ReadEncodeU32(fs.irreversible, s3);
    ReadBlockIdPrefix(fs.irreversibleId, s4);
    ReadEncodeU32(fs.first, rest);
  }

  /** Distinct fill statuses give distinct status bytes. */
  lemma EncodeStatusInjective(a: FillStatus, b: FillStatus)
    requires EncodeStatus(a) == EncodeStatus(b)
    ensures a == b
  {
    DecodeEncodeStatus(a, []);
    DecodeEncodeStatus(b, []);
    assert EncodeStatus(a) + [] == EncodeStatus(b) + [];
  }
}
