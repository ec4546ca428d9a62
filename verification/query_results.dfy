/** Walking a serialised query result in the guest library.

    A query result is a varuint32 row count followed by that many
    length-prefixed row blobs. The walkers decode the rows one at a time,
    hand each to a callback `f` in order, and stop as soon as `f` returns
    false; rows after that point are never decoded. The row type's own
    deserialiser is a parameter (`unpack`).
 */
module QueryResults {

  import opened Ints
  import opened Errors
  import opened Bytes

  /** What a walk did: the raw row blobs it read, the decoded rows it passed
      to `f` (in order), and the walker's return value. */
  datatype Visit<T> = Visit(blobs: seq<seq<byte>>, visited: seq<T>, completed: bool)

  /** The early-stop discipline: every row before the last one visited was
      accepted by `f`; a walk returns true only if `f` accepted every row it
      saw, and returns false right after the first row `f` rejected. */
  predicate StopsAtFirstRejection<T>(v: Visit<T>, f: T -> bool)
  {
    && (forall i :: 0 <= i < |v.visited| - 1 ==> f(v.visited[i]))
    && (v.completed ==> forall i :: 0 <= i < |v.visited| ==> f(v.visited[i]))
    && (!v.completed ==> |v.visited| > 0 && !f(v.visited[|v.visited| - 1]))
  }

  /** Each visited row is what `unpack` made of the blob read for it. */
  predicate Unpacked<T(==)>(v: Visit<T>, unpack: seq<byte> -> Result<T>)
  {
    && |v.blobs| == |v.visited|
    && forall i :: 0 <= i < |v.visited| ==> unpack(v.blobs[i]) == Ok(v.visited[i])
  }

  /** The loop body of `for_each_query_result`, for the `n` rows still to come. */
  function VisitRows<T(==)>(s: seq<byte>, n: nat, unpack: seq<byte> -> Result<T>, f: T -> bool)
    : (r: Result<Visit<T>>)
    ensures r.Ok? ==> |r.value.visited| <= n
    ensures r.Ok? ==> Unpacked(r.value, unpack)
    ensures r.Ok? ==> StopsAtFirstRejection(r.value, f)
    ensures r.Ok? && r.value.completed ==> |r.value.visited| == n
    decreases n
  {
    if n == 0 then Ok(Visit([], [], true))
    else
      match ReadBytes(s)
      case Fail(e) => Fail(e)
      case Ok((blob, rest)) =>
        match unpack(blob)
        case Fail(e) => Fail(e)
        case Ok(row) =>
          if !f(row) then Ok(Visit([blob], [row], false))
          else
            match VisitRows(rest, n - 1, unpack, f)
            case Fail(e) => Fail(e)
            case Ok(w) => Ok(Visit([blob] + w.blobs, [row] + w.visited, w.completed))
  }

  /** `for_each_query_result`: read the row count, then visit the rows. */
  function ForEachQueryResult<T(==)>(bytes: seq<byte>, unpack: seq<byte> -> Result<T>, f: T -> bool)
    : (r: Result<Visit<T>>)
    ensures r.Ok? ==> ReadVaruint32(bytes).Ok?
    ensures r.Ok? ==> |r.value.visited| <= ReadVaruint32(bytes).value.0
    ensures r.Ok? && r.value.completed ==> |r.value.visited| == ReadVaruint32(bytes).value.0
    ensures r.Ok? ==> Unpacked(r.value, unpack) && StopsAtFirstRejection(r.value, f)
  {
    match ReadVaruint32(bytes)
    case Fail(e) => Fail(e)
    case Ok((n, rest)) => VisitRows(rest, n, unpack, f)
  }

  // ---------------------------------------------------------------------
  // The walk over a well-formed result

  /** The index of the first row `f` rejects, or the row count if none. */
  function FirstRejected<T>(rows: seq<T>, f: T -> bool): (k: nat)
    ensures k <= |rows|
    ensures forall i :: 0 <= i < k ==> f(rows[i])
    ensures k < |rows| ==> !f(rows[k])
  {
    if |rows| == 0 then 0
    else if !f(rows[0]) then 0
    else 1 + FirstRejected(rows[1..], f)
  }

  /** The number of rows a walk visits: up to and including the first rejected one. */
  function VisitCount<T>(rows: seq<T>, f: T -> bool): nat
  {
    var k := FirstRejected(rows, f);
    if k < |rows| then k + 1 else k
  }

  /** One step of the walk over an accepted row. */
  lemma VisitRowsAccept<T>(blob: seq<byte>, tail: seq<byte>, n: nat, row: T,
                           unpack: seq<byte> -> Result<T>, f: T -> bool)
    requires Fits32(blob) && unpack(blob) == Ok(row) && f(row)
    requires VisitRows(tail, n, unpack, f).Ok?
    ensures var w := VisitRows(tail, n, unpack, f).value;
      VisitRows(EncodeBytes(blob) + tail, n + 1, unpack, f) == Ok(Visit([blob] + w.blobs, [row] + w.visited, w.completed))
  {
    ReadEncodeBytes(blob, tail);
  }

  /** One step of the walk over a rejected row: nothing after it is read. */
  lemma VisitRowsReject<T>(blob: seq<byte>, tail: seq<byte>, n: nat, row: T,
                           unpack: seq<byte> -> Result<T>, f: T -> bool)
    requires Fits32(blob) && unpack(blob) == Ok(row) && !f(row)
    ensures VisitRows(EncodeBytes(blob) + tail, n + 1, unpack, f) == Ok(Visit([blob], [row], false))
  {
    ReadEncodeBytes(blob, tail);
  }

  lemma FirstRejectedCons<T>(rows: seq<T>, f: T -> bool)
    requires |rows| > 0 && f(rows[0])
    ensures FirstRejected(rows, f) == 1 + FirstRejected(rows[1..], f)
    ensures VisitCount(rows, f) == 1 + VisitCount(rows[1..], f)
  {
  }

  lemma PrependPrefix<U>(s: seq<U>, k: nat)
    requires 0 < |s| && k < |s|
    ensures [s[0]] + s[1..][..k] == s[..k + 1]
  {
  }

  lemma TailPairs<T>(blobs: seq<seq<byte>>, rows: seq<T>, unpack: seq<byte> -> Result<T>)
    requires AllFit32(blobs) && |rows| == |blobs| > 0
    requires forall i :: 0 <= i < |blobs| ==> unpack(blobs[i]) == Ok(rows[i])
    ensures AllFit32(blobs[1..]) && Fits32(blobs[0]) && unpack(blobs[0]) == Ok(rows[0])
    ensures forall i :: 0 <= i < |blobs| - 1 ==> unpack(blobs[1..][i]) == Ok(rows[1..][i])
  {
    forall i | 0 <= i < |blobs| - 1 ensures Fits32(blobs[1..][i]) && unpack(blobs[1..][i]) == Ok(rows[1..][i]) {
      assert Fits32(blobs[i + 1]) && unpack(blobs[i + 1]) == Ok(rows[i + 1]);
    }
  }

  /** The walk a well-formed result calls for: the rows in order, up to and
      including the first one `f` rejects. */
  function ExpectedWalk<T>(blobs: seq<seq<byte>>, rows: seq<T>, f: T -> bool): Visit<T>
    requires |rows| == |blobs|
  {
    if |rows| == 0 then Visit([], [], true)
    else if !f(rows[0]) then Visit([blobs[0]], [rows[0]], false)
    else
      var w := ExpectedWalk(blobs[1..], rows[1..], f);
      Visit([blobs[0]] + w.blobs, [rows[0]] + w.visited, w.completed)
  }

  /** The expected walk is the prefix of the rows up to the first rejection. */
  lemma {:induction false} ExpectedWalkPrefix<T>(blobs: seq<seq<byte>>, rows: seq<T>, f: T -> bool)
    requires |rows| == |blobs|
    ensures ExpectedWalk(blobs, rows, f)
         == Visit(blobs[..VisitCount(rows, f)], rows[..VisitCount(rows, f)], FirstRejected(rows, f) == |rows|)
  {
    if |rows| > 0 {
      if f(rows[0]) {
        ExpectedWalkPrefix(blobs[1..], rows[1..], f);
        FirstRejectedCons(rows, f);
        PrependPrefix(blobs, VisitCount(rows[1..], f));
        PrependPrefix(rows, VisitCount(rows[1..], f));
      } else {
        assert blobs[..1] == [blobs[0]] && rows[..1] == [rows[0]];
      }
    }
  }

  lemma {:induction false} VisitRowsEncoded<T>(blobs: seq<seq<byte>>, rest: seq<byte>, rows: seq<T>,
                                              unpack: seq<byte> -> Result<T>, f: T -> bool)
    requires AllFit32(blobs) && |rows| == |blobs|
    requires forall i :: 0 <= i < |blobs| ==> unpack(blobs[i]) == Ok(rows[i])
    ensures VisitRows(EncodeBlobSeq(blobs) + rest, |blobs|, unpack, f) == Ok(ExpectedWalk(blobs, rows, f))
  {
    if |blobs| > 0 {
      TailPairs(blobs, rows, unpack);
      var tail := EncodeBlobSeq(blobs[1..]) + rest;
      EncodeBlobSeqCons(blobs, rest);
      if f(rows[0]) {
        VisitRowsEncoded(blobs[1..], rest, rows[1..], unpack, f);
        VisitRowsAccept(blobs[0], tail, |blobs[1..]|, rows[0], unpack, f);
      } else {
        VisitRowsReject(blobs[0], tail, |blobs[1..]|, rows[0], unpack, f);
      }
    } else {
      assert EncodeBlobSeq(blobs) + rest == rest;
    }
  }

  /** On the encoding of a list of rows, the walk visits the rows in order up
      to and including the first one `f` rejects, and returns true exactly
      when `f` accepts every row. */
  lemma ForEachQueryResultEncoded<T>(blobs: seq<seq<byte>>, rest: seq<byte>, rows: seq<T>,
                                     unpack: seq<byte> -> Result<T>, f: T -> bool)
    requires |blobs| < U32_MOD && AllFit32(blobs) && |rows| == |blobs|
    requires forall i :: 0 <= i < |blobs| ==> unpack(blobs[i]) == Ok(rows[i])
    ensures ForEachQueryResult(EncodeBlobs(blobs) + rest, unpack, f)
         == Ok(Visit(blobs[..VisitCount(rows, f)], rows[..VisitCount(rows, f)],
                     forall i :: 0 <= i < |rows| ==> f(rows[i])))
  {
    ReadEncodeVaruint32(|blobs|, EncodeBlobSeq(blobs) + rest);
    assert EncodeBlobs(blobs) + rest == EncodeVaruint(|blobs|) + (EncodeBlobSeq(blobs) + rest);
    VisitRowsEncoded(blobs, rest, rows, unpack, f);
    ExpectedWalkPrefix(blobs, rows, f);
  }

  /** Rows after the first rejected one are never decoded: whatever follows
      it, even bytes that do not parse, the walk returns false. */
  lemma ForEachQueryResultIgnoresRest<T>(count: u32, blob: seq<byte>, junk: seq<byte>,
                                         unpack: seq<byte> -> Result<T>, f: T -> bool)
    requires count > 0 && Fits32(blob)
    requires unpack(blob).Ok? && !f(unpack(blob).value)
    ensures ForEachQueryResult(EncodeVaruint(count) + EncodeBytes(blob) + junk, unpack, f)
         == Ok(Visit([blob], [unpack(blob).value], false))
  {
    ReadEncodeVaruint32(count, EncodeBytes(blob) + junk);
    assert EncodeVaruint(count) + EncodeBytes(blob) + junk == EncodeVaruint(count) + (EncodeBytes(blob) + junk);
    ReadEncodeBytes(blob, junk);
  }

  // ---------------------------------------------------------------------
  // Contract-table rows

  /** A row of a contract table; `value` is the contract's own serialised data. */
  datatype ContractRow = ContractRow(
    blockIndex: u32,
    present: bool,
    code: u64,
    scope: u64,
    table: u64,
    primaryKey: u64,
    payer: u64,
    value: seq<byte>)

  /** Decodes a row and, when it is present and has data, its payload. */
  function WithPayload<T(==)>(unpackRow: seq<byte> -> Result<ContractRow>, unpackValue: seq<byte> -> Result<T>,
                          blob: seq<byte>): (r: Result<(ContractRow, Option<T>)>)
    ensures r.Ok? ==> unpackRow(blob) == Ok(r.value.0)
    ensures r.Ok? ==> (r.value.1.Some? <==> r.value.0.present && |r.value.0.value| > 0)
    ensures r.Ok? && r.value.1.Some? ==> unpackValue(r.value.0.value) == Ok(r.value.1.value)
  {
    match unpackRow(blob)
    case Fail(e) => Fail(e)
    case Ok(row) =>
      if row.present && |row.value| > 0 then
        match unpackValue(row.value)
        case Fail(e) => Fail(e)
        case Ok(p) => Ok((row, Some(p)))
      else Ok((row, None))
  }

  /** The row decoder `for_each_contract_row` hands to the walk. */
  function PayloadUnpacker<T(==)>(unpackRow: seq<byte> -> Result<ContractRow>, unpackValue: seq<byte> -> Result<T>)
    : seq<byte> -> Result<(ContractRow, Option<T>)>
  {
    b => WithPayload(unpackRow, unpackValue, b)
  }

  /** The two-argument callback as a callback on the pair. */
  function PairCallback<T>(f: (ContractRow, Option<T>) -> bool): ((ContractRow, Option<T>)) -> bool
  {
    (p: (ContractRow, Option<T>)) => f(p.0, p.1)
  }

  /** `for_each_contract_row`: the walk over contract rows, passing the
      decoded payload only for present rows with data and none otherwise. */
  function ForEachContractRow<T(==)>(bytes: seq<byte>, unpackRow: seq<byte> -> Result<ContractRow>,
                                 unpackValue: seq<byte> -> Result<T>, f: (ContractRow, Option<T>) -> bool)
    : (r: Result<Visit<(ContractRow, Option<T>)>>)
    ensures r.Ok? ==> ReadVaruint32(bytes).Ok?
    ensures r.Ok? ==> |r.value.visited| <= ReadVaruint32(bytes).value.0
    ensures r.Ok? && r.value.completed ==> |r.value.visited| == ReadVaruint32(bytes).value.0
    ensures r.Ok? ==> |r.value.blobs| == |r.value.visited|
    ensures r.Ok? ==> forall i :: 0 <= i < |r.value.visited| ==>
      && unpackRow(r.value.blobs[i]) == Ok(r.value.visited[i].0)
      && (r.value.visited[i].1.Some? <==> r.value.visited[i].0.present && |r.value.visited[i].0.value| > 0)
    ensures r.Ok? ==> forall i :: 0 <= i < |r.value.visited| && r.value.visited[i].1.Some? ==>
      unpackValue(r.value.visited[i].0.value) == Ok(r.value.visited[i].1.value)
    ensures r.Ok? ==> StopsAtFirstRejection(r.value, PairCallback(f))
  {
    ForEachQueryResult(bytes, PayloadUnpacker(unpackRow, unpackValue), PairCallback(f))
  }

  /** On the encoding of a list of contract rows, the walk visits the rows,
      each with its payload, in order up to and including the first one `f`
      rejects, and returns true exactly when `f` accepts every row. */
  lemma ForEachContractRowEncoded<T>(blobs: seq<seq<byte>>, rest: seq<byte>, rows: seq<(ContractRow, Option<T>)>,
                                         unpackRow: seq<byte> -> Result<ContractRow>,
                                         unpackValue: seq<byte> -> Result<T>, f: (ContractRow, Option<T>) -> bool)
    requires |blobs| < U32_MOD && AllFit32(blobs) && |rows| == |blobs|
    requires forall i :: 0 <= i < |blobs| ==> WithPayload(unpackRow, unpackValue, blobs[i]) == Ok(rows[i])
    ensures var k := VisitCount(rows, PairCallback(f));
      ForEachContractRow(EncodeBlobs(blobs) + rest, unpackRow, unpackValue, f)
        == Ok(Visit(blobs[..k], rows[..k], forall i :: 0 <= i < |rows| ==> f(rows[i].0, rows[i].1)))
  {
    var unpack := PayloadUnpacker(unpackRow, unpackValue);
    forall i | 0 <= i < |blobs| ensures unpack(blobs[i]) == Ok(rows[i]) {
      assert WithPayload(unpackRow, unpackValue, blobs[i]) == Ok(rows[i]);
    }
    ForEachQueryResultEncoded(blobs, rest, rows, unpack, PairCallback(f));
    assert (forall i :: 0 <= i < |rows| ==> PairCallback(f)(rows[i]))
       <==> (forall i :: 0 <= i < |rows| ==> f(rows[i].0, rows[i].1));
  }
}
