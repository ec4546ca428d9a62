/** The host functions a query module imports from `env`.

    A running module reaches the host only through these callbacks. Guest
    pointers are offsets into the module's linear memory; the host turns
    them into native pointers by adding the memory's base, which preserves
    their order, so offsets stand for them here. Memory is a total map from
    offset to byte: the host never checks that a range lies inside the
    memory (its bounds check only compares the two ends), and the model
    does not invent a check it does not make.

    Callbacks that hand data back to the guest do it through an allocator
    the guest supplies: the host calls back into the module through the
    VM's function table, expects a 32-bit offset back, and copies the data
    there.
 */
module Callbacks {

  import opened Ints
  import opened Errors
  import opened Bytes
  import opened DatabaseStatus
  import opened Storage

  /** The module's linear memory, by offset. */
  type Memory = nat -> byte

  /** A byte range a module can hand to the host: its ends are 32-bit offsets. */
  type Buffer = b: seq<byte> | |b| < U32_MOD

  /** The per-thread state the host keeps while it serves a request. */
  datatype ThreadState = ThreadState(
    /** The unread part of the module's input (`request.pos` to `request.end`). */
    request: seq<byte>,
    /** The last output a module set. */
    reply: Buffer,
    /** The serialised database status of the current attempt. */
    databaseStatus: seq<byte>,
    /** The fill status read at the start of the current attempt. */
    fillStatus: FillStatus,
    /** The open query session, if any. */
    session: Option<Session>)

  /** The bytes of `mem` from `begin` up to, not including, `end`. */
  function Slice(mem: Memory, begin: nat, end: nat): (r: seq<byte>)
    requires begin <= end
    ensures |r| == end - begin
  {
    seq(end - begin, i requires 0 <= i < end - begin => mem(begin + i))
  }

  /** `memcpy(mem + at, data, |data|)`. */
  function Write(mem: Memory, at: nat, data: seq<byte>): Memory
  {
    (i: nat) => if at <= i < at + |data| then data[i - at] else mem(i)
  }

  /** What was copied in is what is read back. */
  lemma SliceWrite(mem: Memory, at: nat, data: seq<byte>)
    ensures Slice(Write(mem, at, data), at, at + |data|) == data
  {
  }

  /** A copy touches only its destination range. */
  lemma WriteFrame(mem: Memory, at: nat, data: seq<byte>, i: nat)
    requires i < at || at + |data| <= i
    ensures Write(mem, at, data)(i) == mem(i)
  {
  }

  // ---------------------------------------------------------------------
  // Bounds check and guest allocation

  /** `check_bounds`: a range is rejected only when it ends before it begins. */
  function CheckBounds(begin: nat, end: nat): (r: Outcome)
    ensures r.Failed? <==> begin > end
    ensures r.Failed? ==> r.error == BadMemory
  {
    if begin > end then Failed(BadMemory) else Pass
  }

  /** The extent of a range is never checked: any well-ordered range passes,
      however far past the end of the module's memory it reaches. */
  lemma CheckBoundsIgnoresExtent(begin: nat, size: nat)
    ensures CheckBounds(begin, begin + size) == Pass
  {
  }

  /** The value a WebAssembly function returns, by type. */
  datatype WasmValue = I32(bits: u32) | I64(bits64: u64) | F32(bits32: u32) | F64(bitsF64: u64)

  /** The VM running the guest's allocator `cb_alloc(cb_alloc_data, size)`
      from the function table, given the memory, `cb_alloc_data`, the table
      index `cb_alloc` and `size`; it yields the returned value, if any, and
      the memory as the allocator left it. */
  type GuestAlloc = (Memory, u32, u32, u32) -> Result<(Option<WasmValue>, Memory)>

  /** `alloc`: ask the guest for `size` bytes and return the offset it gives. */
  function Alloc(call: GuestAlloc, mem: Memory, data: u32, fn: u32, size: u32): (r: Result<(nat, Memory)>)
    ensures call(mem, data, fn, size).Fail? ==> r == Fail(call(mem, data, fn, size).error)
    ensures call(mem, data, fn, size).Ok? ==>
      var (v, after) := call(mem, data, fn, size).value;
      && (r.Ok? <==> v.Some? && v.value.I32?)
      && (r.Ok? ==> r.value == (v.value.bits, after))
      && (r.Fail? ==> r.error == AllocWrongType)
  {
    var (v, after) :- call(mem, data, fn, size);
    if v.None? || !v.value.I32? then Fail(AllocWrongType)
    else
      var begin := v.value.bits;
      match CheckBounds(begin, begin + size)
      case Failed(e) => Fail(e)
      case Pass => Ok((begin, after))
  }

  /** Allocate `|data|` bytes in the guest and copy `data` there; the size
      passed to the guest is the length cast to 32 bits. */
  function AllocAndCopy(call: GuestAlloc, mem: Memory, data: u32, fn: u32, bytes: seq<byte>)
    : (r: Result<(nat, Memory)>)
    ensures r.Ok? <==> Alloc(call, mem, data, fn, TruncU32(|bytes|)).Ok?
    ensures r.Ok? ==> Slice(r.value.1, r.value.0, r.value.0 + |bytes|) == bytes
    ensures r.Ok? ==> r.value.0 == Alloc(call, mem, data, fn, TruncU32(|bytes|)).value.0
    ensures r.Ok? ==> forall i: nat :: i < r.value.0 || r.value.0 + |bytes| <= i ==>
      r.value.1(i) == Alloc(call, mem, data, fn, TruncU32(|bytes|)).value.1(i)
  {
    var (at, after) :- Alloc(call, mem, data, fn, TruncU32(|bytes|));
    SliceWrite(after, at, bytes);
    Ok((at, Write(after, at, bytes)))
  }

  // ---------------------------------------------------------------------
  // The imported functions

  /** `abort`: always fails. */
  function Abort(): (r: Outcome)
    ensures r.Failed? && r.error == Aborted
  {
    Failed(Aborted)
  }

  /** `eosio_assert_message`: fails exactly when the test is false, with the
      `len` bytes at `msg` as the message; the message range is not
      bounds-checked. */
  function AssertMessage(test: bool, mem: Memory, msg: u32, len: u32): (r: Outcome)
    ensures r.Pass? <==> test
    ensures r.Failed? ==> r.error.AssertFailed? && |r.error.text| == len
    ensures r.Failed? ==> forall i :: 0 <= i < len ==> r.error.text[i] == mem(msg + i)
  {
    if !test then Failed(AssertFailed(Slice(mem, msg, msg + len))) else Pass
  }

  /** `get_database_status`: copy the serialised status into a guest block. */
  function GetDatabaseStatus(st: ThreadState, call: GuestAlloc, mem: Memory, data: u32, fn: u32)
    : (r: Result<(nat, Memory)>)
    ensures r.Ok? ==> Slice(r.value.1, r.value.0, r.value.0 + |st.databaseStatus|) == st.databaseStatus
    ensures r.Ok? <==> Alloc(call, mem, data, fn, TruncU32(|st.databaseStatus|)).Ok?
    ensures r.Ok? ==> r.value.0 == Alloc(call, mem, data, fn, TruncU32(|st.databaseStatus|)).value.0
  {
    AllocAndCopy(call, mem, data, fn, st.databaseStatus)
  }

  /** What the guest library's `get_database_status` returns is the fill
      status of the current attempt, whenever the host has serialised it. */
  lemma GuestSeesFillStatus(st: ThreadState, call: GuestAlloc, mem: Memory, data: u32, fn: u32)
    requires st.databaseStatus == EncodeStatus(st.fillStatus)
    requires GetDatabaseStatus(st, call, mem, data, fn).Ok?
    ensures var (at, after) := GetDatabaseStatus(st, call, mem, data, fn).value;
      DecodeStatus(Slice(after, at, at + STATUS_SIZE)) == Ok(st.fillStatus)
  {
    DecodeEncodeStatus(st.fillStatus, []);
    assert EncodeStatus(st.fillStatus) + [] == EncodeStatus(st.fillStatus);
  }

  /** `get_input_data`: copy the unread input into a guest block; the input
      itself is not consumed. */
  function GetInputData(st: ThreadState, call: GuestAlloc, mem: Memory, data: u32, fn: u32)
    : (r: Result<(nat, Memory)>)
    ensures r.Ok? <==> Alloc(call, mem, data, fn, TruncU32(|st.request|)).Ok?
    ensures r.Ok? ==> r.value.0 == Alloc(call, mem, data, fn, TruncU32(|st.request|)).value.0
    ensures r.Ok? ==> Slice(r.value.1, r.value.0, r.value.0 + |st.request|) == st.request
    ensures r.Ok? ==> forall i: nat :: i < r.value.0 || r.value.0 + |st.request| <= i ==>
      r.value.1(i) == Alloc(call, mem, data, fn, TruncU32(|st.request|)).value.1(i)
  {
    AllocAndCopy(call, mem, data, fn, st.request)
  }

  /** `set_output_data`: the range becomes the reply; nothing else changes. */
  function SetOutputData(st: ThreadState, mem: Memory, begin: u32, end: u32): (r: Result<ThreadState>)
    ensures r.Fail? <==> begin > end
    ensures r.Fail? ==> r.error == BadMemory
    ensures r.Ok? ==> |r.value.reply| == end - begin
    ensures r.Ok? ==> forall i :: 0 <= i < |r.value.reply| ==> r.value.reply[i] == mem(begin + i)
    ensures r.Ok? ==> r.value == st.(reply := r.value.reply)
  {
    match CheckBounds(begin, end)
    case Failed(e) => Fail(e)
    case Pass => Ok(st.(reply := Slice(mem, begin, end)))
  }

  /** Only the last output counts. */
  lemma SetOutputDataLastWins(st: ThreadState, mem: Memory, b1: u32, e1: u32, b2: u32, e2: u32)
    requires b1 <= e1
    ensures SetOutputData(SetOutputData(st, mem, b1, e1).value, mem, b2, e2) == SetOutputData(st, mem, b2, e2)
  {
  }

  /** `query_database`: pass the request range to the session, read at the
      head captured when the attempt began, and copy the result into a
      guest block. */
  function QueryDatabase(engine: Engine, st: ThreadState, mem: Memory, reqBegin: u32, reqEnd: u32,
                         call: GuestAlloc, data: u32, fn: u32): (r: Result<(nat, Memory)>)
    requires st.session.Some?
    ensures reqBegin > reqEnd ==> r == Fail(BadMemory)
    ensures r.Ok? ==> reqBegin <= reqEnd
    ensures r.Ok? ==>
      var answer := engine.query(st.session.value, Slice(mem, reqBegin, reqEnd), st.fillStatus.head);
      && answer.Ok?
      && Slice(r.value.1, r.value.0, r.value.0 + |answer.value|) == answer.value
    ensures reqBegin <= reqEnd ==>
      var answer := engine.query(st.session.value, Slice(mem, reqBegin, reqEnd), st.fillStatus.head);
      && (answer.Fail? ==> r == Fail(answer.error))
      && (answer.Ok? ==> (r.Ok? <==> Alloc(call, mem, data, fn, TruncU32(|answer.value|)).Ok?))
      && (answer.Ok? && r.Ok? ==> r.value.0 == Alloc(call, mem, data, fn, TruncU32(|answer.value|)).value.0)
  {
    match CheckBounds(reqBegin, reqEnd)
    case Failed(e) => Fail(e)
    case Pass =>
      var answer :- engine.query(st.session.value, Slice(mem, reqBegin, reqEnd), st.fillStatus.head);
      AllocAndCopy(call, mem, data, fn, answer)
  }

  /** `print_range`: the bytes written to the console, none when the
      console is off. */
  function PrintRange(console: bool, mem: Memory, begin: u32, end: u32): (r: Result<seq<byte>>)
    ensures r.Fail? <==> begin > end
    ensures r.Fail? ==> r.error == BadMemory
    ensures r.Ok? && !console ==> r.value == []
    ensures r.Ok? && console ==> |r.value| == end - begin
    ensures r.Ok? && console ==> forall i :: 0 <= i < |r.value| ==> r.value[i] == mem(begin + i)
  {
    match CheckBounds(begin, end)
    case Failed(e) => Fail(e)
    case Pass => Ok(if console then Slice(mem, begin, end) else [])
  }
}
