/** Serving a request with query modules.

    A request is a list of sub-queries, each naming a namespace (only
    `local` is served), a module and the module's own input. Every
    attempt of the retry loop runs the sub-queries in order against one
    query session, each in a fresh instance of its module, and checks
    after each one that the head block it read is still the head the
    session reported; if not, a fork happened and the whole request is
    tried again. The answer is the list of the modules' replies in the
    same framing as the request.

    The legacy entry point runs a single module named `legacy` on an input
    made of the request target and body.
 */
module WasmQl {

  import opened Ints
  import opened Errors
  import opened Bytes
  import opened DatabaseStatus
  import opened Storage
  import opened Callbacks
  import opened Retry

  /** The account names `local` and `legacy` as 64-bit names. */
  const LOCAL: u64 := 0x8d10688000000000
  const LEGACY: u64 := 0x8a98647800000000

  // ---------------------------------------------------------------------
  // Modules

  /** What one entry point of a module did: how it ended and the output it
      last set with `set_output_data`, if it set one. */
  datatype EntryRun = EntryRun(outcome: Outcome, output: Option<Buffer>)

  /** A fresh instance of a module running `initialize` and then
      `run_query` (the second is ignored when the first fails). */
  datatype ModuleRun = ModuleRun(initialize: EntryRun, runQuery: EntryRun)

  datatype Host = Host(
    /** The directory query modules are loaded from. */
    wasmDir: string,
    /** The text of a 64-bit name. */
    nameText: u64 -> string,
    /** Loading the file at a path, instantiating it and running both entry
        points, with the thread state as it is when the module starts. */
    vm: (string, ThreadState) -> ModuleRun)

  /** `<wasm_dir>/<name>-server.wasm`. */
  function ModuleFile(wasmDir: string, name: string): (path: string)
    ensures |path| == |wasmDir| + |name| + 13
    ensures path[..|wasmDir|] == wasmDir && path[|wasmDir|] == '/'
    ensures path[|wasmDir| + 1..|wasmDir| + 1 + |name|] == name
    ensures path[|wasmDir| + 1 + |name|..] == "-server.wasm"
  {
    wasmDir + "/" + name + "-server.wasm"
  }

  /** Different module names load different files. */
  lemma ModuleFileInjective(wasmDir: string, a: string, b: string)
    requires ModuleFile(wasmDir, a) == ModuleFile(wasmDir, b)
    ensures a == b
  {
  }

  /** Output set by an entry point replaces the reply; without one the
      reply from before survives. */
  function Apply(st: ThreadState, output: Option<Buffer>): ThreadState
  {
    match output
    case None => st
    case Some(b) => st.(reply := b)
  }

  /** `run_query`: run the module named `short` on the current thread state. */
  function RunModule(host: Host, st: ThreadState, short: u64): (r: (Outcome, ThreadState))
    ensures r.1 == st.(reply := r.1.reply)
    ensures var run := host.vm(ModuleFile(host.wasmDir, host.nameText(short)), st);
      && (r.0.Pass? <==> run.initialize.outcome.Pass? && run.runQuery.outcome.Pass?)
      && (run.initialize.outcome.Failed? ==> r.0 == run.initialize.outcome && r.1 == Apply(st, run.initialize.output))
      && (run.initialize.outcome.Pass? ==> r.0 == run.runQuery.outcome)
      && (run.runQuery.output.Some? && run.initialize.outcome.Pass? ==> r.1.reply == run.runQuery.output.value)
      && (run.runQuery.output.None? && run.initialize.output.Some? ==> r.1.reply == run.initialize.output.value)
      && (run.runQuery.output.None? && run.initialize.output.None? ==> r.1.reply == st.reply)
  {
    var run := host.vm(ModuleFile(host.wasmDir, host.nameText(short)), st);
    var afterInit := Apply(st, run.initialize.output);
    match run.initialize.outcome
    case Failed(_) => (run.initialize.outcome, afterInit)
    case Pass => (run.runQuery.outcome, Apply(afterInit, run.runQuery.output))
  }

  /** `did_fork`, as the session's `probe`-th block-id lookup: the block at
      the head height the attempt started from is missing from the session,
      or has another id. */
  function DidFork(engine: Engine, session: Session, probe: nat, st: ThreadState): (r: bool)
    ensures !r <==> engine.blockId(session, probe, st.fillStatus.head) == Some(st.fillStatus.headId)
  {
    match engine.blockId(session, probe, st.fillStatus.head)
    case None => true
    case Some(id) => id != st.fillStatus.headId
  }

  // ---------------------------------------------------------------------
  // Multiplexed requests

  /** One sub-query: namespace, module name and the module's input. */
  datatype SubQuery = SubQuery(ns: u64, name: u64, input: seq<byte>)

  function EncodeSubQuery(q: SubQuery): seq<byte>
  {
    EncodeU64(q.ns) + EncodeU64(q.name) + q.input
  }

  function ParseSubQuery(blob: seq<byte>): (r: Result<SubQuery>)
    ensures r.Ok? <==> 16 <= |blob|
  {
    var (ns, rest) :- ReadU64(blob);
    var (name, input) :- ReadU64(rest);
    Ok(SubQuery(ns, name, input))
  }

  lemma ParseEncodeSubQuery(q: SubQuery)
    ensures ParseSubQuery(EncodeSubQuery(q)) == Ok(q)
  {
    var rest := EncodeU64(q.name) + q.input;
    assert EncodeSubQuery(q) == EncodeU64(q.ns) + rest;
    ReadEncodeU64(q.ns, rest);
    ReadEncodeU64(q.name, q.input);
  }

  function ParseAll(blobs: seq<seq<byte>>): (r: Result<seq<SubQuery>>)
    ensures r.Ok? ==> |r.value| == |blobs|
    ensures r.Ok? ==> forall i :: 0 <= i < |blobs| ==> ParseSubQuery(blobs[i]) == Ok(r.value[i])
  {
    if |blobs| == 0 then Ok([])
    else
      var q :- ParseSubQuery(blobs[0]);
      var qs :- ParseAll(blobs[1..]);
      Ok([q] + qs)
  }

  /** A request as the list of sub-queries it frames. */
  function ParseMultiplexed(request: seq<byte>): (r: Result<seq<SubQuery>>)
    ensures r.Ok? ==> ReadVaruint32(request).Ok? && |r.value| == ReadVaruint32(request).value.0
  {
    var blobs :- DecodeBlobs(request);
    ParseAll(blobs)
  }

  function EncodeMultiplexed(qs: seq<SubQuery>): seq<byte>
  {
    EncodeBlobs(seq(|qs|, i requires 0 <= i < |qs| => EncodeSubQuery(qs[i])))
  }

  lemma {:induction false} ParseAllEncoded(qs: seq<SubQuery>)
    ensures ParseAll(seq(|qs|, i requires 0 <= i < |qs| => EncodeSubQuery(qs[i]))) == Ok(qs)
  {
    var blobs := seq(|qs|, i requires 0 <= i < |qs| => EncodeSubQuery(qs[i]));
    if |qs| > 0 {
      ParseEncodeSubQuery(qs[0]);
      ParseAllEncoded(qs[1..]);
      assert blobs[1..] == seq(|qs[1..]|, i requires 0 <= i < |qs[1..]| => EncodeSubQuery(qs[1..][i]));
      assert [qs[0]] + qs[1..] == qs;
    }
  }

  /** A framed request parses back into its sub-queries. */
  lemma ParseEncodeMultiplexed(qs: seq<SubQuery>, rest: seq<byte>)
    requires |qs| < U32_MOD
    requires forall i :: 0 <= i < |qs| ==> |EncodeSubQuery(qs[i])| < U32_MOD
    ensures ParseMultiplexed(EncodeMultiplexed(qs) + rest) == Ok(qs)
  {
    var blobs := seq(|qs|, i requires 0 <= i < |qs| => EncodeSubQuery(qs[i]));
    assert AllFit32(blobs);
    DecodeEncodeBlobs(blobs, rest);
    ParseAllEncoded(qs);
  }

  // ---------------------------------------------------------------------
  // query

  /** The answer being built (`result`): the sub-query count written first,
      then one reply per sub-query run so far. */
  datatype Answer = Answer(count: u32, replies: seq<Buffer>)

  /** The bytes of the answer: the count, then each reply length-prefixed. */
  function AnswerBytes(a: Answer): seq<byte>
  {
    EncodeVaruint(a.count) + EncodeBlobSeq(a.replies)
  }

  /** One sub-query of an attempt, the `index`-th: read its namespace (only
      `local` is served) and module name, run the module on the rest, then
      check for a fork with the session's `index`-th lookup. True means
      "go on". */
  function RunSubQuery(engine: Engine, host: Host, session: Session, index: nat, sub: seq<byte>,
                       st: ThreadState): (r: (Result<bool>, ThreadState))
    ensures ReadU64(sub).Fail? ==> r == (Fail(ReadU64(sub).error), st.(request := sub))
    ensures ReadU64(sub).Ok? && ReadU64(sub).value.0 == LOCAL && ParseSubQuery(sub).Fail? ==>
      r == (Fail(ParseSubQuery(sub).error), st.(request := sub[8..]))
    ensures ReadU64(sub).Ok? && ReadU64(sub).value.0 != LOCAL ==>
      r == (Fail(UnknownNamespace(ReadU64(sub).value.0)), st.(request := sub[8..]))
    ensures ParseSubQuery(sub).Ok? && ParseSubQuery(sub).value.ns == LOCAL ==>
      var q := ParseSubQuery(sub).value;
      var (outcome, after) := RunModule(host, st.(request := q.input), q.name);
      && r.1 == after
      && (outcome.Failed? ==> r.0 == Fail(outcome.error))
      && (outcome.Pass? ==> r.0 == Ok(!DidFork(engine, session, index, after)))
  {
    var st1 := st.(request := sub);
    match ReadU64(sub)
    case Fail(e) => (Fail(e), st1)
    case Ok((ns, afterNs)) =>
      var st2 := st1.(request := afterNs);
      if ns != LOCAL then (Fail(UnknownNamespace(ns)), st2)
      else
        match ReadU64(afterNs)
        case Fail(e) => (Fail(e), st2)
        case Ok((short, input)) =>
          var (outcome, st3) := RunModule(host, st2.(request := input), short);
          if outcome.Failed? then (Fail(outcome.error), st3)
          else (Ok(!DidFork(engine, session, index, st3)), st3)
  }

  /** What running parsed sub-queries, the first of them the `index`-th of
      the attempt, comes to: each `local` one runs its module on its own
      input and on the state the one before it left, and the run stops at
      the first foreign namespace, failing module or fork. `replies` holds
      the reply of every sub-query that went on, in order. */
  datatype Expected = Expected(verdict: Result<bool>, st: ThreadState, replies: seq<Buffer>)

  function ExpectedRun(engine: Engine, host: Host, session: Session, qs: seq<SubQuery>, index: nat,
                       st: ThreadState): (w: Expected)
    ensures |w.replies| <= |qs|
    ensures w.verdict == Ok(true) ==> |w.replies| == |qs|
    decreases |qs|
  {
    if |qs| == 0 then Expected(Ok(true), st, [])
    else
      var q := qs[0];
      if q.ns != LOCAL then Expected(Fail(UnknownNamespace(q.ns)), st, [])
      else
        var (outcome, after) := RunModule(host, st.(request := q.input), q.name);
        if outcome.Failed? then Expected(Fail(outcome.error), after, [])
        else if DidFork(engine, session, index, after) then Expected(Ok(false), after, [])
        else
          var w := ExpectedRun(engine, host, session, qs[1..], index + 1, after);
          w.(replies := [after.reply] + w.replies)
  }

  /** A fork can first show after a later sub-query: then the attempt
      answers false with the replies of the sub-queries before it. */
  lemma ForkAfterSecond(engine: Engine, host: Host, session: Session, q1: SubQuery, q2: SubQuery,
                        st: ThreadState)
    requires q1.ns == LOCAL && q2.ns == LOCAL
    requires var (o1, s1) := RunModule(host, st.(request := q1.input), q1.name);
      && o1.Pass? && !DidFork(engine, session, 0, s1)
      && var (o2, s2) := RunModule(host, s1.(request := q2.input), q2.name);
         o2.Pass? && DidFork(engine, session, 1, s2)
    ensures var s1 := RunModule(host, st.(request := q1.input), q1.name).1;
      var s2 := RunModule(host, s1.(request := q2.input), q2.name).1;
      ExpectedRun(engine, host, session, [q1, q2], 0, st) == Expected(Ok(false), s2, [s1.reply])
  {
  }

  /** The sub-queries still to run in one attempt: `n` framed sub-queries
      at the front of `bin`, the first of them the `index`-th. */
  function SubQueries(engine: Engine, host: Host, session: Session, bin: seq<byte>, index: nat, n: nat,
                      st: ThreadState, acc: Answer): (a: Attempt<Answer>)
    ensures a.acc.count == acc.count
    ensures |acc.replies| <= |a.acc.replies| && a.acc.replies[..|acc.replies|] == acc.replies
    ensures a.verdict == Ok(true) ==> |a.acc.replies| == |acc.replies| + n
    ensures n > 0 && a.verdict == Ok(true) ==> a.acc.replies[|a.acc.replies| - 1] == a.st.reply
    decreases n
  {
    if n == 0 then Attempt(Ok(true), st, acc)
    else
      match ReadBytes(bin)
      case Fail(e) => Attempt(Fail(e), st, acc)
      case Ok((sub, more)) =>
        var (verdict, after) := RunSubQuery(engine, host, session, index, sub, st);
        if verdict != Ok(true) then Attempt(verdict, after, acc)
        else
          var grown := acc.replies + [after.reply];
          var a := SubQueries(engine, host, session, more, index + 1, n - 1, after, Answer(acc.count, grown));
          assert a.acc.replies[..|acc.replies|] == grown[..|acc.replies|];
          a
  }

  /** The first of `n` framed sub-queries that all parse, and the rest. */
  lemma ReadParseCons(bin: seq<byte>, n: nat)
    requires n > 0 && ReadBlobs(bin, n).Ok? && ParseAll(ReadBlobs(bin, n).value.0).Ok?
    ensures ReadBytes(bin).Ok? && ReadBlobs(ReadBytes(bin).value.1, n - 1).Ok?
    ensures var qs := ParseAll(ReadBlobs(bin, n).value.0).value;
      && ParseSubQuery(ReadBytes(bin).value.0) == Ok(qs[0])
      && ParseAll(ReadBlobs(ReadBytes(bin).value.1, n - 1).value.0) == Ok(qs[1..])
  {
  }

  /** The first step of the reference run agrees with running the first
      sub-query from its bytes. */
  lemma ExpectedRunStep(engine: Engine, host: Host, session: Session, qs: seq<SubQuery>, index: nat,
                        st: ThreadState, sub: seq<byte>)
    requires |qs| > 0 && ParseSubQuery(sub) == Ok(qs[0])
    ensures var (verdict, after) := RunSubQuery(engine, host, session, index, sub, st);
      var w := ExpectedRun(engine, host, session, qs, index, st);
      && (verdict != Ok(true) ==> w.verdict == verdict && w.replies == [] && (verdict.Ok? ==> w.st == after))
      && (verdict == Ok(true) ==>
            var rest := ExpectedRun(engine, host, session, qs[1..], index + 1, after);
            w == rest.(replies := [after.reply] + rest.replies))
  {
  }

  /** One step of `SubQueries`: run the first framed sub-query, then the
      rest only if it went on. */
  lemma SubQueriesStep(engine: Engine, host: Host, session: Session, bin: seq<byte>, index: nat, n: nat,
                       st: ThreadState, acc: Answer)
    requires n > 0 && ReadBytes(bin).Ok?
    ensures var (sub, more) := ReadBytes(bin).value;
      var (verdict, after) := RunSubQuery(engine, host, session, index, sub, st);
      SubQueries(engine, host, session, bin, index, n, st, acc)
        == if verdict != Ok(true) then Attempt(verdict, after, acc)
           else SubQueries(engine, host, session, more, index + 1, n - 1, after,
                           Answer(acc.count, acc.replies + [after.reply]))
  {
  }

  /** Whether an attempt's run of the sub-queries agrees with a reference
      run: same verdict, the replies of the reference after those already
      gathered, and the same state when the verdict is not a failure. */
  predicate Agrees(a: Attempt<Answer>, w: Expected, acc: Answer)
  {
    && a.verdict == w.verdict
    && a.acc == Answer(acc.count, acc.replies + w.replies)
    && (a.verdict.Ok? ==> a.st == w.st)
  }

  /** A first sub-query that does not go on ends both runs alike. */
  lemma MatchStop(engine: Engine, host: Host, session: Session, bin: seq<byte>, index: nat, n: nat,
                  st: ThreadState, acc: Answer, qs: seq<SubQuery>)
    requires n > 0 && ReadBytes(bin).Ok? && |qs| > 0 && ParseSubQuery(ReadBytes(bin).value.0) == Ok(qs[0])
    requires RunSubQuery(engine, host, session, index, ReadBytes(bin).value.0, st).0 != Ok(true)
    ensures Agrees(SubQueries(engine, host, session, bin, index, n, st, acc),
                   ExpectedRun(engine, host, session, qs, index, st), acc)
  {
  }

  /** A first sub-query that goes on adds its reply in front of what the
      rest of both runs agree on. */
  lemma MatchGo(engine: Engine, host: Host, session: Session, bin: seq<byte>, index: nat, n: nat,
                st: ThreadState, acc: Answer, qs: seq<SubQuery>)
    requires n > 0 && ReadBytes(bin).Ok? && |qs| > 0 && ParseSubQuery(ReadBytes(bin).value.0) == Ok(qs[0])
    requires var (verdict, after) := RunSubQuery(engine, host, session, index, ReadBytes(bin).value.0, st);
      && verdict == Ok(true)
      && Agrees(SubQueries(engine, host, session, ReadBytes(bin).value.1, index + 1, n - 1, after,
                           Answer(acc.count, acc.replies + [after.reply])),
                ExpectedRun(engine, host, session, qs[1..], index + 1, after),
                Answer(acc.count, acc.replies + [after.reply]))
    ensures Agrees(SubQueries(engine, host, session, bin, index, n, st, acc),
                   ExpectedRun(engine, host, session, qs, index, st), acc)
  {
    var sub := ReadBytes(bin).value.0;
    var after := RunSubQuery(engine, host, session, index, sub, st).1;
    ExpectedRunStep(engine, host, session, qs, index, st, sub);
    SubQueriesStep(engine, host, session, bin, index, n, st, acc);
    var rest := ExpectedRun(engine, host, session, qs[1..], index + 1, after);
    assert acc.replies + [after.reply] + rest.replies == acc.replies + ([after.reply] + rest.replies);
  }

  /** The bytes-level run of `n` framed sub-queries that all parse is the
      reference run of what they parse to: same verdict, and reply `i` of
      the answer is the reply of sub-query `i`'s module. */
  lemma {:induction false} SubQueriesMatch(engine: Engine, host: Host, session: Session, bin: seq<byte>,
                                          index: nat, n: nat, st: ThreadState, acc: Answer)
    requires ReadBlobs(bin, n).Ok? && ParseAll(ReadBlobs(bin, n).value.0).Ok?
    ensures Agrees(SubQueries(engine, host, session, bin, index, n, st, acc),
                   ExpectedRun(engine, host, session, ParseAll(ReadBlobs(bin, n).value.0).value, index, st), acc)
    decreases n
  {
    if n == 0 {
      assert acc.replies + [] == acc.replies;
    } else {
      ReadParseCons(bin, n);
      var (sub, more) := ReadBytes(bin).value;
      var qs := ParseAll(ReadBlobs(bin, n).value.0).value;
      var (verdict, after) := RunSubQuery(engine, host, session, index, sub, st);
      if verdict == Ok(true) {
        SubQueriesMatch(engine, host, session, more, index + 1, n - 1, after,
                        Answer(acc.count, acc.replies + [after.reply]));
        MatchGo(engine, host, session, bin, index, n, st, acc, qs);
      } else {
        MatchStop(engine, host, session, bin, index, n, st, acc, qs);
      }
    }
  }

  /** `SubQueriesMatch`, for any input: the match holds whenever the
      sub-queries all parse. */
  lemma SubQueriesFollowExpected(engine: Engine, host: Host, session: Session, bin: seq<byte>,
                                 index: nat, n: nat, st: ThreadState, acc: Answer)
    ensures ReadBlobs(bin, n).Ok? && ParseAll(ReadBlobs(bin, n).value.0).Ok? ==>
      Agrees(SubQueries(engine, host, session, bin, index, n, st, acc),
             ExpectedRun(engine, host, session, ParseAll(ReadBlobs(bin, n).value.0).value, index, st), acc)
  {
    if ReadBlobs(bin, n).Ok? && ParseAll(ReadBlobs(bin, n).value.0).Ok? {
      SubQueriesMatch(engine, host, session, bin, index, n, st, acc);
    }
  }

  /** One attempt of `query`: read the sub-query count, restart the answer
      and run the sub-queries. On a request that parses it is the reference
      run of its sub-queries. */
  function QueryOnce(engine: Engine, host: Host, request: seq<byte>, session: Session,
                     st: ThreadState, acc: Answer): (a: Attempt<Answer>)
    ensures ReadVaruint32(request).Fail? ==> a == Attempt(Fail(ReadVaruint32(request).error), st, acc)
    ensures ReadVaruint32(request).Ok? ==> a.acc.count == ReadVaruint32(request).value.0
    ensures ParseMultiplexed(request).Ok? ==>
      var w := ExpectedRun(engine, host, session, ParseMultiplexed(request).value, 0, st);
      && a.verdict == w.verdict
      && a.acc.replies == w.replies
      && (a.verdict.Ok? ==> a.st == w.st)
  {
    match ReadVaruint32(request)
    case Fail(e) => Attempt(Fail(e), st, acc)
    case Ok((n, bin)) =>
      SubQueriesFollowExpected(engine, host, session, bin, 0, n, st, Answer(n, []));
      SubQueries(engine, host, session, bin, 0, n, st, Answer(n, []))
  }

  /** The attempt `query` hands to the retry loop. */
  function QueryAttempt(engine: Engine, host: Host, request: seq<byte>): AttemptFn<Answer>
  {
    (session: Session, st: ThreadState, acc: Answer) => QueryOnce(engine, host, request, session, st, acc)
  }

  /** A successful run of `n` sub-queries read `n` well-formed local
      sub-queries. */
  lemma {:induction false} SubQueriesParsed(engine: Engine, host: Host, session: Session, bin: seq<byte>,
                                           index: nat, n: nat, st: ThreadState, acc: Answer)
    requires SubQueries(engine, host, session, bin, index, n, st, acc).verdict == Ok(true)
    ensures ReadBlobs(bin, n).Ok? && ParseAll(ReadBlobs(bin, n).value.0).Ok?
    ensures forall i :: 0 <= i < n ==> ParseAll(ReadBlobs(bin, n).value.0).value[i].ns == LOCAL
    decreases n
  {
    if n > 0 {
      assert ReadBytes(bin).Ok?;
      SubQueriesStep(engine, host, session, bin, index, n, st, acc);
      var (sub, more) := ReadBytes(bin).value;
      var (verdict, after) := RunSubQuery(engine, host, session, index, sub, st);
      assert verdict == Ok(true);
      SubQueriesParsed(engine, host, session, more, index + 1, n - 1, after, Answer(acc.count, acc.replies + [after.reply]));
      var tail := ReadBlobs(more, n - 1).value.0;
      var blobs := ReadBlobs(bin, n).value.0;
      assert blobs == [sub] + tail;
      ParseAllCons(sub, tail);
    }
  }

  lemma ParseAllCons(sub: seq<byte>, tail: seq<seq<byte>>)
    requires ParseSubQuery(sub).Ok? && ParseAll(tail).Ok?
    requires ParseSubQuery(sub).value.ns == LOCAL
    requires forall i :: 0 <= i < |tail| ==> ParseAll(tail).value[i].ns == LOCAL
    ensures ParseAll([sub] + tail).Ok?
    ensures forall i :: 0 <= i < |tail| + 1 ==> ParseAll([sub] + tail).value[i].ns == LOCAL
  {
  }

  /** The answer to a request that every sub-query of which succeeded is
      the framed list of their replies, one per sub-query. */
  lemma QueryAttemptAnswer(engine: Engine, host: Host, request: seq<byte>, session: Session,
                           st: ThreadState, acc: Answer)
    requires QueryAttempt(engine, host, request)(session, st, acc).verdict == Ok(true)
    ensures ParseMultiplexed(request).Ok?
    ensures forall i :: 0 <= i < |ParseMultiplexed(request).value| ==> ParseMultiplexed(request).value[i].ns == LOCAL
    ensures var ans := QueryAttempt(engine, host, request)(session, st, acc).acc;
      && |ans.replies| == |ParseMultiplexed(request).value|
      && AnswerBytes(ans) == EncodeBlobs(ans.replies)
      && DecodeBlobs(AnswerBytes(ans)) == Ok(ans.replies)
  {
    var (n, bin) := ReadVaruint32(request).value;
    SubQueriesParsed(engine, host, session, bin, 0, n, st, Answer(n, []));
    var ans := SubQueries(engine, host, session, bin, 0, n, st, Answer(n, []));
    assert ans.acc.replies[..0] == [];
    assert AllFit32(ans.acc.replies);
    DecodeEncodeBlobs(ans.acc.replies, []);
    assert EncodeBlobs(ans.acc.replies) + [] == EncodeBlobs(ans.acc.replies);
  }

  /** The answer is restarted by every attempt that reads its count: what
      an earlier, forked attempt had gathered has no influence on it. */
  lemma QueryAttemptRestarts(engine: Engine, host: Host, request: seq<byte>, session: Session,
                             st: ThreadState, acc1: Answer, acc2: Answer)
    requires ReadVaruint32(request).Ok?
    ensures QueryAttempt(engine, host, request)(session, st, acc1)
         == QueryAttempt(engine, host, request)(session, st, acc2)
    ensures var a := QueryAttempt(engine, host, request)(session, st, acc1);
      a.verdict == Ok(true) ==> a.acc.count == ReadVaruint32(request).value.0
  {
  }

  /** `query`: run the attempts of a multiplexed request. Besides the
      result it yields, as ghosts, the number of attempts that ran and the
      state the last one started from. */
  method Query(engine: Engine, host: Host, st0: ThreadState, request: seq<byte>)
    returns (r: Result<seq<byte>>, st: ThreadState, ghost calls: nat, ghost last: ThreadState)
    ensures var res := RetryFrom(engine, st0, Answer(0, []), QueryAttempt(engine, host, request), 0).result;
      r == if res.Ok? then Ok(AnswerBytes(res.value)) else Fail(res.error)
    ensures st.session.None?
    ensures calls <= MAX_TRIES
    ensures calls == 0 <==> engine.fill(engine.open(0)).head == 0
    ensures calls == 0 ==> r == Fail(EmptyDatabase)
    ensures calls > 0 ==> last == Ready(engine, last, calls - 1) && last.fillStatus.head != 0
    ensures calls > 0 && ReadVaruint32(request).Fail? ==> r == Fail(ReadVaruint32(request).error)
    ensures calls > 0 && ParseMultiplexed(request).Ok? ==>
      var w := ExpectedRun(engine, host, engine.open(calls - 1), ParseMultiplexed(request).value, 0, last);
      && (r.Ok? <==> w.verdict == Ok(true))
      && (r.Ok? ==> r.value == AnswerBytes(Answer(ReadVaruint32(request).value.0, w.replies)))
      && (w.verdict.Fail? ==> r == Fail(w.verdict.error))
      && (w.verdict == Ok(false) ==>
            || (calls == MAX_TRIES && r == Fail(TooManyForks))
            || (calls < MAX_TRIES && engine.fill(engine.open(calls)).head == 0 && r == Fail(EmptyDatabase)))
    ensures r.Ok? ==> ParseMultiplexed(request).Ok?
    ensures r.Ok? ==> forall i :: 0 <= i < |ParseMultiplexed(request).value| ==>
      ParseMultiplexed(request).value[i].ns == LOCAL
    ensures r.Ok? ==> DecodeBlobs(r.value).Ok? && |DecodeBlobs(r.value).value| == |ParseMultiplexed(request).value|
    ensures r.Ok? ==> r.value == EncodeBlobs(DecodeBlobs(r.value).value)
  {
    var f := QueryAttempt(engine, host, request);
    var res;
    ghost var lastAcc;
    res, st, calls, last, lastAcc := RetryLoop(engine, st0, Answer(0, []), f);
    if res.Ok? {
      QueryAttemptAnswer(engine, host, request, engine.open(calls - 1), last, lastAcc);
      r := Ok(AnswerBytes(res.value));
    } else {
      r := Fail(res.error);
    }
  }

  /** A request whose first sub-query is not in the `local` namespace fails
      on the first attempt, before any module runs: only its namespace has
      to be readable, and nothing after it is looked at. */
  lemma QueryRejectsForeignNamespace(engine: Engine, host: Host, st0: ThreadState, request: seq<byte>)
    requires ReadVaruint32(request).Ok? && ReadVaruint32(request).value.0 > 0
    requires ReadBytes(ReadVaruint32(request).value.1).Ok?
    requires ReadU64(ReadBytes(ReadVaruint32(request).value.1).value.0).Ok?
    requires ReadU64(ReadBytes(ReadVaruint32(request).value.1).value.0).value.0 != LOCAL
    requires engine.fill(engine.open(0)).head != 0
    ensures RetryFrom(engine, st0, Answer(0, []), QueryAttempt(engine, host, request), 0).result
         == Fail(UnknownNamespace(ReadU64(ReadBytes(ReadVaruint32(request).value.1).value.0).value.0))
    ensures RetryFrom(engine, st0, Answer(0, []), QueryAttempt(engine, host, request), 0).calls == 1
  {
  }

  /** The framing of a one-sub-query request: count one, then the
      sub-query as the only blob, which parses back. */
  lemma SingleSubQueryFraming(q: SubQuery)
    requires |EncodeSubQuery(q)| < U32_MOD
    ensures var blob := EncodeSubQuery(q);
      && ReadVaruint32(EncodeMultiplexed([q])) == Ok((1, EncodeBytes(blob)))
      && ReadBytes(EncodeBytes(blob)) == Ok((blob, []))
      && ParseSubQuery(blob) == Ok(q)
  {
    var blob := EncodeSubQuery(q);
    var blobs := seq(1, i requires 0 <= i < 1 => EncodeSubQuery([q][i]));
    assert blobs == [blob];
    assert EncodeBlobSeq([blob]) == EncodeBytes(blob) + [];
    assert EncodeBytes(blob) + [] == EncodeBytes(blob);
    ReadEncodeVaruint32(1, EncodeBytes(blob));
    ReadEncodeBytes(blob, []);
    ParseEncodeSubQuery(q);
  }

  /** A one-sub-query request on a database that does not fork answers with
      the reply of that module, run on the sub-query's own input and the
      status of the first session. */
  lemma QuerySingleLocal(engine: Engine, host: Host, st0: ThreadState, q: SubQuery)
    requires q.ns == LOCAL && |EncodeSubQuery(q)| < U32_MOD
    requires engine.fill(engine.open(0)).head != 0
    requires var ready := Ready(engine, st0, 0);
      var (outcome, st3) := RunModule(host, ready.(request := q.input), q.name);
      outcome.Pass? && !DidFork(engine, engine.open(0), 0, st3)
    ensures var ready := Ready(engine, st0, 0);
      var reply := RunModule(host, ready.(request := q.input), q.name).1.reply;
      RetryFrom(engine, st0, Answer(0, []), QueryAttempt(engine, host, EncodeMultiplexed([q])), 0).result
        == Ok(Answer(1, [reply]))
  {
    SingleSubQueryFraming(q);
    var ready := Ready(engine, st0, 0);
    var reply := RunModule(host, ready.(request := q.input), q.name).1.reply;
    var a := QueryAttempt(engine, host, EncodeMultiplexed([q]))(engine.open(0), ready, Answer(0, []));
    assert a.verdict == Ok(true) && a.acc == Answer(1, [reply]);
  }

  // ---------------------------------------------------------------------
  // legacy_query

  /** The legacy module's input: the target, then the request body, both
      length-prefixed. */
  function LegacyInput(target: seq<byte>, body: seq<byte>): seq<byte>
  {
    EncodeBytes(target) + EncodeBytes(body)
  }

  /** The legacy module reads back the target and the body it was given. */
  lemma LegacyInputRoundTrip(target: seq<byte>, body: seq<byte>)
    requires Fits32(target) && Fits32(body)
    ensures ReadBytes(LegacyInput(target, body)) == Ok((target, EncodeBytes(body)))
    ensures ReadBytes(EncodeBytes(body)) == Ok((body, []))
  {
    ReadEncodeBytes(target, EncodeBytes(body));
    ReadEncodeBytes(body, []);
    assert EncodeBytes(body) + [] == EncodeBytes(body);
  }

  /** One attempt of `legacy_query`: run `legacy`, then check for a fork
      with the session's first lookup. It is done exactly when the module
      passed and no fork was seen, and a failing module's error is passed
      on. */
  function LegacyOnce(engine: Engine, host: Host, session: Session, st: ThreadState): (a: Attempt<()>)
    ensures var (outcome, after) := RunModule(host, st, LEGACY);
      && a.st == after
      && a.st.request == st.request
      && (a.verdict == Ok(true) <==> outcome.Pass? && !DidFork(engine, session, 0, after))
      && (a.verdict == Ok(false) <==> outcome.Pass? && DidFork(engine, session, 0, after))
      && (outcome.Failed? ==> a.verdict == Fail(outcome.error))
  {
    var (outcome, st1) := RunModule(host, st, LEGACY);
    match outcome
    case Failed(e) => Attempt(Fail(e), st1, ())
    case Pass => Attempt(Ok(!DidFork(engine, session, 0, st1)), st1, ())
  }

  /** The attempt `legacy_query` hands to the retry loop. */
  function LegacyAttempt(engine: Engine, host: Host): AttemptFn<()>
  {
    (session: Session, st: ThreadState, acc: ()) => LegacyOnce(engine, host, session, st)
  }

  /** Running `legacy` leaves its input in place, so every attempt sees the same input. */
  lemma LegacyAttemptKeepsRequest(engine: Engine, host: Host)
    ensures forall s, t, a :: LegacyAttempt(engine, host)(s, t, a).st.request == t.request
  {
  }

  /** `legacy_query`: the reply of the last run of `legacy`. Besides the
      result it yields, as ghosts, the number of attempts and the state the
      last one ran `legacy` on. */
  method LegacyQuery(engine: Engine, host: Host, st0: ThreadState, target: seq<byte>, body: seq<byte>)
    returns (r: Result<Buffer>, st: ThreadState, ghost calls: nat, ghost last: ThreadState)
    ensures var run := RetryFrom(engine, st0.(request := LegacyInput(target, body)), (), LegacyAttempt(engine, host), 0);
      && st == run.st
      && r == if run.result.Ok? then Ok(run.st.reply) else Fail(run.result.error)
    ensures st.session.None?
    ensures st.request == LegacyInput(target, body)
    ensures calls <= MAX_TRIES
    ensures calls == 0 <==> engine.fill(engine.open(0)).head == 0
    ensures calls == 0 ==> r == Fail(EmptyDatabase)
    ensures calls > 0 ==>
      && last == Ready(engine, last, calls - 1)
      && last.fillStatus.head != 0
      && last.request == LegacyInput(target, body)
    ensures calls > 0 ==>
      var (outcome, after) := RunModule(host, last, LEGACY);
      && (r.Ok? <==> outcome.Pass? && !DidFork(engine, engine.open(calls - 1), 0, after))
      && (r.Ok? ==> r.value == after.reply && st.reply == after.reply)
      && (outcome.Failed? ==> r == Fail(outcome.error))
      && (outcome.Pass? && DidFork(engine, engine.open(calls - 1), 0, after) ==>
            || (calls == MAX_TRIES && r == Fail(TooManyForks))
            || (calls < MAX_TRIES && engine.fill(engine.open(calls)).head == 0 && r == Fail(EmptyDatabase)))
  {
    var input := LegacyInput(target, body);
    var f := LegacyAttempt(engine, host);
    var start := st0.(request := input);
    LegacyAttemptKeepsRequest(engine, host);
    var res;
    ghost var lastAcc;
    res, st, calls, last, lastAcc := RetryLoop(engine, start, (), f);
    if res.Ok? {
      r := Ok(st.reply);
    } else {
      r := Fail(res.error);
    }
  }
}
