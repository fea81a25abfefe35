/** The body of the event stream the completions relay returns: `start`
    pulls chunks from the upstream body's reader, passes each through a
    streaming `TextDecoder` and a `TextEncoder`, enqueues the result, and
    ends with `close()`, or with `error()` and then `close()` when a read
    fails (app/api/proxy/chat/completions/route.ts, lines 37-58). */
module StreamRelay {
  import opened Wrappers
  import opened Utf8

  /** How one `reader.read()` settles: a chunk, `done`, or a rejection. */
  datatype ReadResult = Chunk(value: seq<Byte>) | Done | ReadFailure(reason: string)

  /** A call made on the stream's controller. */
  datatype ControllerCall = EnqueueCall(bytes: seq<Byte>) | ErrorCall(reason: string) | CloseCall

  /** The state of the `ReadableStream` the controller drives. */
  datatype StreamState = Readable | Closed | Errored(reason: string)

  /** How the promise returned by `start` settles. */
  datatype StartOutcome = Fulfilled | Rejected(reason: string)

  /** What `close()` and `enqueue()` throw on a stream that is no longer
      readable. */
  const NotReadableTypeError := "TypeError"

  /** The upstream body's reader, scripted by the results its reads settle
      with; once the script is used up every read reports `done`. */
  class Reader {
    const outcomes: seq<ReadResult>
    var pos: nat

    constructor (outcomes: seq<ReadResult>)
      ensures this.outcomes == outcomes && pos == 0
    {
      this.outcomes := outcomes;
      pos := 0;
    }

    /** The results the next reads will settle with. */
    function Remaining(): seq<ReadResult>
      reads this
    {
      if pos <= |outcomes| then outcomes[pos..] else []
    }

    method Read() returns (r: ReadResult)
      modifies this
      ensures old(Remaining()) == [] ==> r == Done
      ensures old(Remaining()) != [] ==> r == old(Remaining())[0] && Remaining() == old(Remaining())[1..]
      ensures pos == old(pos) + 1
    {
      r := if pos < |outcomes| then outcomes[pos] else Done;
      pos := pos + 1;
    }
  }

  /** A `TextDecoder` used with `{stream: true}`. */
  class StreamingDecoder {
    var state: DecoderState

    constructor ()
      ensures state == FreshDecoder
    {
      state := FreshDecoder;
    }

    method Decode(chunk: seq<Byte>) returns (text: seq<Scalar>)
      modifies this
      ensures (text, state) == DecodeChunk(old(state), chunk)
    {
      var r := DecodeChunk(state, chunk);
      text, state := r.0, r.1;
    }
  }

  /** The `ReadableStreamDefaultController` handed to `start`: it records
      every call made on it, and changes the stream's state as the Streams
      standard says (`enqueue` and `close` throw unless the stream is
      readable; `error` does nothing unless it is). */
  class Controller {
    var state: StreamState
    var log: seq<ControllerCall>

    constructor ()
      ensures state == Readable && log == []
    {
      state := Readable;
      log := [];
    }

    method Enqueue(bytes: seq<Byte>) returns (threw: bool)
      modifies this
      ensures threw <==> old(state) != Readable
      ensures state == old(state) && log == old(log) + [EnqueueCall(bytes)]
    {
      threw := state != Readable;
      log := log + [EnqueueCall(bytes)];
    }

    method Error(reason: string)
      modifies this
      ensures state == if old(state) == Readable then Errored(reason) else old(state)
      ensures log == old(log) + [ErrorCall(reason)]
    {
      if state == Readable {
        state := Errored(reason);
      }
      log := log + [ErrorCall(reason)];
    }

    method Close() returns (threw: bool)
      modifies this
      ensures threw <==> old(state) != Readable
      ensures state == if threw then old(state) else Closed
      ensures log == old(log) + [CloseCall]
    {
      threw := state != Readable;
      if !threw {
        state := Closed;
      }
      log := log + [CloseCall];
    }
  }

  /** Everything one run of `start` does. */
  datatype RelayRun = RelayRun(
    calls: seq<ControllerCall>,  // the controller calls, in order
    readCalls: nat,              // how many times `read()` was called
    decoder: DecoderState,       // the decoder's state afterwards
    stream: StreamState,         // the stream's state afterwards
    outcome: StartOutcome)       // how `start` settled

  /** `start` on a readable stream, with the decoder in state `st` and the
      reader about to settle with `outcomes`. */
  function Relay(st: DecoderState, outcomes: seq<ReadResult>): (r: RelayRun)
    decreases |outcomes|
  {
    if outcomes == [] || outcomes[0].Done? then
      RelayRun([CloseCall], 1, st, Closed, Fulfilled)
    else if outcomes[0].ReadFailure? then
      var reason := outcomes[0].reason;
      RelayRun([ErrorCall(reason), CloseCall], 1, st, Errored(reason), Rejected(NotReadableTypeError))
    else
      var step := DecodeChunk(st, outcomes[0].value);
      var rest := Relay(step.1, outcomes[1..]);
      rest.(calls := [EnqueueCall(Encode(step.0))] + rest.calls, readCalls := rest.readCalls + 1)
  }

  /** The `start` callback of the relayed stream. */
  method Start(reader: Reader, decoder: StreamingDecoder, controller: Controller)
    returns (outcome: StartOutcome)
    requires controller.state == Readable
    modifies reader, decoder, controller
    ensures var run := Relay(old(decoder.state), old(reader.Remaining()));
      && controller.log == old(controller.log) + run.calls
      && controller.state == run.stream
      && decoder.state == run.decoder
      && reader.pos == old(reader.pos) + run.readCalls
      && outcome == run.outcome
  {
    ghost var run := Relay(decoder.state, reader.Remaining());
    var failure: Option<string> := None;
    ghost var now := run;
    while true
      invariant controller.state == Readable
      invariant now == Relay(decoder.state, reader.Remaining())
      invariant old(controller.log) + run.calls == controller.log + now.calls
      invariant old(reader.pos) + run.readCalls == reader.pos + now.readCalls
      invariant now.decoder == run.decoder && now.stream == run.stream && now.outcome == run.outcome
      decreases |reader.Remaining()|
    {
      ghost var pending := reader.Remaining();
      ghost var logBefore := controller.log;
      var r := reader.Read();
      if r.Done? {
        break;
      } else if r.ReadFailure? {
        failure := Some(r.reason);
        break;
      }
      var text := decoder.Decode(r.value);
      var threw := controller.Enqueue(Encode(text));
      if threw {
        failure := Some(NotReadableTypeError);
        break;
      }
      ghost var next := Relay(decoder.state, reader.Remaining());
      assert now.calls == [EnqueueCall(Encode(text))] + next.calls;
      AppendAssoc(logBefore, [EnqueueCall(Encode(text))], next.calls);
      now := next;
    }
    if failure.Some? {
      controller.Error(failure.value);
    }
    var threw := controller.Close();
    outcome := if threw then Rejected(NotReadableTypeError) else Fulfilled;
  }

  // ---------------------------------------------------------------------
  // What a run of `start` does

  /** The chunks read before the first read that is not a chunk. */
  function Chunks(outcomes: seq<ReadResult>): (chunks: seq<seq<Byte>>)
    ensures |chunks| <= |outcomes|
    ensures forall i | 0 <= i < |chunks| :: outcomes[i] == Chunk(chunks[i])
    decreases |outcomes|
  {
    if outcomes == [] || !outcomes[0].Chunk? then []
    else [outcomes[0].value] + Chunks(outcomes[1..])
  }

  /** The read that ends the loop: the first one that is not a chunk. */
  function Terminal(outcomes: seq<ReadResult>): (t: ReadResult)
    ensures !t.Chunk?
    ensures |Chunks(outcomes)| < |outcomes| ==> t == outcomes[|Chunks(outcomes)|]
    ensures |Chunks(outcomes)| == |outcomes| ==> t == Done
    decreases |outcomes|
  {
    if outcomes == [] then Done
    else if !outcomes[0].Chunk? then outcomes[0]
    else Terminal(outcomes[1..])
  }

  function Flatten(chunks: seq<seq<Byte>>): seq<Byte>
    decreases |chunks|
  {
    if chunks == [] then [] else chunks[0] + Flatten(chunks[1..])
  }

  /** The bytes of the `enqueue` calls, in order. */
  function Enqueued(calls: seq<ControllerCall>): seq<seq<Byte>>
    decreases |calls|
  {
    if calls == [] then []
    else if calls[0].EnqueueCall? then [calls[0].bytes] + Enqueued(calls[1..])
    else Enqueued(calls[1..])
  }

  /** One `enqueue` per chunk read, ahead of the ending calls (which bytes
      each carries is `RelayChunkwise`'s matter), then `close()` after
      `done`, or `error(reason)` and `close()` after a failed read: close is
      attempted on every path. After a failed read that `close()` throws, so
      `start` rejects, and the stream stays errored with the read's reason.
      The loop reads once more than it enqueues. */
  lemma RelayShape(st: DecoderState, outcomes: seq<ReadResult>)
    ensures var r := Relay(st, outcomes);
      var k := |Chunks(outcomes)|;
      var t := Terminal(outcomes);
      && r.readCalls == k + 1
      && |r.calls| > k
      && (forall i | 0 <= i < k :: r.calls[i].EnqueueCall?)
      && |Enqueued(r.calls)| == k
      && (t.ReadFailure? ==>
            r.calls[k..] == [ErrorCall(t.reason), CloseCall] &&
            r.stream == Errored(t.reason) && r.outcome == Rejected(NotReadableTypeError))
      && (t.Done? ==>
            r.calls[k..] == [CloseCall] && r.stream == Closed && r.outcome == Fulfilled)
  {
    RelayCounts(st, outcomes);
    RelayEnding(st, outcomes);
  }

  /** The counting half of `RelayShape`: one read per chunk and one more,
      and one leading `enqueue` per chunk. */
  ghost predicate Counted(r: RelayRun, outcomes: seq<ReadResult>) {
    var k := |Chunks(outcomes)|;
    && r.readCalls == k + 1
    && |r.calls| > k
    && (forall i | 0 <= i < k :: r.calls[i].EnqueueCall?)
    && |Enqueued(r.calls)| == k
  }

  /** The ending half of `RelayShape`: what follows the enqueues, and how
      the stream and `start` end up. */
  ghost predicate Ended(r: RelayRun, outcomes: seq<ReadResult>) {
    var k := |Chunks(outcomes)|;
    var t := Terminal(outcomes);
    && |r.calls| >= k
    && (t.ReadFailure? ==>
          r.calls[k..] == [ErrorCall(t.reason), CloseCall] &&
          r.stream == Errored(t.reason) && r.outcome == Rejected(NotReadableTypeError))
    && (t.Done? ==>
          r.calls[k..] == [CloseCall] && r.stream == Closed && r.outcome == Fulfilled)
  }

  lemma {:induction false} RelayCounts(st: DecoderState, outcomes: seq<ReadResult>)
    ensures Counted(Relay(st, outcomes), outcomes)
    decreases |outcomes|
  {
    if outcomes != [] && outcomes[0].Chunk? {
      var step := DecodeChunk(st, outcomes[0].value);
      RelayCounts(step.1, outcomes[1..]);
      CountedStep(Relay(st, outcomes), Relay(step.1, outcomes[1..]), Encode(step.0), outcomes);
    } else {
      TerminalEnqueuesNothing(Relay(st, outcomes).calls);
    }
  }

  lemma {:induction false} RelayEnding(st: DecoderState, outcomes: seq<ReadResult>)
    ensures Ended(Relay(st, outcomes), outcomes)
    decreases |outcomes|
  {
    if outcomes != [] && outcomes[0].Chunk? {
      var step := DecodeChunk(st, outcomes[0].value);
      RelayEnding(step.1, outcomes[1..]);
      EndedStep(Relay(st, outcomes), Relay(step.1, outcomes[1..]), Encode(step.0), outcomes);
    }
  }

  /** A chunk read in front of a run keeps `Counted`. */
  lemma CountedStep(r: RelayRun, rest: RelayRun, e: seq<Byte>, outcomes: seq<ReadResult>)
    requires outcomes != [] && outcomes[0].Chunk?
    requires r.calls == [EnqueueCall(e)] + rest.calls && r.readCalls == rest.readCalls + 1
    requires Counted(rest, outcomes[1..])
    ensures Counted(r, outcomes)
  {
    assert r.calls[1..] == rest.calls;
    assert Chunks(outcomes) == [outcomes[0].value] + Chunks(outcomes[1..]);
  }

  /** A chunk read in front of a run keeps `Ended`. */
  lemma EndedStep(r: RelayRun, rest: RelayRun, e: seq<Byte>, outcomes: seq<ReadResult>)
    requires outcomes != [] && outcomes[0].Chunk?
    requires r.calls == [EnqueueCall(e)] + rest.calls
    requires r.stream == rest.stream && r.outcome == rest.outcome
    requires Ended(rest, outcomes[1..])
    ensures Ended(r, outcomes)
  {
    var k := |Chunks(outcomes[1..])|;
    assert Chunks(outcomes) == [outcomes[0].value] + Chunks(outcomes[1..]);
    assert r.calls[k + 1..] == rest.calls[k..];
  }

  /** Chunk by chunk: when every chunk upstream sends is well-formed on its
      own and does not open with a byte order mark, the i-th `enqueue`
      carries exactly the i-th chunk, in read order. */
  lemma {:induction false} RelayChunkwise(st: DecoderState, outcomes: seq<ReadResult>)
    requires st.pending == []
    requires forall i | 0 <= i < |Chunks(outcomes)| ::
      IsWellFormed(Chunks(outcomes)[i]) && !StartsWithBom(Chunks(outcomes)[i])
    ensures Enqueued(Relay(st, outcomes).calls) == Chunks(outcomes)
    decreases |outcomes|
  {
    if outcomes == [] || !outcomes[0].Chunk? {
      TerminalEnqueuesNothing(Relay(st, outcomes).calls);
    } else {
      var c := outcomes[0].value;
      assert Chunks(outcomes) == [c] + Chunks(outcomes[1..]);
      assert IsWellFormed(Chunks(outcomes)[0]) && !StartsWithBom(Chunks(outcomes)[0]);
      ChunkPassesWhole(st, c);
      var next := DecodeChunk(st, c).1;
      forall i | 0 <= i < |Chunks(outcomes[1..])|
        ensures IsWellFormed(Chunks(outcomes[1..])[i]) && !StartsWithBom(Chunks(outcomes[1..])[i])
      {
        assert Chunks(outcomes[1..])[i] == Chunks(outcomes)[i + 1];
      }
      RelayChunkwise(next, outcomes[1..]);
      ChunkCalls(st, outcomes);
      var rest := Relay(next, outcomes[1..]).calls;
      assert ([EnqueueCall(c)] + rest)[1..] == rest;
    }
  }

  /** With nothing held back, a chunk that is well-formed and does not
      open with a byte order mark is passed on whole and leaves nothing
      held back. */
  lemma ChunkPassesWhole(st: DecoderState, c: seq<Byte>)
    requires st.pending == [] && IsWellFormed(c) && !StartsWithBom(c)
    ensures Encode(DecodeChunk(st, c).0) == c && DecodeChunk(st, c).1.pending == []
  {
    assert st.pending + c == c;
    WellFormedIsPrefix(c);
    DecodeWellFormedPrefix(c);
    var t := DecodeBytes(c).0;
    assert Encode(t) + [] == c;
    if !st.bomSeen && t != [] {
      BomFirst(t, []);
    }
  }

  /** The decoder never holds back more than an incomplete sequence. */
  lemma {:induction false} RelayCarry(st: DecoderState, outcomes: seq<ReadResult>)
    requires IsCarry(st.pending)
    ensures IsCarry(Relay(st, outcomes).decoder.pending)
    ensures |Relay(st, outcomes).decoder.pending| <= 3
    decreases |outcomes|
  {
    if outcomes != [] && outcomes[0].Chunk? {
      RelayCarry(DecodeChunk(st, outcomes[0].value).1, outcomes[1..]);
    }
  }

  /** A carry never starts with a complete byte order mark. */
  lemma CarryHasNoBom(s: seq<Byte>)
    requires IsCarry(s)
    ensures StripBom(s) == s
  {
  }

  /** The bytes a decoder in a state with the given flag passes on: all of
      them, or all but a leading byte order mark before the first scalar. */
  function Delivered(bomSeen: bool, input: seq<Byte>): seq<Byte> {
    if bomSeen then input else StripBom(input)
  }

  /** One decoding step on well-formed input followed by `tail`: what it
      produces, re-encoded, followed by the new carry and `tail`, is what the
      old state had to deliver; or it produced nothing and kept everything. */
  lemma DecodeStepFaithful(st: DecoderState, c: seq<Byte>, tail: seq<Byte>)
    requires IsCarry(st.pending)
    requires IsWellFormedPrefix(st.pending + c + tail)
    ensures var (text, next) := DecodeChunk(st, c);
      && IsWellFormedPrefix(next.pending + tail)
      && (next.bomSeen ==>
            Encode(text) + (next.pending + tail) == Delivered(st.bomSeen, st.pending + c + tail))
      && (!next.bomSeen ==>
            !st.bomSeen && text == [] && next.pending + tail == st.pending + c + tail)
  {
    var buf := st.pending + c;
    DecodeKeepsPrefix(buf, tail);
    var (t, carry) := DecodeBytes(buf);
    var (text, next) := DecodeChunk(st, c);
    assert next.pending == carry;
    if !st.bomSeen && t != [] {
      BomFirst(t, carry + tail);
      if t[0] == ByteOrderMark {
        EncodeBomHead(t);
        AppendAssoc([0xEF, 0xBB, 0xBF], Encode(text), carry + tail);
      }
    }
  }

  /** Decoding the front `buf` of well-formed input loses no byte: the
      re-encoded text, the carry and the rest give the input back, and the
      carry and the rest are again well-formed. */
  lemma DecodeKeepsPrefix(buf: seq<Byte>, tail: seq<Byte>)
    requires IsWellFormedPrefix(buf + tail)
    ensures var (t, carry) := DecodeBytes(buf);
      && IsWellFormedPrefix(carry + tail)
      && Encode(t) + (carry + tail) == buf + tail
  {
    PrefixClosed(buf, tail);
    DecodeWellFormedPrefix(buf);
    var (t, carry) := DecodeBytes(buf);
    EncodeWellFormed(t);
    AppendAssoc(Encode(t), carry, tail);
    SkipWellFormed(Encode(t), carry + tail);
  }

  /** Text opening with U+FEFF encodes to EF BB BF and then the rest. */
  lemma EncodeBomHead(t: seq<Scalar>)
    requires t != [] && t[0] == ByteOrderMark
    ensures Encode(t) == [0xEF, 0xBB, 0xBF] + Encode(t[1..])
  {
    EncodeScalarOf([0xEF, 0xBB, 0xBF]);
  }

  /** Whatever upstream sends, what `start` enqueues is well-formed UTF-8:
      each enqueued chunk is the encoding of decoded text. */
  lemma {:induction false} RelayOutputWellFormed(st: DecoderState, outcomes: seq<ReadResult>)
    ensures IsWellFormed(Flatten(Enqueued(Relay(st, outcomes).calls)))
    decreases |outcomes|
  {
    var r := Relay(st, outcomes);
    if outcomes == [] || !outcomes[0].Chunk? {
      TerminalEnqueuesNothing(r.calls);
    } else {
      var (text, next) := DecodeChunk(st, outcomes[0].value);
      var rest := Relay(next, outcomes[1..]);
      RelayOutputWellFormed(next, outcomes[1..]);
      assert r.calls == [EnqueueCall(Encode(text))] + rest.calls;
      EnqueuedStep(Encode(text), rest.calls);
      EncodeWellFormed(text);
      ConcatWellFormed(Encode(text), Flatten(Enqueued(rest.calls)));
    }
  }

  /** On a well-formed upstream body (possibly cut inside its last
      character), what `start` enqueues, followed by what the decoder still
      holds, is the body itself, except that a leading byte order mark is
      dropped when the decoder has not produced anything yet. */
  lemma {:induction false} RelayFaithful(st: DecoderState, outcomes: seq<ReadResult>)
    requires IsCarry(st.pending)
    requires IsWellFormedPrefix(st.pending + Flatten(Chunks(outcomes)))
    ensures var r := Relay(st, outcomes);
      Flatten(Enqueued(r.calls)) + r.decoder.pending
      == Delivered(st.bomSeen, st.pending + Flatten(Chunks(outcomes)))
    decreases |outcomes|
  {
    if outcomes == [] || !outcomes[0].Chunk? {
      var r := Relay(st, outcomes);
      assert Flatten(Chunks(outcomes)) == [];
      TerminalEnqueuesNothing(r.calls);
      assert st.pending + [] == st.pending;
      CarryHasNoBom(st.pending);
    } else {
      var c, more := outcomes[0].value, outcomes[1..];
      var tail := Flatten(Chunks(more));
      assert Chunks(outcomes) == [c] + Chunks(more);
      assert Flatten(Chunks(outcomes)) == c + tail;
      AppendAssoc(st.pending, c, tail);
      DecodeStepFaithful(st, c, tail);
      var (text, next) := DecodeChunk(st, c);
      RelayFaithful(next, more);
      RelayStep(st, outcomes);
      var rest := Relay(next, more);
      Combine(Encode(text), Flatten(Enqueued(rest.calls)), rest.decoder.pending,
              next.pending + tail, next.bomSeen, st.bomSeen, st.pending + c + tail);
    }
  }

  /** The inductive step of `RelayFaithful`, on the bytes alone: what one
      step passes on, then what the rest passes on, is what the old state
      had to deliver. */
  lemma Combine(step: seq<Byte>, out: seq<Byte>, carry: seq<Byte>, kept: seq<Byte>,
                nextSeen: bool, seen: bool, input: seq<Byte>)
    requires out + carry == Delivered(nextSeen, kept)
    requires nextSeen ==> step + kept == Delivered(seen, input)
    requires !nextSeen ==> !seen && step == [] && kept == input
    ensures (step + out) + carry == Delivered(seen, input)
  {
    AppendAssoc(step, out, carry);
    if !nextSeen {
      assert step + out == out;
    }
  }

  /** How one chunk read shows in the run. */
  lemma RelayStep(st: DecoderState, outcomes: seq<ReadResult>)
    requires outcomes != [] && outcomes[0].Chunk?
    ensures var (text, next) := DecodeChunk(st, outcomes[0].value);
      var rest := Relay(next, outcomes[1..]);
      && Relay(st, outcomes).decoder == rest.decoder
      && Flatten(Enqueued(Relay(st, outcomes).calls)) == Encode(text) + Flatten(Enqueued(rest.calls))
  {
    var (text, next) := DecodeChunk(st, outcomes[0].value);
    var rest := Relay(next, outcomes[1..]);
    assert Relay(st, outcomes).calls == [EnqueueCall(Encode(text))] + rest.calls;
    EnqueuedStep(Encode(text), rest.calls);
  }

  /** The calls that end a run enqueue nothing. */
  lemma TerminalEnqueuesNothing(calls: seq<ControllerCall>)
    requires calls == [CloseCall] || (|calls| == 2 && calls[0].ErrorCall? && calls[1] == CloseCall)
    ensures Enqueued(calls) == []
  {
    assert Enqueued([CloseCall]) == [];
    if |calls| == 2 {
      assert calls[1..] == [CloseCall];
    }
  }

  /** Enqueueing `b` in front of `calls` puts `b` in front of the bytes. */
  lemma EnqueuedStep(b: seq<Byte>, calls: seq<ControllerCall>)
    ensures Flatten(Enqueued([EnqueueCall(b)] + calls)) == b + Flatten(Enqueued(calls))
  {
    assert ([EnqueueCall(b)] + calls)[1..] == calls;
    assert Enqueued([EnqueueCall(b)] + calls) == [b] + Enqueued(calls);
    assert ([b] + Enqueued(calls))[1..] == Enqueued(calls);
  }

  /** The relay on a fresh decoder: for well-formed upstream bytes the
      enqueued bytes are the upstream bytes without a leading byte order
      mark and without the incomplete trailing sequence (at most three
      bytes) that the decoder holds back, since it is never flushed. When
      the upstream bytes end on a character boundary nothing is held back. */
  lemma RelayFidelity(outcomes: seq<ReadResult>)
    requires IsWellFormedPrefix(Flatten(Chunks(outcomes)))
    ensures var r := Relay(FreshDecoder, outcomes);
      var input := Flatten(Chunks(outcomes));
      && Flatten(Enqueued(r.calls)) + r.decoder.pending == StripBom(input)
      && IsCarry(r.decoder.pending)
      && (IsWellFormed(input) ==> Flatten(Enqueued(r.calls)) == StripBom(input))
  {
    var r := Relay(FreshDecoder, outcomes);
    var input := Flatten(Chunks(outcomes));
    var out := Flatten(Enqueued(r.calls));
    assert FreshDecoder.pending + input == input;
    RelayFaithful(FreshDecoder, outcomes);
    RelayOutputWellFormed(FreshDecoder, outcomes);
    RelayCarry(FreshDecoder, outcomes);
    assert out + r.decoder.pending == StripBom(input);
    if IsWellFormed(input) {
      WellFormedUnlessBom(input);
      WellFormedTail(out, r.decoder.pending);
      CarryNotWellFormed(r.decoder.pending);
      assert out + [] == out;
    }
  }

  /** Removing a leading byte order mark from well-formed bytes leaves
      well-formed bytes. */
  lemma WellFormedUnlessBom(input: seq<Byte>)
    requires IsWellFormed(input)
    ensures IsWellFormed(StripBom(input))
  {
    if StartsWithBom(input) {
      assert SequenceLength(input[0]) == 3;
    }
  }

  /** "é" (C3 A9) cut between two chunks: the first read enqueues
      nothing, the decoder holding C3 back, and the second enqueues both
      bytes together. */
  lemma SplitCharacter(outcomes: seq<ReadResult>)
    requires outcomes == [Chunk([0xC3]), Chunk([0xA9]), Done]
    ensures Relay(FreshDecoder, outcomes).calls ==
            [EnqueueCall([]), EnqueueCall([0xC3, 0xA9]), CloseCall]
  {
    var held := DecoderState(outcomes[0].value, false);
    var joined := DecoderState([], true);
    FirstHalf(outcomes[0].value);
    SecondHalf(held, outcomes[1].value);
    ChunkCalls(FreshDecoder, outcomes);
    ChunkCalls(held, outcomes[1..]);
    assert outcomes[1..][1..] == [Done];
    assert Relay(joined, [Done]).calls == [CloseCall];
  }

  /** Reading C3 on a fresh decoder produces no text and holds C3 back. */
  lemma FirstHalf(a: seq<Byte>)
    requires a == [0xC3]
    ensures DecodeChunk(FreshDecoder, a) == ([], DecoderState(a, false))
    ensures Encode([]) == []
  {
    LeadAlone(a);
    assert FreshDecoder.pending + a == a;
  }

  /** Reading A9 with C3 held back produces U+00E9, re-encoded as C3 A9. */
  lemma SecondHalf(held: DecoderState, b: seq<Byte>)
    requires held == DecoderState([0xC3], false) && b == [0xA9]
    ensures var (text, next) := DecodeChunk(held, b);
      Encode(text) == [0xC3, 0xA9] && next == DecoderState([], true)
  {
    var ab := held.pending + b;
    PairJoined(ab);
    assert DecodeChunk(held, b) == ([ScalarOf(ab)], DecoderState([], true));
  }

  /** A run that reads a chunk first enqueues that chunk's text. */
  lemma ChunkCalls(st: DecoderState, outcomes: seq<ReadResult>)
    requires outcomes != [] && outcomes[0].Chunk?
    ensures var step := DecodeChunk(st, outcomes[0].value);
      Relay(st, outcomes).calls ==
      [EnqueueCall(Encode(step.0))] + Relay(step.1, outcomes[1..]).calls
  {
  }

  /** C3 alone is held back. */
  lemma LeadAlone(buf: seq<Byte>)
    requires buf == [0xC3]
    ensures DecodeBytes(buf) == ([], buf)
  {
    assert SequenceLength(buf[0]) == 2;
    assert MatchLength(buf, 2, 1) == 1;
  }

  /** C3 then A9 is one scalar, U+00E9, which encodes back to the same
      two bytes. */
  lemma PairJoined(buf: seq<Byte>)
    requires buf == [0xC3, 0xA9]
    ensures DecodeBytes(buf) == ([ScalarOf(buf)], [])
    ensures ScalarOf(buf) == 0xE9 && Encode([ScalarOf(buf)]) == buf
  {
    assert SequenceLength(buf[0]) == 2;
    assert Fits(buf[0], 1, buf[1]);
    assert MatchLength(buf, 2, 2) == 2;
    assert MatchLength(buf, 2, 1) == 2;
    assert buf[..2] == buf && buf[2..] == [];
    assert IsSequence(buf);
    assert DecodeBytes(buf[2..]) == ([], []);
    assert [ScalarOf(buf[..2])] + DecodeBytes(buf[2..]).0 == [ScalarOf(buf)];
    EncodeScalarOf(buf);
    assert Encode([ScalarOf(buf)]) == EncodeScalar(ScalarOf(buf)) + Encode([]);
  }

}
