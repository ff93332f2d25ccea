/** The per-connection session of src/handlers/connection.rs: one step per chunk read from
    the socket, and the read loop of `handle_connection`.

    The foreign pieces are capabilities passed in `Env`: the IMEI and Codec 8 parsers of the
    `teltonika_rs` crate, the authorization predicate and the telemetry sink. Socket reads are
    an input sequence; socket writes and sink calls are recorded, in the order they happen, in
    one trace of `Effect`s. */
module Handlers {
  import opened Wrappers
  import opened Models
  import opened Classifier
  import opened Acknowledgment

  /** Size of the read buffer: no read returns more bytes than this. */
  const BufferSize: nat := 4096

  /** One decoded AVL record, produced by the foreign Codec 8 parser and not looked into. */
  type AvlRecord

  /** The capabilities the session calls but does not define. `sink` tells whether the
      backend accepted one record sent under one IMEI. */
  datatype Env = Env(
    parseImei: ImeiParser,
    parseCodec8: seq<byte> -> Option<seq<AvlRecord>>,
    authorize: string -> bool,
    sink: (AvlRecord, string) -> bool)

  /** `is_imei_authorized`: the default policy accepts every IMEI. */
  predicate IsImeiAuthorized(imei: string) {
    true
  }

  /** What the session does to the outside world: one `socket.write_all` of some bytes, or
      one call of the sink with a record, the IMEI it is tagged with and whether the call
      succeeded. A failed write or a failed sink call is only logged, so the session goes on
      the same way whatever either returns. */
  datatype Effect =
    | Wrote(bytes: seq<byte>)
    | Forwarded(record: AvlRecord, imei: string, delivered: bool)

  /** The sink calls for one batch, in record order. */
  function ForwardAll(records: seq<AvlRecord>, imei: string, sink: (AvlRecord, string) -> bool): (r: seq<Effect>)
    ensures |r| == |records|
    ensures forall k :: 0 <= k < |records| ==> r[k] == Forwarded(records[k], imei, sink(records[k], imei))
  {
    if records == [] then []
    else
      var last := records[|records| - 1];
      ForwardAll(records[..|records| - 1], imei, sink) + [Forwarded(last, imei, sink(last, imei))]
  }

  /** What one chunk does: the new state, the effects, and whether the loop goes on reading. */
  datatype StepResult = StepResult(state: ConnectionState, effects: seq<Effect>, proceed: bool)

  /** The body of the loop in `handle_connection` for one non-empty chunk. */
  function Step(s: ConnectionState, data: seq<byte>, env: Env): (r: StepResult)
    ensures !r.proceed ==> r.state == s && r.effects == [Wrote([ImeiRejected])]
  {
    match Classify(data, s, env.parseImei)
    case Imei =>
      (match env.parseImei(data)
       case Some(id) =>
         if env.authorize(id) then StepResult(s.(imei := Some(id)), [Wrote([ImeiAccepted])], true)
         else StepResult(s, [Wrote([ImeiRejected])], false)
       case None =>
         // the parser failed on a second attempt: logged, no effect
         StepResult(s, [], true))
    case PartialAck =>
      StepResult(s.(partialAck := Some(AckMarker)), [], true)
    case AckCount(_) =>
      StepResult(s.(partialAck := None), [], true)
    case Data =>
      var cleared := s.(partialAck := None);
      match s.imei
      case None =>
        // data before the handshake: logged and dropped
        StepResult(cleared, [], true)
      case Some(id) =>
        (match env.parseCodec8(data)
         case None =>
           // malformed frame: logged and dropped
           StepResult(cleared, [], true)
         case Some(records) =>
           StepResult(cleared, ForwardAll(records, id, env.sink) + [Wrote(BigEndianU32(|records|))], true))
  }

  /** The outcome of one `socket.read`: `Received([])` is the end of the stream. */
  datatype Read = Received(bytes: seq<byte>) | ReadFailed

  /** Why the loop stopped; `Open` means the reads ran out while it still waits for more. */
  datatype Exit = Open | Eof | ReadError | Rejected

  /** Every read fits the 4096-byte buffer. */
  predicate FitsBuffer(incoming: seq<Read>) {
    forall k :: 0 <= k < |incoming| && incoming[k].Received? ==> |incoming[k].bytes| <= BufferSize
  }

  /** A stretch of a connection: the state at its end, its effects, the chunks the loop
      handled (in order) and why it stopped. */
  datatype RunResult = RunResult(state: ConnectionState, effects: seq<Effect>, processed: seq<seq<byte>>, exit: Exit)

  /** `r` with the effects and chunks of an earlier stretch in front of its own. */
  function After(effects: seq<Effect>, processed: seq<seq<byte>>, r: RunResult): RunResult {
    RunResult(r.state, effects + r.effects, processed + r.processed, r.exit)
  }

  /** One arm of `match socket.read(..)`: a failed read or a zero-byte read stops the loop; a
      chunk is handled by `Step`, and stops the loop only when its IMEI is rejected. `Open`
      in the result means the loop goes on reading. */
  function ReadOnce(s: ConnectionState, read: Read, env: Env): (r: RunResult)
    ensures r.exit == Open ==> read.Received? && read.bytes != [] && r.processed == [read.bytes]
    ensures r.exit == Eof || r.exit == ReadError ==> r == RunResult(s, [], [], r.exit)
  {
    match read
    case ReadFailed => RunResult(s, [], [], ReadError)
    case Received(data) =>
      if data == [] then RunResult(s, [], [], Eof)
      else
        var st := Step(s, data, env);
        RunResult(st.state, st.effects, [data], if st.proceed then Open else Rejected)
  }

  /** The loop of `handle_connection` from state `s` over the reads still to come. */
  function Run(s: ConnectionState, incoming: seq<Read>, env: Env): (r: RunResult)
    ensures |r.processed| <= |incoming|
    ensures r.exit == Open ==> |r.processed| == |incoming|
    decreases |incoming|
  {
    if incoming == [] then RunResult(s, [], [], Open)
    else
      var first := ReadOnce(s, incoming[0], env);
      if first.exit == Open then After(first.effects, first.processed, Run(first.state, incoming[1..], env))
      else first
  }

  /** The effects of a connection so far followed by the rest of the loop from read `i`,
      with read `i` taken out of the rest. */
  lemma RunAt(total: RunResult, effects: seq<Effect>, processed: seq<seq<byte>>,
              s: ConnectionState, incoming: seq<Read>, i: nat, env: Env)
    requires i < |incoming|
    requires total == After(effects, processed, Run(s, incoming[i..], env))
    ensures var first := ReadOnce(s, incoming[i], env);
      total ==
        if first.exit == Open then
          After(effects + first.effects, processed + first.processed, Run(first.state, incoming[i + 1..], env))
        else
          After(effects, processed, first)
  {
    assert incoming[i..][0] == incoming[i] && incoming[i..][1..] == incoming[i + 1..];
    var first := ReadOnce(s, incoming[i], env);
    if first.exit == Open {
      var rest := Run(first.state, incoming[i + 1..], env);
      assert effects + (first.effects + rest.effects) == (effects + first.effects) + rest.effects;
      assert processed + (first.processed + rest.processed) == (processed + first.processed) + rest.processed;
    }
  }

  /** The loop stops only at a zero-byte read, a failed read or a rejected IMEI, whose reply
      0x00 is then the last thing written; before that it handles every read, in order, each
      a non-empty chunk. */
  lemma {:induction false} RunStopsOnlyAt(s: ConnectionState, incoming: seq<Read>, env: Env)
    ensures var r := Run(s, incoming, env);
      && |r.processed| <= |incoming|
      && (forall k :: 0 <= k < |r.processed| ==> incoming[k] == Received(r.processed[k]) && r.processed[k] != [])
      && (r.exit == Open ==> |r.processed| == |incoming|)
      && (r.exit == Eof ==> |r.processed| < |incoming| && incoming[|r.processed|] == Received([]))
      && (r.exit == ReadError ==> |r.processed| < |incoming| && incoming[|r.processed|] == ReadFailed)
      && (r.exit == Rejected ==> |r.processed| > 0 && r.effects != [] && r.effects[|r.effects| - 1] == Wrote([ImeiRejected]))
    decreases |incoming|
  {
    if incoming != [] {
      var first := ReadOnce(s, incoming[0], env);
      if first.exit == Open {
        RunStopsOnlyAt(first.state, incoming[1..], env);
      }
    }
  }

  /** `Run` on a read followed by others: that read, then the rest if the loop goes on. */
  lemma RunCons(s: ConnectionState, read: Read, tail: seq<Read>, env: Env)
    ensures var first := ReadOnce(s, read, env);
      Run(s, [read] + tail, env) ==
        if first.exit == Open then After(first.effects, first.processed, Run(first.state, tail, env)) else first
  {
    assert ([read] + tail)[0] == read && ([read] + tail)[1..] == tail;
  }

  /** Stopping is final: the reads after the one that stopped the loop (the rejected chunk
      itself, or the read after the last handled chunk) are never looked at, so replacing
      them by anything gives the same result. */
  lemma {:induction false} StopIsFinal(s: ConnectionState, incoming: seq<Read>, env: Env, rest: seq<Read>)
    ensures var r := Run(s, incoming, env);
      var n := if r.exit == Rejected then |r.processed| else |r.processed| + 1;
      r.exit != Open ==> n <= |incoming| && Run(s, incoming[..n] + rest, env) == r
    decreases |incoming|
  {
    if incoming != [] {
      var first := ReadOnce(s, incoming[0], env);
      if first.exit == Open {
        StopIsFinal(first.state, incoming[1..], env, rest);
        var r2 := Run(first.state, incoming[1..], env);
        if r2.exit != Open {
          var n2 := if r2.exit == Rejected then |r2.processed| else |r2.processed| + 1;
          assert incoming[..n2 + 1] + rest == [incoming[0]] + (incoming[1..][..n2] + rest);
          RunCons(s, incoming[0], incoming[1..][..n2] + rest, env);
        }
      } else {
        assert incoming[..1] + rest == [incoming[0]] + rest;
        RunCons(s, incoming[0], rest, env);
      }
    }
  }

  /** Every chunk the loop handles holds between 1 and 4096 bytes. */
  lemma ProcessedChunksFitBuffer(s: ConnectionState, incoming: seq<Read>, env: Env)
    requires FitsBuffer(incoming)
    ensures var r := Run(s, incoming, env);
      forall k :: 0 <= k < |r.processed| ==> 1 <= |r.processed[k]| <= BufferSize
  {
    RunStopsOnlyAt(s, incoming, env);
    var r := Run(s, incoming, env);
    forall k | 0 <= k < |r.processed|
      ensures 1 <= |r.processed[k]| <= BufferSize
    {
      assert incoming[k] == Received(r.processed[k]);
    }
  }

  /** `for record in avl_data`: call the sink once per record, in order, whatever it answers. */
  method ForwardBatch(records: seq<AvlRecord>, imei: string, sink: (AvlRecord, string) -> bool)
    returns (trace: seq<Effect>)
    ensures |trace| == |records|
    ensures forall k :: 0 <= k < |records| ==> trace[k] == Forwarded(records[k], imei, sink(records[k], imei))
    ensures trace == ForwardAll(records, imei, sink)
  {
    trace := [];
    var i := 0;
    while i < |records|
      invariant 0 <= i <= |records|
      invariant trace == ForwardAll(records[..i], imei, sink)
    {
      var record := records[i];
      var delivered := sink(record, imei);
      assert records[..i + 1][..i] == records[..i];
      trace := trace + [Forwarded(record, imei, delivered)];
      i := i + 1;
    }
    assert records[..i] == records;
  }

  /** The `ConnectionState` owned by one connection, updated in place chunk by chunk. */
  class Session {
    var imei: Option<string>
    var partialAck: Option<byte>

    function State(): ConnectionState
      reads this
    {
      ConnectionState(imei, partialAck)
    }

    /** `ConnectionState::new()` */
    constructor ()
      ensures State() == New()
    {
      imei := None;
      partialAck := None;
    }

    /** One pass of the loop body for a chunk that was read. */
    method HandleChunk(data: seq<byte>, env: Env) returns (effects: seq<Effect>, proceed: bool)
      modifies this
      ensures StepResult(State(), effects, proceed) == Step(old(State()), data, env)
    {
      effects, proceed := [], true;
      var messageType := Classify(data, State(), env.parseImei);
      match messageType {
        case Imei =>
          match env.parseImei(data) {
            case Some(id) =>
              if env.authorize(id) {
                imei := Some(id);
                effects := effects + [Wrote([ImeiAccepted])];
              } else {
                effects := effects + [Wrote([ImeiRejected])];
                proceed := false;
              }
            case None =>
          }
        case PartialAck =>
          partialAck := Some(AckMarker);
        case AckCount(_) =>
          partialAck := None;
        case Data =>
          partialAck := None;
          match imei {
            case Some(id) =>
              match env.parseCodec8(data) {
                case Some(records) =>
                  effects := ForwardBatch(records, id, env.sink);
                  effects := effects + [Wrote(BigEndianU32(|records|))];
                case None =>
              }
            case None =>
          }
      }
    }

    /** One pass of the loop: the outcome of one read, handled. */
    method OnRead(read: Read, env: Env) returns (effects: seq<Effect>, processed: seq<seq<byte>>, exit: Exit)
      modifies this
      ensures RunResult(State(), effects, processed, exit) == ReadOnce(old(State()), read, env)
    {
      effects, processed, exit := [], [], Open;
      match read {
        case ReadFailed =>
          exit := ReadError;
        case Received(data) =>
          if data == [] {
            exit := Eof;
          } else {
            var proceed;
            effects, proceed := HandleChunk(data, env);
            processed := [data];
            if !proceed {
              exit := Rejected;
            }
          }
      }
    }
  }

  /** `handle_connection`: a fresh state, then read, classify and act until the peer closes,
      a read fails or the IMEI is rejected. */
  method HandleConnection(incoming: seq<Read>, env: Env)
    returns (final: ConnectionState, effects: seq<Effect>, processed: seq<seq<byte>>, exit: Exit)
    requires FitsBuffer(incoming)
    ensures RunResult(final, effects, processed, exit) == Run(New(), incoming, env)
    ensures forall k :: 0 <= k < |processed| ==> 1 <= |processed[k]| <= BufferSize
  {
    var session := new Session();
    effects, processed, exit := [], [], Open;
    ghost var total := Run(New(), incoming, env);
    var i := 0;
    while i < |incoming|
      invariant 0 <= i <= |incoming|
      invariant total == After(effects, processed, Run(session.State(), incoming[i..], env))
    {
      RunAt(total, effects, processed, session.State(), incoming, i, env);
      var e, p, x := session.OnRead(incoming[i], env);
      effects, processed := effects + e, processed + p;
      if x != Open {
        exit := x;
        break;
      }
      i := i + 1;
    }
    final := session.State();
    ProcessedChunksFitBuffer(New(), incoming, env);
  }
}
