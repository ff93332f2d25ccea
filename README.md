# Teltonika connection session, modelled in Dafny

This project models the per-connection session of a TCP server for Teltonika GPS trackers,
and proves properties of that model. The session covers:

- the IMEI handshake and its authorization gate;
- classification of each chunk read from the socket as an IMEI message, the first byte of a
  split acknowledgment, a device acknowledgment count, or a Codec 8 data frame;
- the pending-marker state that reassembles an acknowledgment split across two reads;
- forwarding of decoded AVL records to the telemetry sink;
- the record-count reply, four bytes big-endian.

Modules:

- `Wrappers` defines `Option` and the `byte` type (a Rust `u8`).
- `Models` holds `ConnectionState` and `New`.
- `Classifier` covers `is_imei_message`, `identify_message_type` and `MessageType`.
- `Acknowledgment` holds the reply bytes and the `u32` big-endian encoding.
- `Handlers` holds the session:
  - `Step`, `ReadOnce` and `Run` are pure definitions of one chunk, one read and a
    whole connection;
  - `Session` is a class whose fields are updated in place, one read at a time;
  - `HandleConnection` is the read loop, proved equal to `Run`.
- `SessionProperties` holds lemmas over `Step` and `Run`.

The session calls things it does not define, and they are passed in an `Env` value:
- the IMEI parser and the Codec 8 parser of the `teltonika_rs` crate;
- the telemetry sink.

`Env` also holds the authorization predicate, `Env.authorize`. The source defines this predicate
itself as `is_imei_authorized`, and marks it as the place for a real policy, so the model takes it
as a parameter. The source's version is `Handlers.IsImeiAuthorized`, which accepts every IMEI.
`SessionProperties.DefaultAuthorizationNeverRejects` covers a session that uses it.

Socket reads are a finite sequence of `Read` values:
- `Received(bytes)` is `Ok(n)` with the first `n` bytes of the buffer;
- `Received([])` is `Ok(0)`, the end of the stream;
- `ReadFailed` is `Err`.

Socket writes and sink calls are recorded in one `Effect` trace, in the order they happen.

## Model

| member | source | states |
|---|---|---|
| Models.New | src/models/connection.rs:8-13 | A fresh state has no IMEI, so it is unauthenticated, and has no pending acknowledgment marker. |
| Classifier.IsImeiMessage | src/handlers/connection.rs:13-28 | A chunk shorter than 15 or longer than 25 bytes is never an IMEI message. Within those bounds it is one exactly when the IMEI parser accepts it. |
| Classifier.Classify | src/handlers/connection.rs:48-71 | `identify_message_type`: the rules are tried in order and the first match wins. Its contract says an `Imei` tag means a 15 to 25 byte chunk that the IMEI parser accepts. An `AckCount` tag means a one- or two-byte chunk, carrying its last byte. `ClassifyCharacterised` gives every tag as an exact condition. |
| Classifier.ClassifyCharacterised | src/handlers/connection.rs:48-71 | Each message type as a condition, independent of the order of the rules. `PartialAck` holds exactly for the lone byte 0xFE. `AckCount` holds exactly for a lone non-marker byte while a marker is pending, or for a two-byte chunk starting with 0xFE; it carries the chunk's last byte. `Imei` holds exactly when `IsImeiMessage` holds. `Data` holds for everything else. |
| Acknowledgment.BigEndianValue | src/handlers/connection.rs:164-166 | The value a receiver reads from four big-endian bytes is below 2^32. |
| Acknowledgment.BigEndianU32 | src/handlers/connection.rs:164-166 | `(records_len as u32).to_be_bytes()` is four bytes whose big-endian value is the count modulo 2^32. |
| Acknowledgment.CountRoundTrip | src/handlers/connection.rs:164-166 | A count below 2^32 is read back unchanged from its four reply bytes. |
| Acknowledgment.BigEndianU32OfValue | src/handlers/connection.rs:166 | The encoding is onto the four-byte sequences: encoding the value of any four bytes gives back those bytes. |
| Handlers.IsImeiAuthorized | src/handlers/connection.rs:31-41 | `is_imei_authorized`: the default policy, which accepts every IMEI. `SessionProperties.DefaultAuthorizationNeverRejects` states what this means for a session. |
| Handlers.Step | src/handlers/connection.rs:100-183 | The loop body for one chunk: classification, then the branch for its tag. When the loop is told to stop, the state is unchanged and the only effect is the reject byte 0x00. The branch lemmas in `SessionProperties` characterise each tag's outcome. |
| Handlers.ReadOnce | src/handlers/connection.rs:89-189 | One arm of `match socket.read`. The loop goes on only after a non-empty chunk, which is then the one handled chunk. A zero-byte read or a failed read changes nothing and has no effect. |
| Handlers.Run | src/handlers/connection.rs:88-190 | The `loop` over the reads still to come. It handles at most one chunk per read, and all of them when it ends with the connection still open. `RunStopsOnlyAt` gives the full stopping condition. |
| Handlers.ForwardAll | src/handlers/connection.rs:157-162 | One sink call per record, in record order, each under the session's IMEI, recording what the sink answered. |
| Handlers.ForwardBatch | src/handlers/connection.rs:157-162 | The loop over `avl_data` makes exactly the sink calls of `ForwardAll`, in order, and goes on whatever the sink answers. |
| Handlers.Session.constructor | src/models/connection.rs:8-13 | The session starts in the state `ConnectionState::new()`. |
| Handlers.Session.HandleChunk | src/handlers/connection.rs:100-183 | The in-place update of one chunk leaves the session in the state `Step` gives. It returns the effects `Step` gives and whether the loop continues. |
| Handlers.Session.OnRead | src/handlers/connection.rs:89-189 | One read, handled in place, matches `ReadOnce`. A zero-byte read stops the loop with `Eof`. A failed read stops it with `ReadError`. A chunk is handled by `HandleChunk`, and stops the loop only when its IMEI is rejected. |
| Handlers.HandleConnection | src/handlers/connection.rs:82-191 | The read loop from a fresh state gives exactly the final state, effects, handled chunks and exit reason of `Run`. Every handled chunk holds between 1 and 4096 bytes. |
| Handlers.RunStopsOnlyAt | src/handlers/connection.rs:88-190 | The loop handles the reads in order, each as a non-empty chunk. It stops early only at a zero-byte read, a failed read (both at the position where they occur), or a rejected IMEI, whose 0x00 reply is then the last effect. If it runs out of reads, it handled them all. `StopIsFinal` shows that nothing after the stop is looked at. |
| Handlers.StopIsFinal | src/handlers/connection.rs:88-190 | Each `break` ends the connection for good. After a zero-byte read or a failed read, the loop looks at nothing beyond that read. After a rejection, the rejected chunk is the last read looked at. Replacing every later read by anything gives the same final state, effects, handled chunks and exit. |
| Handlers.ProcessedChunksFitBuffer | src/handlers/connection.rs:85-95 | With reads that fit the 4096-byte buffer, every handled chunk is 1 to 4096 bytes long. |
| SessionProperties.FreshLoneByteIsData | src/handlers/connection.rs:50-70 | In a fresh session, a lone byte other than 0xFE is classified as data, not as a count. |
| SessionProperties.PartialAckByBranch | src/handlers/connection.rs:132-148 | How each branch affects the pending marker: `PartialAck` sets it to 0xFE; `AckCount` and `Data` clear it; the IMEI branch leaves it unchanged. |
| SessionProperties.StepKeepsMarkerWellFormed | src/handlers/connection.rs:132-148 | One step keeps the pending marker either absent or 0xFE. |
| SessionProperties.ImeiHandshake | src/handlers/connection.rs:103-131 | An authorized IMEI is stored, replacing any earlier one, and answered with the single byte 0x01; the session continues. An unauthorized IMEI is answered with the single byte 0x00, the state is unchanged and the session ends. The pending marker is untouched and nothing is forwarded. |
| SessionProperties.AckCountIsSilent | src/handlers/connection.rs:137-145 | A count message clears the marker, keeps the IMEI, writes nothing, forwards nothing and continues. |
| SessionProperties.DecodedBatchIsForwardedThenCounted | src/handlers/connection.rs:146-172 | A decoded frame on an authenticated session clears the marker. Each record is then sent to the sink once, in order, under the session's IMEI. After that comes exactly one write: four bytes whose value is the record count modulo 2^32, or the exact count when it fits in 32 bits. |
| SessionProperties.AckIgnoresSinkOutcome | src/handlers/connection.rs:157-171 | The sink's answers change nothing else. With any other sink, the step reaches the same state, writes the same bytes at the same points, and forwards the same records under the same IMEI. |
| SessionProperties.UndecodableDataIsDropped | src/handlers/connection.rs:146-181 | A data chunk before the handshake, or one the decoder rejects, clears the marker and does nothing else. |
| SessionProperties.StepEffectsShape | src/handlers/connection.rs:100-183 | One chunk produces sink calls and then at most one write, which comes last. That write is 0x01, 0x00, or the four-byte count of the sink calls before it. The session ends exactly when the effects are the single write 0x00. |
| SessionProperties.ImeiChangesOnlyByHandshake | src/handlers/connection.rs:103-112 | Only an IMEI message changes the stored IMEI. The new value is the parsed IMEI, and it passed the authorization predicate. A stored IMEI is never removed. |
| SessionProperties.SplitAckMatchesWholeAck | src/handlers/connection.rs:50-62 | For n other than 0xFE, reading `[0xFE]` then `[n]` has the same outcome as reading `[0xFE, n]`: marker cleared, IMEI kept, nothing written. |
| SessionProperties.SplitAckRunsAlike | src/handlers/connection.rs:88-183 | Over a whole connection, the split and unsplit acknowledgment lead to the same final state, effects and exit, whatever reads follow. |
| SessionProperties.SplitMarkerCountStaysPending | src/handlers/connection.rs:50-62 | The count 0xFE breaks that equivalence. `[0xFE]` then `[0xFE]` leaves a marker pending, while `[0xFE, 0xFE]` in one read clears it. |
| SessionProperties.RunKeepsMarkerWellFormed | src/handlers/connection.rs:88-190 | Over any sequence of reads, the pending marker stays absent or 0xFE. |
| SessionProperties.FreshRunKeepsMarkerWellFormed | src/handlers/connection.rs:85-190 | From a fresh state, the only marker the session ever holds is 0xFE. |
| SessionProperties.DefaultAuthorizationNeverRejects | src/handlers/connection.rs:31-41 | With `is_imei_authorized` as written, which accepts every IMEI, no connection ends by rejection. |
| SessionProperties.RunKeepsImei | src/handlers/connection.rs:88-190 | Once authenticated, a connection stays authenticated to the end. |
| SessionProperties.ForwardedOnlyUnderAuthorizedImei | src/handlers/connection.rs:103-162 | Every record sent to the sink carries an IMEI that passed the authorization predicate. This holds for any pluggable policy. Under the default policy, which accepts everything, it says nothing, and `ForwardedOnlyAfterAcceptance` gives the ordering. |
| SessionProperties.UnauthenticatedStepForwardsNothing | src/handlers/connection.rs:103-181 | Before any IMEI is stored, a chunk sends nothing to the sink. A chunk that stores the first IMEI writes the accept byte 0x01 and nothing else. |
| SessionProperties.ForwardedOnlyAfterAcceptance | src/handlers/connection.rs:88-190 | On a connection with no IMEI yet, such as a fresh one, every record sent to the sink comes after a write of the accept byte 0x01. |

## Left out

- The listener, the accept loop and the `tokio::spawn` per connection (src/main.rs) are not
  modelled. Sessions share no state, so one session is modelled on its own.
- Logging is not modelled, including the hex dump of every chunk. It has no effect on the
  session.
- The `teltonika_rs` IMEI and Codec 8 parsers are not part of this model. They are the
  uninterpreted functions `Env.parseImei` and `Env.parseCodec8`, and an AVL record is the
  opaque type `AvlRecord`. The IMEI parser's result is taken as the IMEI string directly
  (`imei.1.to_string()`).
- The telemetry sink (`send_to_thingsboard`, src/services/thingsboard.rs and
  src/services/api_integration.rs) is not modelled. Its HTTP request is the deterministic
  function `Env.sink`, which returns whether the record was delivered.
- The sink's configuration argument is not modelled. `handle_connection` reads
  `config.thingsboard`, a field that src/config.rs does not define, so that configuration is
  not part of this model.
- A failed `write_all` is not modelled. The source only logs it and goes on the same way, so
  each write is recorded as sent.
- Reads are a finite sequence. A connection that is still open when the reads run out ends
  with exit `Open`, meaning the session is still waiting. Idle connections held open forever
  are not modelled.
- The IMEI branch parses the chunk a second time. A failure there cannot happen for a
  deterministic parser, since classification already parsed the chunk successfully. It is
  modelled as the source handles it: logged, with no effect.
- The stored IMEI is not immutable once set. An authorized IMEI message later in the session
  overwrites it, as the code at src/handlers/connection.rs:112 does.
  `SessionProperties.ImeiChangesOnlyByHandshake` states exactly when it can change.
- A count message whose count byte is itself 0xFE, split across two reads, is read as a
  second marker. The model keeps this behaviour of the code, and
  `SessionProperties.SplitMarkerCountStaysPending` states it.
