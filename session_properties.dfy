/** What the session of src/handlers/connection.rs guarantees, chunk by chunk and over a
    whole connection. */
module SessionProperties {
  import opened Wrappers
  import opened Models
  import opened Classifier
  import opened Acknowledgment
  import opened Handlers

  /** The only value ever stored as a pending marker is the marker byte itself. */
  predicate MarkerWellFormed(s: ConnectionState) {
    s.partialAck == None || s.partialAck == Some(AckMarker)
  }

  // ---------------------------------------------------------------------------------------
  // Classification

  /** With a fresh state, a lone byte other than the marker is data, not a count. */
  lemma FreshLoneByteIsData(b: byte, parseImei: ImeiParser)
    requires b != AckMarker
    ensures Classify([b], New(), parseImei) == Data
  {
  }

  // ---------------------------------------------------------------------------------------
  // One chunk

  /** How each kind of chunk changes the pending marker: a lone marker sets it, a count or a
      data chunk clears it, an IMEI handshake leaves it as it was. */
  lemma PartialAckByBranch(s: ConnectionState, data: seq<byte>, env: Env)
    ensures var r := Step(s, data, env);
      match Classify(data, s, env.parseImei)
      case PartialAck => r.state.partialAck == Some(AckMarker)
      case AckCount(_) => r.state.partialAck == None
      case Data => r.state.partialAck == None
      case Imei => r.state.partialAck == s.partialAck
  {
  }

  /** Every step keeps the pending marker well formed. */
  lemma StepKeepsMarkerWellFormed(s: ConnectionState, data: seq<byte>, env: Env)
    requires MarkerWellFormed(s)
    ensures MarkerWellFormed(Step(s, data, env).state)
  {
  }

  /** An IMEI chunk: an authorized IMEI is stored (replacing any earlier one) and answered with
      the single byte 0x01; an unauthorized one is answered with the single byte 0x00 and ends
      the session. Nothing is forwarded and the pending marker is untouched. */
  lemma ImeiHandshake(s: ConnectionState, data: seq<byte>, env: Env)
    requires Classify(data, s, env.parseImei) == Imei
    ensures env.parseImei(data).Some?
    ensures var id := env.parseImei(data).value;
      var r := Step(s, data, env);
      && (env.authorize(id) ==> r == StepResult(ConnectionState(Some(id), s.partialAck), [Wrote([ImeiAccepted])], true))
      && (!env.authorize(id) ==> r == StepResult(s, [Wrote([ImeiRejected])], false))
  {
  }

  /** A count message, whole or completed, is informational: it clears the marker, writes
      nothing, forwards nothing and leaves the IMEI alone. */
  lemma AckCountIsSilent(s: ConnectionState, data: seq<byte>, env: Env)
    requires Classify(data, s, env.parseImei).AckCount?
    ensures Step(s, data, env) == StepResult(ConnectionState(s.imei, None), [], true)
  {
  }

  /** A decoded batch: each record goes to the sink once, in order, under the session's IMEI;
      after them, exactly one write of the four big-endian bytes of the record count (modulo
      2^32), which the device reads back as the count when it fits in 32 bits. */
  lemma DecodedBatchIsForwardedThenCounted(s: ConnectionState, data: seq<byte>, env: Env, records: seq<AvlRecord>)
    requires Classify(data, s, env.parseImei) == Data
    requires s.imei.Some? && env.parseCodec8(data) == Some(records)
    ensures var r := Step(s, data, env);
      var id := s.imei.value;
      && r.state == ConnectionState(s.imei, None)
      && r.proceed
      && |r.effects| == |records| + 1
      && (forall k :: 0 <= k < |records| ==> r.effects[k] == Forwarded(records[k], id, env.sink(records[k], id)))
      && r.effects[|records|].Wrote?
      && |r.effects[|records|].bytes| == 4
      && BigEndianValue(r.effects[|records|].bytes) == |records| % U32Modulus
      && (|records| < U32Modulus ==> BigEndianValue(r.effects[|records|].bytes) == |records|)
  {
  }

  /** The reply does not depend on what the sink answers: with any other sink the step reaches
      the same state, writes the same bytes at the same points and forwards the same records
      under the same IMEI. */
  lemma AckIgnoresSinkOutcome(s: ConnectionState, data: seq<byte>, env: Env, other: (AvlRecord, string) -> bool)
    ensures var r1 := Step(s, data, env);
      var r2 := Step(s, data, env.(sink := other));
      && r1.state == r2.state && r1.proceed == r2.proceed
      && |r1.effects| == |r2.effects|
      && forall k :: 0 <= k < |r1.effects| ==>
           if r1.effects[k].Wrote? then r2.effects[k] == r1.effects[k]
           else r2.effects[k].Forwarded? && r2.effects[k].record == r1.effects[k].record && r2.effects[k].imei == r1.effects[k].imei
  {
  }

  /** A data chunk before the handshake, or one the decoder rejects, is dropped: no reply, no
      forwarding, the IMEI unchanged, the marker cleared, and the session goes on. */
  lemma UndecodableDataIsDropped(s: ConnectionState, data: seq<byte>, env: Env)
    requires Classify(data, s, env.parseImei) == Data
    requires s.imei.None? || env.parseCodec8(data).None?
    ensures Step(s, data, env) == StepResult(ConnectionState(s.imei, None), [], true)
  {
  }

  /** The shape of what one chunk does: sink calls, then at most one write, which comes last
      and is the accept byte, the reject byte (exactly when the session ends) or the four-byte
      count of the sink calls before it. */
  lemma StepEffectsShape(s: ConnectionState, data: seq<byte>, env: Env)
    ensures var r := Step(s, data, env);
      && (forall k :: 0 <= k < |r.effects| - 1 ==> r.effects[k].Forwarded?)
      && (r.effects != [] ==>
            var last := r.effects[|r.effects| - 1];
            && last.Wrote?
            && (last.bytes == [ImeiAccepted] || last.bytes == [ImeiRejected] || |last.bytes| == 4)
            && (|last.bytes| == 4 ==> BigEndianValue(last.bytes) == (|r.effects| - 1) % U32Modulus)
            && (|last.bytes| == 1 ==> |r.effects| == 1))
      && (!r.proceed <==> r.effects == [Wrote([ImeiRejected])])
  {
  }

  /** Only an accepted handshake changes the IMEI, to the parsed IMEI that passed the
      authorization predicate, and nothing removes one. */
  lemma ImeiChangesOnlyByHandshake(s: ConnectionState, data: seq<byte>, env: Env)
    ensures var r := Step(s, data, env);
      && (r.state.imei != s.imei ==>
            && Classify(data, s, env.parseImei) == Imei
            && r.state.imei == env.parseImei(data)
            && env.authorize(r.state.imei.value))
      && (s.imei.Some? ==> r.state.imei.Some?)
  {
  }

  // ---------------------------------------------------------------------------------------
  // The split acknowledgment

  /** `0xFE` and `n` in two reads end like `0xFE,n` in one: marker cleared, IMEI unchanged,
      nothing written or forwarded, the session still open. */
  lemma SplitAckMatchesWholeAck(s: ConnectionState, n: byte, env: Env)
    requires n != AckMarker
    ensures var first := Step(s, [AckMarker], env);
      var second := Step(first.state, [n], env);
      var whole := Step(s, [AckMarker, n], env);
      && first == StepResult(s.(partialAck := Some(AckMarker)), [], true)
      && second == whole
      && whole == StepResult(ConnectionState(s.imei, None), [], true)
  {
  }

  /** The same over a whole connection: whatever follows, the split and unsplit forms lead to
      the same final state, the same effects and the same exit. */
  lemma SplitAckRunsAlike(s: ConnectionState, n: byte, rest: seq<Read>, env: Env)
    requires n != AckMarker
    ensures var split := Run(s, [Received([AckMarker]), Received([n])] + rest, env);
      var whole := Run(s, [Received([AckMarker, n])] + rest, env);
      split.state == whole.state && split.effects == whole.effects && split.exit == whole.exit
  {
  }

  /** The marker byte itself as the count breaks the equivalence: in two reads the second
      `0xFE` is taken for a new marker and stays pending, while `0xFE,0xFE` in one read is the
      count 0xFE. */
  lemma SplitMarkerCountStaysPending(s: ConnectionState, env: Env)
    ensures var first := Step(s, [AckMarker], env);
      Step(first.state, [AckMarker], env).state.partialAck == Some(AckMarker)
    ensures Step(s, [AckMarker, AckMarker], env).state.partialAck == None
  {
  }

  // ---------------------------------------------------------------------------------------
  // A whole connection

  /** The pending marker stays well formed over any sequence of reads. */
  lemma {:induction false} RunKeepsMarkerWellFormed(s: ConnectionState, incoming: seq<Read>, env: Env)
    requires MarkerWellFormed(s)
    ensures MarkerWellFormed(Run(s, incoming, env).state)
    decreases |incoming|
  {
    if incoming != [] {
      var first := ReadOnce(s, incoming[0], env);
      if incoming[0].Received? && incoming[0].bytes != [] {
        StepKeepsMarkerWellFormed(s, incoming[0].bytes, env);
      }
      if first.exit == Open {
        RunKeepsMarkerWellFormed(first.state, incoming[1..], env);
      }
    }
  }

  /** A fresh connection only ever holds no marker or the marker byte. */
  lemma FreshRunKeepsMarkerWellFormed(incoming: seq<Read>, env: Env)
    ensures var r := Run(New(), incoming, env);
      r.state.partialAck == None || r.state.partialAck == Some(AckMarker)
  {
    RunKeepsMarkerWellFormed(New(), incoming, env);
  }

  /** With the default policy, which accepts every IMEI, no connection ends by rejection. */
  lemma {:induction false} DefaultAuthorizationNeverRejects(s: ConnectionState, incoming: seq<Read>, env: Env)
    requires forall id :: env.authorize(id) == IsImeiAuthorized(id)
    ensures Run(s, incoming, env).exit != Rejected
    decreases |incoming|
  {
    if incoming != [] {
      var first := ReadOnce(s, incoming[0], env);
      assert first.exit != Rejected;
      if first.exit == Open {
        DefaultAuthorizationNeverRejects(first.state, incoming[1..], env);
      }
    }
  }

  /** Once authenticated, a connection stays authenticated. */
  lemma {:induction false} RunKeepsImei(s: ConnectionState, incoming: seq<Read>, env: Env)
    requires s.imei.Some?
    ensures Run(s, incoming, env).state.imei.Some?
    decreases |incoming|
  {
    if incoming != [] {
      var first := ReadOnce(s, incoming[0], env);
      if incoming[0].Received? && incoming[0].bytes != [] {
        ImeiChangesOnlyByHandshake(s, incoming[0].bytes, env);
      }
      if first.exit == Open {
        RunKeepsImei(first.state, incoming[1..], env);
      }
    }
  }

  /** Before the handshake a chunk forwards nothing, and the chunk that stores the first IMEI
      writes the accept byte and nothing else. */
  lemma UnauthenticatedStepForwardsNothing(s: ConnectionState, data: seq<byte>, env: Env)
    requires s.imei.None?
    ensures var r := Step(s, data, env);
      && (forall k :: 0 <= k < |r.effects| ==> !r.effects[k].Forwarded?)
      && (r.state.imei.Some? ==> r.effects == [Wrote([ImeiAccepted])])
  {
  }

  /** Every sink call in `effects` comes after a write of the accept byte 0x01. */
  predicate ForwardsFollowAcceptance(effects: seq<Effect>) {
    forall k :: 0 <= k < |effects| && effects[k].Forwarded? ==>
      exists j :: 0 <= j < k && effects[j] == Wrote([ImeiAccepted])
  }

  /** Effects free of sink calls, followed either by effects that keep the order or, when
      they are the lone accept byte, by anything, keep the order. */
  lemma AcceptanceOrderAcrossConcat(a: seq<Effect>, b: seq<Effect>)
    requires forall k :: 0 <= k < |a| ==> !a[k].Forwarded?
    requires a == [Wrote([ImeiAccepted])] || ForwardsFollowAcceptance(b)
    ensures ForwardsFollowAcceptance(a + b)
  {
    forall k | 0 <= k < |a + b| && (a + b)[k].Forwarded?
      ensures exists j :: 0 <= j < k && (a + b)[j] == Wrote([ImeiAccepted])
    {
      assert k >= |a|;
      if a == [Wrote([ImeiAccepted])] {
        assert (a + b)[0] == Wrote([ImeiAccepted]);
      } else {
        assert b[k - |a|].Forwarded?;
        var i :| 0 <= i < k - |a| && b[i] == Wrote([ImeiAccepted]);
        assert (a + b)[i + |a|] == b[i];
      }
    }
  }

  /** The handshake gates forwarding: on a connection with no IMEI yet, such as a fresh one,
      every record sent to the sink comes after the accept byte 0x01 has been written. */
  lemma {:induction false} ForwardedOnlyAfterAcceptance(s: ConnectionState, incoming: seq<Read>, env: Env)
    requires s.imei.None?
    ensures ForwardsFollowAcceptance(Run(s, incoming, env).effects)
    decreases |incoming|
  {
    if incoming != [] {
      var first := ReadOnce(s, incoming[0], env);
      if incoming[0].Received? && incoming[0].bytes != [] {
        UnauthenticatedStepForwardsNothing(s, incoming[0].bytes, env);
      }
      if first.exit == Open {
        if first.state.imei.None? {
          ForwardedOnlyAfterAcceptance(first.state, incoming[1..], env);
        }
        AcceptanceOrderAcrossConcat(first.effects, Run(first.state, incoming[1..], env).effects);
      } else {
        AcceptanceOrderAcrossConcat(first.effects, []);
        assert first.effects + [] == first.effects;
      }
    }
  }

  /** Every record is forwarded under an IMEI that passed the authorization predicate. The
      ordering, nothing forwarded before an IMEI is accepted, is `ForwardedOnlyAfterAcceptance`. */
  lemma {:induction false} ForwardedOnlyUnderAuthorizedImei(s: ConnectionState, incoming: seq<Read>, env: Env)
    requires s.imei.Some? ==> env.authorize(s.imei.value)
    ensures var r := Run(s, incoming, env);
      forall k :: 0 <= k < |r.effects| && r.effects[k].Forwarded? ==> env.authorize(r.effects[k].imei)
    decreases |incoming|
  {
    if incoming != [] {
      var first := ReadOnce(s, incoming[0], env);
      assert first.state.imei.Some? ==> env.authorize(first.state.imei.value);
      assert forall k :: 0 <= k < |first.effects| && first.effects[k].Forwarded? ==> env.authorize(first.effects[k].imei);
      if first.exit == Open {
        ForwardedOnlyUnderAuthorizedImei(first.state, incoming[1..], env);
        assert forall k :: 0 <= k < |Run(first.state, incoming[1..], env).effects| && Run(first.state, incoming[1..], env).effects[k].Forwarded? ==>
          env.authorize(Run(first.state, incoming[1..], env).effects[k].imei);
        var rest := Run(first.state, incoming[1..], env);
        var all := first.effects + rest.effects;
        assert Run(s, incoming, env).effects == all;
        forall k | 0 <= k < |all| && all[k].Forwarded?
          ensures env.authorize(all[k].imei)
        {
          if k < |first.effects| {
            assert all[k] == first.effects[k];
          } else {
            assert all[k] == rest.effects[k - |first.effects|];
          }
        }
      }
    }
  }
}
