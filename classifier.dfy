/** The first-match message classifier of src/handlers/connection.rs. */
module Classifier {
  import opened Wrappers
  import opened Models

  /** First byte of the device's acknowledgment-count message. */
  const AckMarker: byte := 0xFE

  /** Inclusive length bounds of a chunk that may hold an IMEI handshake. */
  const MinImeiLength: nat := 15
  const MaxImeiLength: nat := 25

  /** The foreign IMEI parser: `Some` when the bytes decode to an IMEI string. */
  type ImeiParser = seq<byte> -> Option<string>

  datatype MessageType = Imei | PartialAck | AckCount(count: byte) | Data

  /** `is_imei_message`: a length gate first, then the foreign parser decides. */
  function IsImeiMessage(data: seq<byte>, parseImei: ImeiParser): (r: bool)
    ensures |data| < MinImeiLength || |data| > MaxImeiLength ==> !r
    ensures MinImeiLength <= |data| <= MaxImeiLength ==> (r <==> parseImei(data).Some?)
  {
    if |data| < MinImeiLength || |data| > MaxImeiLength then
      false
    else
      match parseImei(data)
      case Some(_) => true
      case None => false
  }

  /** A lone marker byte, or any lone byte while a marker is pending, or the two-byte form. */
  predicate LooksLikeAck(data: seq<byte>, state: ConnectionState) {
    (|data| == 1 && (data[0] == AckMarker || state.partialAck.Some?)) ||
    (|data| == 2 && data[0] == AckMarker)
  }

  /** `identify_message_type`: the rules are tried in order and the first that matches wins. */
  function Classify(data: seq<byte>, state: ConnectionState, parseImei: ImeiParser): (r: MessageType)
    ensures r == Imei ==> MinImeiLength <= |data| <= MaxImeiLength && parseImei(data).Some?
    ensures r.AckCount? ==> 1 <= |data| <= 2 && r.count == data[|data| - 1]
  {
    if |data| == 1 && data[0] == AckMarker then
      PartialAck
    else if |data| == 1 && state.partialAck.Some? then
      AckCount(data[0])
    else if |data| == 2 && data[0] == AckMarker then
      AckCount(data[1])
    else if IsImeiMessage(data, parseImei) then
      Imei
    else
      Data
  }

  /** Each tag as a condition that does not depend on the order of the rules: a lone marker
      is always the start of a split count, even when one is already pending; a lone other
      byte is a count only while a marker is pending; the two-byte form is a count in any
      state; an IMEI handshake is never taken for a count, since it is at least 15 bytes. */
  lemma ClassifyCharacterised(data: seq<byte>, state: ConnectionState, parseImei: ImeiParser)
    ensures var r := Classify(data, state, parseImei);
      && (r == PartialAck <==> data == [AckMarker])
      && (r.AckCount? <==>
            (|data| == 1 && data[0] != AckMarker && state.partialAck.Some?) ||
            (|data| == 2 && data[0] == AckMarker))
      && (r.AckCount? ==> r.count == data[|data| - 1])
      && (r == Imei <==> IsImeiMessage(data, parseImei))
      && (r == Data <==> !LooksLikeAck(data, state) && !IsImeiMessage(data, parseImei))
  {
  }
}
