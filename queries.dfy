/**
 The public queries of a session description: the codec for a payload type,
 the codecs for a list of payload types, and the payload type of a codec that
 matches a wanted one. Each rebuilds the codec map first.
 */
module Queries {
  import opened Codecs
  import opened CodecMap
  import opened Matching

  /**
   `GetCodecForPayloadType`: the codec the map holds for `payloadType`, or
   `PayloadTypeNotFound`. The static payload types 0 and 8 are always found.
   */
  method GetCodecForPayloadType(sd: SessionDescription, payloadType: uint8) returns (r: Result<Codec>)
    ensures payloadType in CodecMapOf(sd) ==> r == Ok(CodecMapOf(sd)[payloadType])
    ensures payloadType !in CodecMapOf(sd) ==> r == Err(PayloadTypeNotFound)
    ensures r.Ok? ==> r.value.payloadType == payloadType
    ensures payloadType == 0 || payloadType == 8 ==> r.Ok?
  {
    var codecs := BuildCodecMap(sd);
    CodecMapOfSeeded(sd);
    if payloadType in codecs {
      return Ok(codecs[payloadType]);
    }
    return Err(PayloadTypeNotFound);
  }

  /** The codecs the map holds for `payloadTypes`, in their order, unknown ones skipped. */
  function FoundCodecs(codecs: map<uint8, Codec>, payloadTypes: seq<uint8>): seq<Codec>
  {
    if payloadTypes == [] then []
    else
      var pt := payloadTypes[|payloadTypes| - 1];
      FoundCodecs(codecs, payloadTypes[..|payloadTypes| - 1]) + if pt in codecs then [codecs[pt]] else []
  }

  /** The payload types of `payloadTypes` that the map knows, in their order. */
  function Known(codecs: map<uint8, Codec>, payloadTypes: seq<uint8>): (known: seq<uint8>)
    ensures |known| <= |payloadTypes|
    ensures forall pt :: pt in known <==> pt in payloadTypes && pt in codecs
  {
    if payloadTypes == [] then []
    else
      var pt := payloadTypes[|payloadTypes| - 1];
      Known(codecs, payloadTypes[..|payloadTypes| - 1]) + if pt in codecs then [pt] else []
  }

  /**
   The codecs found are exactly the map's entries for the known payload types,
   one per known payload type and in the same order.
   */
  lemma {:induction false} FoundCodecsAreKnown(codecs: map<uint8, Codec>, payloadTypes: seq<uint8>)
    ensures var found, known := FoundCodecs(codecs, payloadTypes), Known(codecs, payloadTypes);
      && |found| == |known|
      && forall k :: 0 <= k < |known| ==> found[k] == codecs[known[k]]
  {
    if payloadTypes != [] {
      FoundCodecsAreKnown(codecs, payloadTypes[..|payloadTypes| - 1]);
    }
  }

  /** When every requested payload type is known, each request yields a codec. */
  lemma {:induction false} AllKnown(codecs: map<uint8, Codec>, payloadTypes: seq<uint8>)
    requires forall pt :: pt in payloadTypes ==> pt in codecs
    ensures Known(codecs, payloadTypes) == payloadTypes
  {
    if payloadTypes != [] {
      var init := payloadTypes[..|payloadTypes| - 1];
      assert forall pt :: pt in init ==> pt in payloadTypes;
      AllKnown(codecs, init);
      assert payloadTypes == init + [payloadTypes[|payloadTypes| - 1]];
    }
  }

  /** `GetCodecsForPayloadTypes`: never fails; unknown payload types are skipped. */
  method GetCodecsForPayloadTypes(sd: SessionDescription, payloadTypes: seq<uint8>) returns (r: Result<seq<Codec>>)
    ensures r == Ok(FoundCodecs(CodecMapOf(sd), payloadTypes))
  {
    var codecs := BuildCodecMap(sd);
    var result: seq<Codec> := [];
    var i := 0;
    while i < |payloadTypes|
      invariant 0 <= i <= |payloadTypes|
      invariant result == FoundCodecs(codecs, payloadTypes[..i])
    {
      var payloadType := payloadTypes[i];
      assert payloadTypes[..i + 1][..i] == payloadTypes[..i];
      if payloadType in codecs {
        result := result + [codecs[payloadType]];
      }
      i := i + 1;
    }
    assert payloadTypes[..i] == payloadTypes;
    return Ok(result);
  }

  /** Each returned codec carries the payload type it was requested under. */
  lemma FoundCodecsKeyed(sd: SessionDescription, payloadTypes: seq<uint8>)
    ensures var found, known := FoundCodecs(CodecMapOf(sd), payloadTypes), Known(CodecMapOf(sd), payloadTypes);
      && |found| == |known| <= |payloadTypes|
      && forall k :: 0 <= k < |known| ==> found[k].payloadType == known[k] && known[k] in payloadTypes
  {
    CodecMapOfSeeded(sd);
    FoundCodecsAreKnown(CodecMapOf(sd), payloadTypes);
  }

  /**
   `GetPayloadTypeForCodec`: a payload type whose codec matches `wanted`, in
   whatever order the map is walked, or `CodecNotFound` when none matches. A
   wanted codec that sets none of the compared fields always finds one.
   */
  method GetPayloadTypeForCodec(sd: SessionDescription, wanted: Codec) returns (r: Result<uint8>)
    ensures r.Ok? ==> r.value in CodecMapOf(sd) && CodecsMatch(wanted, CodecMapOf(sd)[r.value])
    ensures r.Err? ==> r.error == CodecNotFound
    ensures r.Err? ==> forall pt :: pt in CodecMapOf(sd) ==> !CodecsMatch(wanted, CodecMapOf(sd)[pt])
    ensures MatchesAnything(wanted) ==> r.Ok?
  {
    var codecs := BuildCodecMap(sd);
    CodecMapOfSeeded(sd);
    var unvisited := codecs.Keys;
    while unvisited != {}
      invariant unvisited <= codecs.Keys
      invariant forall pt :: pt in codecs && pt !in unvisited ==> !CodecsMatch(wanted, codecs[pt])
      decreases unvisited
    {
      var payloadType :| payloadType in unvisited;
      if CodecsMatch(wanted, codecs[payloadType]) {
        return Ok(payloadType);
      }
      unvisited := unvisited - {payloadType};
    }
    return Err(CodecNotFound);
  }
}
