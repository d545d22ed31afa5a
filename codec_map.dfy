/**
 `buildCodecMap`: the map from payload type to codec, rebuilt from every
 attribute of every media block. It starts from the static payload types 0
 and 8 of RFC 3551, merges each decoded fragment into the entry for its
 payload type (a field already set is kept), collects wildcard `rtcp-fb`
 feedback, and finally adds that feedback to every codec.
 */
module CodecMap {
  import opened GoStrings
  import opened Codecs
  import opened Attributes

  /** Go's `codecs[pt]`: the stored codec, or the zero codec when there is none. */
  function Lookup(codecs: map<uint8, Codec>, pt: uint8): Codec
  {
    if pt in codecs then codecs[pt] else Unset
  }

  /** Every entry carries its own key as payload type. */
  predicate WellKeyed(codecs: map<uint8, Codec>)
  {
    forall pt :: pt in codecs ==> codecs[pt].payloadType == pt
  }

  /** The codec `mergeCodecs` stores: each field of `saved` that is set, otherwise that of `codec`. */
  function MergeFields(saved: Codec, codec: Codec): Codec
  {
    Codec(
      if saved.payloadType == 0 then codec.payloadType else saved.payloadType,
      if saved.name == "" then codec.name else saved.name,
      if saved.clockRate == 0 then codec.clockRate else saved.clockRate,
      if saved.encodingParameters == "" then codec.encodingParameters else saved.encodingParameters,
      if saved.fmtp == "" then codec.fmtp else saved.fmtp,
      saved.rtcpFeedback + codec.rtcpFeedback)
  }

  /** The map after `mergeCodecs(codec, codecs)`. */
  function Merged(codecs: map<uint8, Codec>, codec: Codec): map<uint8, Codec>
  {
    var saved := MergeFields(Lookup(codecs, codec.payloadType), codec);
    codecs[saved.payloadType := saved]
  }

  /**
   On a well-keyed map, merging writes only the entry for the fragment's
   payload type; there a field that was already set stays, an unset one takes
   the fragment's value, and the fragment's feedback is appended without
   removing repetitions. The map stays well keyed.
   */
  lemma MergedSpec(codecs: map<uint8, Codec>, codec: Codec)
    requires WellKeyed(codecs)
    ensures var r, pt, saved := Merged(codecs, codec), codec.payloadType, Lookup(codecs, codec.payloadType);
      && WellKeyed(r)
      && r.Keys == codecs.Keys + {pt}
      && (forall k :: k in codecs && k != pt ==> r[k] == codecs[k])
      && (saved.name != "" ==> r[pt].name == saved.name)
      && (saved.name == "" ==> r[pt].name == codec.name)
      && (saved.clockRate != 0 ==> r[pt].clockRate == saved.clockRate)
      && (saved.clockRate == 0 ==> r[pt].clockRate == codec.clockRate)
      && (saved.encodingParameters != "" ==> r[pt].encodingParameters == saved.encodingParameters)
      && (saved.encodingParameters == "" ==> r[pt].encodingParameters == codec.encodingParameters)
      && (saved.fmtp != "" ==> r[pt].fmtp == saved.fmtp)
      && (saved.fmtp == "" ==> r[pt].fmtp == codec.fmtp)
      && r[pt].rtcpFeedback == saved.rtcpFeedback + codec.rtcpFeedback
  {
  }

  /**
   The map `mergeCodecs` works on. Go passes the map by reference and
   `mergeCodecs` updates it in place, so here it is the field of an object.
   */
  class CodecTable {
    var codecs: map<uint8, Codec>

    /** The map `buildCodecMap` starts from. */
    constructor ()
      ensures codecs == StaticCodecs()
    {
      codecs := StaticCodecs();
    }

    /** `mergeCodecs(codec, codecs)`. */
    method Merge(codec: Codec)
      modifies this
      ensures codecs == Merged(old(codecs), codec)
    {
      var savedCodec := if codec.payloadType in codecs then codecs[codec.payloadType] else Unset;
      if savedCodec.payloadType == 0 {
        savedCodec := savedCodec.(payloadType := codec.payloadType);
      }
      if savedCodec.name == "" {
        savedCodec := savedCodec.(name := codec.name);
      }
      if savedCodec.clockRate == 0 {
        savedCodec := savedCodec.(clockRate := codec.clockRate);
      }
      if savedCodec.encodingParameters == "" {
        savedCodec := savedCodec.(encodingParameters := codec.encodingParameters);
      }
      if savedCodec.fmtp == "" {
        savedCodec := savedCodec.(fmtp := codec.fmtp);
      }
      savedCodec := savedCodec.(rtcpFeedback := savedCodec.rtcpFeedback + codec.rtcpFeedback);
      codecs := codecs[savedCodec.payloadType := savedCodec];
    }
  }

  /** The static codecs that need no `rtpmap`: PCMU and PCMA at 8000 Hz. */
  function StaticCodecs(): map<uint8, Codec>
  {
    map[0 := Codec(0, "PCMU", 8000, "", "", []), 8 := Codec(8, "PCMA", 8000, "", "", [])]
  }

  // ---------------------------------------------------------------------------
  // The scan, as a fold over the attributes.

  /** What the scan has gathered so far: the codec map and the wildcard feedback. */
  datatype ScanState = ScanState(codecs: map<uint8, Codec>, wildcards: seq<string>)

  /** One attribute of the scan: decode it by its key and merge or collect what it yields. */
  function ScanAttribute(st: ScanState, attr: string): ScanState
  {
    if "rtpmap:" <= attr then
      match ParseRtpmap(attr)
      case Ok(codec) => st.(codecs := Merged(st.codecs, codec))
      case Err(_) => st
    else if "fmtp:" <= attr then
      match ParseFmtp(attr)
      case Ok(codec) => st.(codecs := Merged(st.codecs, codec))
      case Err(_) => st
    else if "rtcp-fb:" <= attr then
      match ParseRtcpFb(attr)
      case Err(_) => st
      case Ok(fb) =>
        if fb.isWildcard then st.(wildcards := st.wildcards + fb.codec.rtcpFeedback)
        else st.(codecs := Merged(st.codecs, fb.codec))
    else st
  }

  function ScanAttributes(st: ScanState, attrs: seq<string>): ScanState
    decreases |attrs|
  {
    if attrs == [] then st else ScanAttributes(ScanAttribute(st, attrs[0]), attrs[1..])
  }

  function ScanMedia(st: ScanState, media: seq<MediaDescription>): ScanState
    decreases |media|
  {
    if media == [] then st else ScanMedia(ScanAttributes(st, media[0].attributes), media[1..])
  }

  /** The state after scanning every attribute of every media block of `sd`. */
  function Scanned(sd: SessionDescription): ScanState
  {
    ScanMedia(ScanState(StaticCodecs(), []), sd.mediaDescriptions)
  }

  /** Every codec, with each wildcard string appended to its feedback unless already there. */
  function Spread(codecs: map<uint8, Codec>, wildcards: seq<string>): map<uint8, Codec>
  {
    map pt | pt in codecs :: codecs[pt].(rtcpFeedback := WithAllFeedback(codecs[pt].rtcpFeedback, wildcards))
  }

  /** The map `buildCodecMap` returns for `sd`. */
  function CodecMapOf(sd: SessionDescription): map<uint8, Codec>
  {
    Spread(Scanned(sd).codecs, Scanned(sd).wildcards)
  }

  /** `buildCodecMap`: scan the attributes of every media block, then spread the wildcard feedback. */
  method BuildCodecMap(sd: SessionDescription) returns (codecs: map<uint8, Codec>)
    ensures codecs == CodecMapOf(sd)
  {
    var table := new CodecTable();
    var wildcards: seq<string> := [];
    var media := sd.mediaDescriptions;
    var i := 0;
    while i < |media|
      invariant 0 <= i <= |media|
      invariant ScanMedia(ScanState(table.codecs, wildcards), media[i..]) == Scanned(sd)
    {
      var attributes := media[i].attributes;
      var j := 0;
      while j < |attributes|
        invariant 0 <= j <= |attributes|
        invariant ScanMedia(ScanAttributes(ScanState(table.codecs, wildcards), attributes[j..]), media[i + 1..])
                  == Scanned(sd)
      {
        wildcards := ScanAttributeInto(table, attributes[j], wildcards);
        assert attributes[j..] == [attributes[j]] + attributes[j + 1..];
        j := j + 1;
      }
      assert media[i..] == [media[i]] + media[i + 1..];
      i := i + 1;
    }
    SpreadInto(table, wildcards);
    codecs := table.codecs;
  }

  /** The body of the scan: decode one attribute by its key, then merge or collect what it yields. */
  method ScanAttributeInto(table: CodecTable, attr: string, wildcards: seq<string>) returns (wildcards': seq<string>)
    modifies table
    ensures ScanState(table.codecs, wildcards') == ScanAttribute(ScanState(old(table.codecs), wildcards), attr)
  {
    wildcards' := wildcards;
    if "rtpmap:" <= attr {
      var parsed := ParseRtpmap(attr);
      if parsed.Ok? {
        table.Merge(parsed.value);
      }
    } else if "fmtp:" <= attr {
      var parsed := ParseFmtp(attr);
      if parsed.Ok? {
        table.Merge(parsed.value);
      }
    } else if "rtcp-fb:" <= attr {
      var parsed := ParseRtcpFb(attr);
      if parsed.Err? {
      } else if parsed.value.isWildcard {
        wildcards' := wildcards + parsed.value.codec.rtcpFeedback;
      } else {
        table.Merge(parsed.value.codec);
      }
    }
  }

  /** The final loop of `buildCodecMap`: every wildcard string is appended to every codec's feedback. */
  method SpreadInto(table: CodecTable, wildcards: seq<string>)
    modifies table
    ensures table.codecs == Spread(old(table.codecs), wildcards)
  {
    // Go visits the keys in no fixed order; any order gives the same map.
    ghost var scanned := table.codecs;
    var keys := table.codecs.Keys;
    while keys != {}
      invariant keys <= scanned.Keys
      invariant table.codecs.Keys == scanned.Keys
      invariant forall pt :: pt in keys ==> table.codecs[pt] == scanned[pt]
      invariant forall pt :: pt in scanned && pt !in keys ==> table.codecs[pt] == Spread(scanned, wildcards)[pt]
      decreases keys
    {
      var pt :| pt in keys;
      var codec := table.codecs[pt];
      ghost var before := table.codecs;
      var k := 0;
      while k < |wildcards|
        invariant 0 <= k <= |wildcards|
        invariant table.codecs == before
        invariant codec == scanned[pt].(rtcpFeedback := WithAllFeedback(scanned[pt].rtcpFeedback, wildcards[..k]))
      {
        codec := AppendRTCPFeedback(codec, wildcards[k]);
        assert wildcards[..k + 1][..k] == wildcards[..k];
        k := k + 1;
      }
      assert wildcards[..k] == wildcards;
      table.codecs := table.codecs[pt := codec];
      keys := keys - {pt};
    }
  }

  // ---------------------------------------------------------------------------
  // What the map promises.

  /** The static entries are present with their names and rates, and the map is well keyed. */
  predicate Seeded(codecs: map<uint8, Codec>)
  {
    && WellKeyed(codecs)
    && 0 in codecs && codecs[0].name == "PCMU" && codecs[0].clockRate == 8000
    && 8 in codecs && codecs[8].name == "PCMA" && codecs[8].clockRate == 8000
  }

  lemma MergedSeeded(codecs: map<uint8, Codec>, codec: Codec)
    requires Seeded(codecs)
    ensures Seeded(Merged(codecs, codec))
  {
    MergedSpec(codecs, codec);
  }

  lemma ScanAttributeSeeded(st: ScanState, attr: string)
    requires Seeded(st.codecs)
    ensures Seeded(ScanAttribute(st, attr).codecs)
  {
    if "rtpmap:" <= attr && ParseRtpmap(attr).Ok? {
      MergedSeeded(st.codecs, ParseRtpmap(attr).value);
    } else if "fmtp:" <= attr && ParseFmtp(attr).Ok? {
      MergedSeeded(st.codecs, ParseFmtp(attr).value);
    } else if "rtcp-fb:" <= attr && ParseRtcpFb(attr).Ok? {
      MergedSeeded(st.codecs, ParseRtcpFb(attr).value.codec);
    }
  }

  lemma {:induction false} ScanAttributesSeeded(st: ScanState, attrs: seq<string>)
    requires Seeded(st.codecs)
    ensures Seeded(ScanAttributes(st, attrs).codecs)
    decreases |attrs|
  {
    if attrs != [] {
      ScanAttributeSeeded(st, attrs[0]);
      ScanAttributesSeeded(ScanAttribute(st, attrs[0]), attrs[1..]);
    }
  }

  lemma {:induction false} ScanMediaSeeded(st: ScanState, media: seq<MediaDescription>)
    requires Seeded(st.codecs)
    ensures Seeded(ScanMedia(st, media).codecs)
    decreases |media|
  {
    if media != [] {
      ScanAttributesSeeded(st, media[0].attributes);
      ScanMediaSeeded(ScanAttributes(st, media[0].attributes), media[1..]);
    }
  }

  /**
   Whatever the attributes, payload types 0 and 8 are in the map as PCMU and
   PCMA at 8000 Hz (a later `rtpmap` cannot rename them, since set fields are
   kept), and every key maps to the codec of that payload type.
   */
  lemma CodecMapOfSeeded(sd: SessionDescription)
    ensures Seeded(CodecMapOf(sd))
  {
    ScanMediaSeeded(ScanState(StaticCodecs(), []), sd.mediaDescriptions);
  }

  /**
   Spreading the wildcard feedback keeps the keys and every field except the
   feedback, keeps each old feedback list as a prefix, and leaves every
   wildcard string in every codec's feedback.
   */
  lemma CodecMapOfSpreadsWildcards(sd: SessionDescription)
    ensures var m, st := CodecMapOf(sd), Scanned(sd);
      && m.Keys == st.codecs.Keys
      && (forall pt :: pt in m ==>
            m[pt] == st.codecs[pt].(rtcpFeedback := m[pt].rtcpFeedback)
            && st.codecs[pt].rtcpFeedback <= m[pt].rtcpFeedback)
      && (forall pt, w :: pt in m && w in st.wildcards ==> w in m[pt].rtcpFeedback)
  {
    var m, st := CodecMapOf(sd), Scanned(sd);
    forall pt | pt in m
      ensures st.codecs[pt].rtcpFeedback <= m[pt].rtcpFeedback
      ensures forall w :: w in st.wildcards ==> w in m[pt].rtcpFeedback
    {
      WithAllFeedbackSpec(st.codecs[pt].rtcpFeedback, st.wildcards);
    }
  }

  /** The attributes that change the scan: a known key whose value decodes. */
  predicate Contributes(attr: string)
  {
    if "rtpmap:" <= attr then ParseRtpmap(attr).Ok?
    else if "fmtp:" <= attr then ParseFmtp(attr).Ok?
    else if "rtcp-fb:" <= attr then ParseRtcpFb(attr).Ok?
    else false
  }

  function Contributing(attrs: seq<string>): seq<string>
  {
    if attrs == [] then []
    else if Contributes(attrs[0]) then [attrs[0]] + Contributing(attrs[1..])
    else Contributing(attrs[1..])
  }

  /**
   Attributes with another key, or whose value does not decode, leave the
   scan as it is: dropping them changes nothing.
   */
  lemma {:induction false} ScanIgnoresNonContributing(st: ScanState, attrs: seq<string>)
    ensures ScanAttributes(st, attrs) == ScanAttributes(st, Contributing(attrs))
    decreases |attrs|
  {
    if attrs != [] {
      ScanIgnoresNonContributing(ScanAttribute(st, attrs[0]), attrs[1..]);
      if Contributes(attrs[0]) {
        assert ([attrs[0]] + Contributing(attrs[1..]))[1..] == Contributing(attrs[1..]);
      }
    }
  }

  /** The `fmtp` attribute for payload type `pt`. */
  function FormatFmtp(pt: uint8, params: string): string
  {
    "fmtp" + ":" + Decimal(pt) + " " + params
  }

  /** A rendered `rtpmap` attribute is routed by its `rtpmap:` prefix. */
  lemma FormatRtpmapHasKey(c: Codec)
    ensures "rtpmap:" <= FormatRtpmap(c)
  {
    var pt := Decimal(c.payloadType);
    var rest := Join(RtpmapPieces(c), '/');
    JoinTwo("rtpmap", pt, ':');
    JoinTwo("rtpmap" + ":" + pt, rest, ' ');
    assert FormatRtpmap(c) == "rtpmap" + ":" + pt + " " + rest;
  }

  /** Decoding a rendered `fmtp` attribute gives back its payload type and parameters. */
  lemma ParseFormatFmtp(pt: uint8, params: string)
    ensures ParseFmtp(FormatFmtp(pt, params)) == Ok(Unset.(payloadType := pt, fmtp := params))
    ensures "fmtp:" <= FormatFmtp(pt, params) && !("rtpmap:" <= FormatFmtp(pt, params))
  {
    var token := Decimal(pt);
    DigitsFree(token);
    assert ':' !in "fmtp" && ' ' !in "fmtp";
    FmtpPayloadToken("fmtp", token, params);
    ParseDecimal(pt, 0xFF);
    assert FormatFmtp(pt, params)[0] == 'f';
  }

  /** Scanning two attributes is scanning one after the other. */
  lemma ScanTwo(st: ScanState, a: string, b: string)
    ensures ScanAttributes(st, [a, b]) == ScanAttribute(ScanAttribute(st, a), b)
  {
    assert [a, b][1..] == [b];
    assert [b][1..] == [];
    var st1 := ScanAttribute(st, a);
    assert ScanAttributes(st, [a, b]) == ScanAttributes(st1, [b]);
    assert ScanAttributes(st1, [b]) == ScanAttributes(ScanAttribute(st1, b), []);
  }

  /**
   An `rtpmap` line and a separate `fmtp` line for a new payload type merge
   into one codec carrying the name, rate and parameters of the first and the
   format parameters of the second.
   */
  lemma RtpmapThenFmtp(st: ScanState, c: Codec, params: string)
    requires WellKeyed(st.codecs) && c.payloadType !in st.codecs && RtpmapRenderable(c)
    ensures var after := ScanAttributes(st, [FormatRtpmap(c), FormatFmtp(c.payloadType, params)]);
      c.payloadType in after.codecs && after.codecs[c.payloadType] == c.(fmtp := params)
  {
    var rtpmap, fmtp := FormatRtpmap(c), FormatFmtp(c.payloadType, params);
    var fragment := Unset.(payloadType := c.payloadType, fmtp := params);
    ScanTwo(st, rtpmap, fmtp);
    var st1 := ScanAttribute(st, rtpmap);
    assert st1.codecs == Merged(st.codecs, c) by {
      FormatRtpmapHasKey(c);
      ParseFormatRtpmap(c);
    }
    MergedSpec(st.codecs, c);
    assert ScanAttribute(st1, fmtp).codecs == Merged(st1.codecs, fragment) by {
      ParseFormatFmtp(c.payloadType, params);
    }
    MergedSpec(st1.codecs, fragment);
  }

  /**
   The same for a whole session description: one media block holding an
   `rtpmap` and an `fmtp` line for a dynamic payload type yields one codec
   that carries both.
   */
  lemma SessionRtpmapThenFmtp(c: Codec, params: string)
    requires RtpmapRenderable(c) && c.payloadType != 0 && c.payloadType != 8
    ensures var sd := SessionDescription([MediaDescription([FormatRtpmap(c), FormatFmtp(c.payloadType, params)])]);
      c.payloadType in CodecMapOf(sd) && CodecMapOf(sd)[c.payloadType] == c.(fmtp := params)
  {
    var rtpmap, fmtp := FormatRtpmap(c), FormatFmtp(c.payloadType, params);
    var sd := SessionDescription([MediaDescription([rtpmap, fmtp])]);
    var st0 := ScanState(StaticCodecs(), []);
    RtpmapThenFmtp(st0, c, params);
    var st := ScanAttributes(st0, [rtpmap, fmtp]);
    assert Scanned(sd) == st by {
      assert sd.mediaDescriptions[0].attributes == [rtpmap, fmtp];
      assert sd.mediaDescriptions[1..] == [];
      assert ScanMedia(st0, sd.mediaDescriptions) == ScanMedia(st, []);
    }
    assert st.wildcards == [] by {
      ScanTwo(st0, rtpmap, fmtp);
      FormatRtpmapHasKey(c);
      ParseFormatFmtp(c.payloadType, params);
    }
    assert CodecMapOf(sd) == Spread(st.codecs, []);
    var codec := st.codecs[c.payloadType];
    assert Spread(st.codecs, [])[c.payloadType] == codec.(rtcpFeedback := WithAllFeedback(codec.rtcpFeedback, []));
  }
}
