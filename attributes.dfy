/**
 Decoding of the three codec attributes of a media block into partial codecs:
 `rtpmap` and `fmtp` (section 6 of RFC 4566) and `rtcp-fb` (section 4.2 of
 RFC 4585). Each decoder sees the whole rendered attribute, key included, and
 either yields a codec carrying only what its attribute defines or fails.
 */
module Attributes {
  import opened GoStrings
  import opened Codecs

  /** A decoded `rtcp-fb` attribute; a wildcard one names no payload type. */
  datatype RtcpFb = RtcpFb(codec: Codec, isWildcard: bool)

  /** `parseRtpmap`: `rtpmap:<payload type> <encoding name>/<clock rate>[/<encoding parameters>]`. */
  function ParseRtpmap(rtpmap: string): (r: Result<Codec>)
    ensures r.Err? ==> r.error == ExtractCodecRtpmap
    ensures r.Ok? ==> r.value.fmtp == "" && r.value.rtcpFeedback == []
  {
    var split := Split(rtpmap, ' ');
    if |split| != 2 then Err(ExtractCodecRtpmap)
    else
      var ptSplit := Split(split[0], ':');
      if |ptSplit| != 2 then Err(ExtractCodecRtpmap)
      else
        match ParseUint(ptSplit[1], 0xFF)
        case None => Err(ExtractCodecRtpmap)
        case Some(pt) =>
          var parts := Split(split[1], '/');
          var rate := if |parts| > 1 then ParseUint(parts[1], 0xFFFF_FFFF) else Some(0);
          if rate.None? then Err(ExtractCodecRtpmap)
          else
            var params := if |parts| > 2 then parts[2] else "";
            Ok(Codec(pt, parts[0], rate.value, params, "", []))
  }

  /** `parseFmtp`: `fmtp:<format> <format specific parameters>`. */
  function ParseFmtp(fmtp: string): (r: Result<Codec>)
    ensures r.Err? ==> r.error == ExtractCodecFmtp
    ensures r.Ok? ==> ' ' in fmtp && r.value.fmtp == fmtp[IndexOf(fmtp, ' ') + 1..]
    ensures r.Ok? ==> r.value == Unset.(payloadType := r.value.payloadType, fmtp := r.value.fmtp)
  {
    var split := SplitN2(fmtp, ' ');
    if |split| != 2 then Err(ExtractCodecFmtp)
    else
      var formatParams := split[1];
      var ptSplit := Split(split[0], ':');
      if |ptSplit| != 2 then Err(ExtractCodecFmtp)
      else
        match ParseUint(ptSplit[1], 0xFF)
        case None => Err(ExtractCodecFmtp)
        case Some(pt) => Ok(Unset.(payloadType := pt, fmtp := formatParams))
  }

  /**
   `parseRtcpFb`: `rtcp-fb:<payload type or *> <feedback type> [<feedback parameter>]`.
   A malformed line is the `rtcp-fb` error, but a payload token that is neither
   `*` nor a number up to 255 yields the error of `strconv.ParseUint`.
   */
  function ParseRtcpFb(rtcpFb: string): (r: Result<RtcpFb>)
    ensures r.Err? ==> r.error == ExtractCodecRtcpFb || r.error.StrconvNumError?
    ensures r.Err? && r.error.StrconvNumError? ==> ' ' in rtcpFb
    ensures r.Ok? ==> ' ' in rtcpFb && r.value.codec.rtcpFeedback == [rtcpFb[IndexOf(rtcpFb, ' ') + 1..]]
    ensures r.Ok? ==> r.value.codec == Unset.(payloadType := r.value.codec.payloadType, rtcpFeedback := r.value.codec.rtcpFeedback)
    ensures r.Ok? && r.value.isWildcard ==> r.value.codec.payloadType == 0
  {
    var split := SplitN2(rtcpFb, ' ');
    if |split| != 2 then Err(ExtractCodecRtcpFb)
    else
      var ptSplit := Split(split[0], ':');
      if |ptSplit| != 2 then Err(ExtractCodecRtcpFb)
      else if ptSplit[1] == "*" then Ok(RtcpFb(Unset.(rtcpFeedback := [split[1]]), true))
      else
        match ParseUint(ptSplit[1], 0xFF)
        case None => Err(StrconvNumError(ParseUintError(ptSplit[1], 0xFF)))
        case Some(pt) => Ok(RtcpFb(Unset.(payloadType := pt, rtcpFeedback := [split[1]]), false))
  }

  // ---------------------------------------------------------------------------
  // Renderings of the attributes, the partners of the decoders.

  /** The fields an `rtpmap` attribute can carry, none holding a separator of its grammar. */
  predicate RtpmapRenderable(c: Codec)
  {
    && c.fmtp == "" && c.rtcpFeedback == []
    && ' ' !in c.name && '/' !in c.name
    && ' ' !in c.encodingParameters && '/' !in c.encodingParameters
  }

  /** The `<encoding name>/<clock rate>[/<encoding parameters>]` pieces of `c`. */
  function RtpmapPieces(c: Codec): (pieces: seq<string>)
    ensures 2 <= |pieces| <= 3
  {
    [c.name, Decimal(c.clockRate)] + if c.encodingParameters == "" then [] else [c.encodingParameters]
  }

  /** The `rtpmap` attribute describing `c`, numbers in shortest decimal. */
  function FormatRtpmap(c: Codec): string
  {
    Join([Join(["rtpmap", Decimal(c.payloadType)], ':'), Join(RtpmapPieces(c), '/')], ' ')
  }

  /** An attribute header `<key>:<payload token>` where neither part holds a space or a colon. */
  predicate PlainHeader(key: string, token: string)
  {
    ':' !in key && ' ' !in key && ':' !in token && ' ' !in token
  }

  lemma HeaderSplits(key: string, token: string)
    requires PlainHeader(key, token)
    ensures Split(key + ":" + token, ':') == [key, token]
    ensures ' ' !in key + ":" + token
    ensures Join([key, token], ':') == key + ":" + token
  {
    SplitJoin([key, token], ':');
    JoinFree([key, token], ':', ' ');
    assert Join([key, token], ':') == key + ":" + token;
  }

  lemma RtpmapPiecesSplit(c: Codec)
    requires RtpmapRenderable(c)
    ensures Split(Join(RtpmapPieces(c), '/'), '/') == RtpmapPieces(c)
    ensures ' ' !in Join(RtpmapPieces(c), '/')
  {
    var pieces := RtpmapPieces(c);
    DigitsFree(Decimal(c.clockRate));
    assert forall k :: 0 <= k < |pieces| ==> '/' !in pieces[k] && ' ' !in pieces[k];
    JoinFree(pieces, '/', ' ');
    SplitJoin(pieces, '/');
  }

  /** What `ParseRtpmap` yields once the three splits of its input are known. */
  lemma RtpmapFromPieces(s: string, head: string, tail: string, token: string, pieces: seq<string>)
    requires Split(s, ' ') == [head, tail] && Split(head, ':') == ["rtpmap", token]
    requires Split(tail, '/') == pieces && |pieces| >= 2
    requires ParseUint(token, 0xFF).Some? && ParseUint(pieces[1], 0xFFFF_FFFF).Some?
    ensures ParseRtpmap(s) == Ok(Codec(ParseUint(token, 0xFF).value, pieces[0],
      ParseUint(pieces[1], 0xFFFF_FFFF).value, if |pieces| > 2 then pieces[2] else "", "", []))
  {
  }

  lemma RtpmapHeadSplits(c: Codec)
    requires RtpmapRenderable(c)
    ensures Split(FormatRtpmap(c), ' ') == ["rtpmap" + ":" + Decimal(c.payloadType), Join(RtpmapPieces(c), '/')]
    ensures Split("rtpmap" + ":" + Decimal(c.payloadType), ':') == ["rtpmap", Decimal(c.payloadType)]
  {
    var pt := Decimal(c.payloadType);
    var head, tail := "rtpmap" + ":" + pt, Join(RtpmapPieces(c), '/');
    DigitsFree(pt);
    assert ':' !in "rtpmap" && ' ' !in "rtpmap";
    HeaderSplits("rtpmap", pt);
    RtpmapPiecesSplit(c);
    SplitJoin([head, tail], ' ');
  }

  /** Decoding the rendering of an `rtpmap`-describable codec gives the codec back. */
  lemma ParseFormatRtpmap(c: Codec)
    requires RtpmapRenderable(c)
    ensures ParseRtpmap(FormatRtpmap(c)) == Ok(c)
  {
    var pt, pieces := Decimal(c.payloadType), RtpmapPieces(c);
    RtpmapHeadSplits(c);
    RtpmapPiecesSplit(c);
    ParseDecimal(c.payloadType, 0xFF);
    ParseDecimal(c.clockRate, 0xFFFF_FFFF);
    RtpmapFromPieces(FormatRtpmap(c), "rtpmap" + ":" + pt, Join(pieces, '/'), pt, pieces);
  }

  /**
   An `rtpmap` attribute is decoded only if it holds exactly one space and its
   payload token is a decimal number no larger than 255.
   */
  lemma RtpmapRejects(s: string)
    ensures multiset(s)[' '] != 1 ==> ParseRtpmap(s).Err?
    ensures ParseRtpmap(s).Ok? ==>
      var ptSplit := Split(Split(s, ' ')[0], ':');
      |ptSplit| == 2 && ParseUint(ptSplit[1], 0xFF) == Some(ParseRtpmap(s).value.payloadType)
  {
    SplitCount(s, ' ');
  }

  /** The name is the text before the first `/`, and a codec without a clock-rate piece has rate 0. */
  lemma RtpmapFields(key: string, token: string, description: string)
    requires PlainHeader(key, token) && ' ' !in description
    requires ParseRtpmap(key + ":" + token + " " + description).Ok?
    ensures var c := ParseRtpmap(key + ":" + token + " " + description).value;
      && ParseUint(token, 0xFF) == Some(c.payloadType)
      && c.name == Split(description, '/')[0] && '/' !in c.name
      && ('/' !in description ==> c.clockRate == 0 && c.encodingParameters == "")
  {
    var head := key + ":" + token;
    HeaderSplits(key, token);
    SplitJoin([head, description], ' ');
    assert Join([head, description], ' ') == head + " " + description;
    SplitPiecesFree(description, '/');
  }

  /**
   The whole outcome of `rtpmap` decoding for `<key>:<token> <description>`:
   it fails unless the token is a decimal number up to 255 and, when the
   description has a second `/`-piece, that piece is a decimal number that
   fits 32 bits. Otherwise the codec has the name from the first piece, the
   clock rate from the second (0 without one), the encoding parameters from
   the third (empty without one), and ignores any further piece.
   */
  lemma RtpmapOutcome(key: string, token: string, description: string)
    requires PlainHeader(key, token) && ' ' !in description
    ensures var pieces := Split(description, '/');
      ParseRtpmap(key + ":" + token + " " + description) ==
        if ParseUint(token, 0xFF).None? then Err(ExtractCodecRtpmap)
        else if |pieces| > 1 && ParseUint(pieces[1], 0xFFFF_FFFF).None? then Err(ExtractCodecRtpmap)
        else Ok(Codec(ParseUint(token, 0xFF).value, pieces[0],
          if |pieces| > 1 then ParseUint(pieces[1], 0xFFFF_FFFF).value else 0,
          if |pieces| > 2 then pieces[2] else "", "", []))
  {
    var head := key + ":" + token;
    HeaderSplits(key, token);
    SplitJoin([head, description], ' ');
    assert Join([head, description], ' ') == head + " " + description;
  }

  /**
   `fmtp`: a payload token that is a decimal number up to 255 gives a codec
   with that payload type and everything after the first space, verbatim, as
   its parameters; any other token is an error.
   */
  lemma FmtpPayloadToken(key: string, token: string, params: string)
    requires PlainHeader(key, token)
    ensures ParseFmtp(key + ":" + token + " " + params) ==
      match ParseUint(token, 0xFF)
      case Some(pt) => Ok(Unset.(payloadType := pt, fmtp := params))
      case None => Err(ExtractCodecFmtp)
  {
    var head := key + ":" + token;
    HeaderSplits(key, token);
    SplitN2Cut(head, ' ', params);
    assert head + [' '] + params == key + ":" + token + " " + params;
  }

  /**
   `rtcp-fb`: the token `*` gives a wildcard entry without a payload type; a
   decimal token up to 255 gives an entry for that payload type; any other
   token fails with the error `strconv.ParseUint` reports for it. The
   feedback string is everything after the first space, verbatim.
   */
  lemma RtcpFbPayloadToken(key: string, token: string, feedback: string)
    requires PlainHeader(key, token)
    ensures ParseRtcpFb(key + ":" + token + " " + feedback) ==
      if token == "*" then Ok(RtcpFb(Unset.(rtcpFeedback := [feedback]), true))
      else match ParseUint(token, 0xFF)
        case Some(pt) => Ok(RtcpFb(Unset.(payloadType := pt, rtcpFeedback := [feedback]), false))
        case None => Err(StrconvNumError(ParseUintError(token, 0xFF)))
  {
    var head := key + ":" + token;
    HeaderSplits(key, token);
    SplitN2Cut(head, ' ', feedback);
    assert head + [' '] + feedback == key + ":" + token + " " + feedback;
  }

  /** A payload token with a letter is a syntax error; a number above 255 is a range error. */
  lemma RtcpFbTokenErrors()
    ensures ParseRtcpFb("rtcp-fb:abc nack") == Err(StrconvNumError(ErrSyntax))
    ensures ParseRtcpFb("rtcp-fb:256 nack") == Err(StrconvNumError(ErrRange))
  {
    RtcpFbSyntaxError();
    RtcpFbRangeError();
  }

  lemma RtcpFbSyntaxError()
    ensures ParseRtcpFb("rtcp-fb:abc nack") == Err(StrconvNumError(ErrSyntax))
  {
    assert "rtcp-fb" + ":" + "abc" + " " + "nack" == "rtcp-fb:abc nack";
    assert ParseUint("abc", 0xFF) == None && DigitRun("abc") == [];
    RtcpFbPayloadToken("rtcp-fb", "abc", "nack");
  }

  lemma RtcpFbRangeError()
    ensures ParseRtcpFb("rtcp-fb:256 nack") == Err(StrconvNumError(ErrRange))
  {
    assert "rtcp-fb" + ":" + "256" + " " + "nack" == "rtcp-fb:256 nack";
    assert DigitsValue("256") == 256 by {
      assert "256"[..2] == "25" && "25"[..1] == "2" && "2"[..0] == [];
    }
    RtcpFbPayloadToken("rtcp-fb", "256", "nack");
  }

  /** A decoded `rtcp-fb` attribute is a wildcard exactly when its payload token is `*`. */
  lemma RtcpFbWildcardIffStar(s: string)
    requires ParseRtcpFb(s).Ok?
    ensures ' ' in s
    ensures var token := Split(SplitN2(s, ' ')[0], ':')[1];
      ParseRtcpFb(s).value.isWildcard <==> token == "*"
  {
  }
}
