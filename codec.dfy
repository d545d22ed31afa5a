/**
 The codec descriptor of `util.go`, its feedback list, and the connection
 role's name that sits beside it.
 */
module Codecs {
  import opened GoStrings

  type uint8 = x: int | 0 <= x < 0x100
  type uint32 = x: int | 0 <= x < 0x1_0000_0000

  /**
   A codec as the engine rebuilds it: a payload type, the `rtpmap` name, clock
   rate and encoding parameters, the `fmtp` parameter string and the `rtcp-fb`
   feedback strings. The empty string and zero mean "not known yet".
   */
  datatype Codec = Codec(
    payloadType: uint8,
    name: string,
    clockRate: uint32,
    encodingParameters: string,
    fmtp: string,
    rtcpFeedback: seq<string>)

  /** The zero value of the Go struct. */
  const Unset := Codec(0, "", 0, "", "", [])

  /**
   The errors the engine reports. `rtcp-fb` decoding passes on the error of
   `strconv.ParseUint` for a bad payload token instead of its own.
   */
  datatype Error =
    | ExtractCodecRtpmap
    | ExtractCodecFmtp
    | ExtractCodecRtcpFb
    | StrconvNumError(reason: NumError)
    | PayloadTypeNotFound
    | CodecNotFound

  datatype Result<T> = Ok(value: T) | Err(error: Error)

  /** A media block, reduced to its attributes, each rendered as `key` or `key:value`. */
  datatype MediaDescription = MediaDescription(attributes: seq<string>)

  /** A session description, reduced to its media blocks in encounter order. */
  datatype SessionDescription = SessionDescription(mediaDescriptions: seq<MediaDescription>)

  // The connection roles are the Go constants 1 to 4 (`iota + 1`).
  const ConnectionRoleActive := 1
  const ConnectionRolePassive := 2
  const ConnectionRoleActpass := 3
  const ConnectionRoleHoldconn := 4

  /** `ConnectionRole.String`: the role's keyword, or "Unknown" for any other value. */
  function ConnectionRoleString(role: int): (s: string)
    ensures s == "Unknown" <==> !(ConnectionRoleActive <= role <= ConnectionRoleHoldconn)
  {
    match role
    case 1 => "active"
    case 2 => "passive"
    case 3 => "actpass"
    case 4 => "holdconn"
    case _ => "Unknown"
  }

  /** Distinct roles have distinct names. */
  lemma ConnectionRoleStringInjective(r1: int, r2: int)
    requires ConnectionRoleActive <= r1 <= ConnectionRoleHoldconn
    requires ConnectionRoleActive <= r2 <= ConnectionRoleHoldconn
    requires ConnectionRoleString(r1) == ConnectionRoleString(r2)
    ensures r1 == r2
  {
    var s1, s2 := ConnectionRoleString(r1), ConnectionRoleString(r2);
    assert s1[0] == s2[0] && s1[|s1| - 1] == s2[|s2| - 1];
  }

  /** `c.RTCPFeedback` after `appendRTCPFeedback(s)`: `s` is added at the end unless present. */
  function WithFeedback(list: seq<string>, s: string): seq<string>
  {
    if s in list then list else list + [s]
  }

  /** Feedback strings without repetition. */
  predicate NoDuplicates(list: seq<string>)
  {
    forall i, j :: 0 <= i < j < |list| ==> list[i] != list[j]
  }

  /** `(*Codec).appendRTCPFeedback`: scan for the string and append it if it is not there. */
  method AppendRTCPFeedback(c: Codec, s: string) returns (r: Codec)
    ensures s in c.rtcpFeedback ==> r == c
    ensures s !in c.rtcpFeedback ==> r == c.(rtcpFeedback := c.rtcpFeedback + [s])
  {
    var i := 0;
    while i < |c.rtcpFeedback|
      invariant 0 <= i <= |c.rtcpFeedback|
      invariant s !in c.rtcpFeedback[..i]
    {
      if c.rtcpFeedback[i] == s {
        return c;
      }
      i := i + 1;
    }
    assert c.rtcpFeedback[..i] == c.rtcpFeedback;
    r := c.(rtcpFeedback := c.rtcpFeedback + [s]);
  }

  /** Appending keeps a list free of repetitions, and afterwards the string is in it. */
  lemma WithFeedbackKeepsNoDuplicates(list: seq<string>, s: string)
    requires NoDuplicates(list)
    ensures NoDuplicates(WithFeedback(list, s))
    ensures s in WithFeedback(list, s)
  {
  }

  /** Appending the same string twice is appending it once. */
  lemma WithFeedbackIdempotent(list: seq<string>, s: string)
    ensures WithFeedback(WithFeedback(list, s), s) == WithFeedback(list, s)
  {
  }

  /** `c.RTCPFeedback` after `appendRTCPFeedback` with each string of `ss` in turn. */
  function WithAllFeedback(list: seq<string>, ss: seq<string>): seq<string>
  {
    if ss == [] then list else WithFeedback(WithAllFeedback(list, ss[..|ss| - 1]), ss[|ss| - 1])
  }

  /**
   Appending a sequence of strings keeps the old list as a prefix, ends up
   containing every appended string, adds nothing else, and keeps a
   repetition-free list repetition-free.
   */
  lemma {:induction false} WithAllFeedbackSpec(list: seq<string>, ss: seq<string>)
    ensures list <= WithAllFeedback(list, ss)
    ensures forall s :: s in ss ==> s in WithAllFeedback(list, ss)
    ensures forall s :: s in WithAllFeedback(list, ss) ==> s in list || s in ss
    ensures NoDuplicates(list) ==> NoDuplicates(WithAllFeedback(list, ss))
  {
    if ss != [] {
      var init := ss[..|ss| - 1];
      WithAllFeedbackSpec(list, init);
      assert ss == init + [ss[|ss| - 1]];
      if NoDuplicates(list) {
        WithFeedbackKeepsNoDuplicates(WithAllFeedback(list, init), ss[|ss| - 1]);
      }
    }
  }
}
