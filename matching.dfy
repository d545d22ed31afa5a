/**
 Fuzzy codec matching: `equivalentFmtp` compares two `fmtp` parameter strings
 part by part, and `codecsMatch` compares a wanted codec with a candidate,
 taking every field the wanted codec leaves empty as a wildcard.
 */
module Matching {
  import opened GoStrings
  import opened StringOrder
  import opened Codecs

  /** Each part trimmed of surrounding whitespace. */
  function TrimAll(parts: seq<string>): (r: seq<string>)
    ensures |r| == |parts|
    ensures forall k :: 0 <= k < |parts| ==> r[k] == TrimSpace(parts[k])
  {
    seq(|parts|, k requires 0 <= k < |parts| => TrimSpace(parts[k]))
  }

  /**
   `equivalentFmtp(want, got)`: both strings have the same number of
   `;`-separated parts and, once both part lists are sorted, the parts agree
   pairwise after trimming. The parts are sorted before they are trimmed.
   */
  predicate FmtpEquivalent(want: string, got: string)
  {
    TrimmedPairwise(SortStrings(Split(want, ';')), SortStrings(Split(got, ';')))
  }

  /** Equally many parts, agreeing position by position once trimmed. */
  predicate TrimmedPairwise(wantParts: seq<string>, gotParts: seq<string>)
  {
    |wantParts| == |gotParts|
    && forall k :: 0 <= k < |wantParts| ==> TrimSpace(wantParts[k]) == TrimSpace(gotParts[k])
  }

  /** The canonical form the comparison works on: the sorted parts, trimmed. */
  function FmtpNormalForm(fmtp: string): seq<string>
  {
    TrimAll(SortStrings(Split(fmtp, ';')))
  }

  /** Two parameter strings are equivalent exactly when their normal forms are equal. */
  lemma FmtpEquivalentIffSameNormalForm(want: string, got: string)
    ensures FmtpEquivalent(want, got) <==> FmtpNormalForm(want) == FmtpNormalForm(got)
  {
    var a, b := FmtpNormalForm(want), FmtpNormalForm(got);
    if a == b {
      assert forall k :: 0 <= k < |a| ==> a[k] == b[k];
    }
  }

  /** The relation is an equivalence: reflexive, symmetric and transitive. */
  lemma FmtpEquivalentIsEquivalence(a: string, b: string, c: string)
    ensures FmtpEquivalent(a, a)
    ensures FmtpEquivalent(a, b) ==> FmtpEquivalent(b, a)
    ensures FmtpEquivalent(a, b) && FmtpEquivalent(b, c) ==> FmtpEquivalent(a, c)
  {
    FmtpEquivalentIffSameNormalForm(a, a);
    FmtpEquivalentIffSameNormalForm(a, b);
    FmtpEquivalentIffSameNormalForm(b, a);
    FmtpEquivalentIffSameNormalForm(b, c);
    FmtpEquivalentIffSameNormalForm(a, c);
  }

  /** Strings with different numbers of `;` separators are never equivalent. */
  lemma FmtpEquivalentNeedsSamePartCount(want: string, got: string)
    requires multiset(want)[';'] != multiset(got)[';']
    ensures !FmtpEquivalent(want, got)
  {
    SplitCount(want, ';');
    SplitCount(got, ';');
  }

  /** Rearranging the `;`-parts of one side does not change the outcome. */
  lemma FmtpEquivalentIgnoresPartOrder(want: string, want': string, got: string)
    requires multiset(Split(want, ';')) == multiset(Split(want', ';'))
    ensures FmtpEquivalent(want, got) == FmtpEquivalent(want', got)
  {
    SortedUnique(SortStrings(Split(want, ';')), SortStrings(Split(want', ';')));
  }

  lemma SplitTwoParts(a: string, b: string)
    requires ';' !in a && ';' !in b
    ensures Split(a + ";" + b, ';') == [a, b]
  {
    SplitJoin([a, b], ';');
    JoinTwo(a, b, ';');
  }

  /** The sorted parts of a two-part string whose parts are already in order, either way round. */
  lemma SortTwoParts(a: string, b: string)
    requires ';' !in a && ';' !in b && LessEq(a, b)
    ensures SortStrings(Split(a + ";" + b, ';')) == [a, b]
    ensures SortStrings(Split(b + ";" + a, ';')) == [a, b]
  {
    SplitTwoParts(a, b);
    SplitTwoParts(b, a);
    assert multiset([a, b]) == multiset([b, a]);
    SortedIsSortStrings([a, b], [a, b]);
    SortedIsSortStrings([a, b], [b, a]);
  }

  lemma TrimLiterals()
    ensures TrimSpace(" b=1") == "b=1" && TrimSpace("a=2") == "a=2"
  {
    assert TrimLeft(" b=1") == TrimLeft("b=1");
  }

  /**
   Because the parts are sorted before they are trimmed, whitespace is
   tolerated only where trimming does not change the sorted order:
   `"b=1;a=2"` matches `"a=2;b=1"` but not `"a=2; b=1"`, whose part
   `" b=1"` sorts before `"a=2"`.
   */
  lemma FmtpSortsBeforeTrimming()
    ensures FmtpEquivalent("b=1;a=2", "a=2;b=1")
    ensures !FmtpEquivalent("b=1;a=2", "a=2; b=1")
  {
    SortedLiterals();
    TrimLiterals();
    assert "b=1" != "a=2";
  }

  lemma SortedLiterals()
    ensures SortStrings(Split("b=1;a=2", ';')) == ["a=2", "b=1"]
    ensures SortStrings(Split("a=2;b=1", ';')) == ["a=2", "b=1"]
    ensures SortStrings(Split("a=2; b=1", ';')) == [" b=1", "a=2"]
  {
    PlainPartsSorted();
    SpacedPartsSorted();
  }

  lemma PlainPartsSorted()
    ensures SortStrings(Split("b=1;a=2", ';')) == ["a=2", "b=1"]
    ensures SortStrings(Split("a=2;b=1", ';')) == ["a=2", "b=1"]
  {
    assert "b=1" + ";" + "a=2" == "b=1;a=2" && "a=2" + ";" + "b=1" == "a=2;b=1";
    assert SortStrings(Split("a=2" + ";" + "b=1", ';')) == ["a=2", "b=1"]
        && SortStrings(Split("b=1" + ";" + "a=2", ';')) == ["a=2", "b=1"] by {
      assert LessEq("a=2", "b=1");
      SortTwoParts("a=2", "b=1");
    }
  }

  lemma SpacedPartsSorted()
    ensures SortStrings(Split("a=2; b=1", ';')) == [" b=1", "a=2"]
  {
    assert "a=2" + ";" + " b=1" == "a=2; b=1";
    assert SortStrings(Split("a=2" + ";" + " b=1", ';')) == [" b=1", "a=2"] by {
      assert LessEq(" b=1", "a=2");
      SortTwoParts(" b=1", "a=2");
    }
  }

  /** `equivalentFmtp`: split both strings, sort the part lists in place, compare trimmed parts. */
  method EquivalentFmtp(want: string, got: string) returns (equivalent: bool)
    ensures equivalent == FmtpEquivalent(want, got)
  {
    var wantSplit, gotSplit := Split(want, ';'), Split(got, ';');
    if |wantSplit| != |gotSplit| {
      return false;
    }
    var wantParts := SortedSlice(wantSplit);
    var gotParts := SortedSlice(gotSplit);
    equivalent := CompareTrimmed(wantParts, gotParts);
  }

  /** The split parts as a Go slice, sorted in place by `sort.Strings`. */
  method SortedSlice(parts: seq<string>) returns (slice: array<string>)
    ensures fresh(slice)
    ensures slice[..] == SortStrings(parts)
  {
    slice := new string[|parts|](k requires 0 <= k < |parts| => parts[k]);
    assert slice[..] == parts;
    SortInPlace(slice);
  }

  /** The comparison loop of `equivalentFmtp` over the two sorted part lists. */
  method CompareTrimmed(wantParts: array<string>, gotParts: array<string>) returns (equal: bool)
    requires wantParts.Length == gotParts.Length
    ensures equal == TrimmedPairwise(wantParts[..], gotParts[..])
  {
    var i := 0;
    while i < wantParts.Length
      invariant 0 <= i <= wantParts.Length
      invariant forall k :: 0 <= k < i ==> TrimSpace(wantParts[k]) == TrimSpace(gotParts[k])
    {
      if TrimSpace(wantParts[i]) != TrimSpace(gotParts[i]) {
        return false;
      }
      i := i + 1;
    }
    return true;
  }

  /**
   `codecsMatch(wanted, got)`: every field `wanted` sets constrains `got` —
   the name up to ASCII case, clock rate and encoding parameters exactly,
   the format parameters by `FmtpEquivalent`. Payload type and feedback are
   not compared.
   */
  predicate CodecsMatch(wanted: Codec, got: Codec): (r: bool)
    ensures MatchesAnything(wanted) ==> r
    ensures wanted == got ==> r
  {
    FmtpEquivalentIsEquivalence(wanted.fmtp, wanted.fmtp, wanted.fmtp);
    && (wanted.name == "" || EqualFold(wanted.name, got.name))
    && (wanted.clockRate == 0 || wanted.clockRate == got.clockRate)
    && (wanted.encodingParameters == "" || wanted.encodingParameters == got.encodingParameters)
    && (wanted.fmtp == "" || FmtpEquivalent(wanted.fmtp, got.fmtp))
  }

  /** A codec that sets none of the four compared fields. */
  predicate MatchesAnything(wanted: Codec)
  {
    wanted.name == "" && wanted.clockRate == 0 && wanted.encodingParameters == "" && wanted.fmtp == ""
  }

  /**
   A wanted codec with all four fields empty matches every codec, and the
   outcome never depends on payload type or feedback of either side.
   */
  lemma CodecsMatchWildcards(wanted: Codec, got: Codec, pt1: uint8, pt2: uint8, fb1: seq<string>, fb2: seq<string>)
    ensures MatchesAnything(wanted) ==> CodecsMatch(wanted, got)
    ensures CodecsMatch(wanted, got) ==
            CodecsMatch(wanted.(payloadType := pt1, rtcpFeedback := fb1), got.(payloadType := pt2, rtcpFeedback := fb2))
  {
  }

  /** Every codec matches itself, and names match regardless of ASCII case. */
  lemma CodecsMatchReflexive(c: Codec, name: string)
    ensures CodecsMatch(c, c)
    ensures EqualFold(c.name, name) ==> CodecsMatch(c, c.(name := name))
  {
    FmtpEquivalentIsEquivalence(c.fmtp, c.fmtp, c.fmtp);
  }

  /** A wanted codec that sets a field rules out candidates that differ in it. */
  lemma CodecsMatchConstrains(wanted: Codec, got: Codec)
    requires CodecsMatch(wanted, got)
    ensures wanted.name != "" ==> EqualFold(wanted.name, got.name)
    ensures wanted.clockRate != 0 ==> got.clockRate == wanted.clockRate
    ensures wanted.encodingParameters != "" ==> got.encodingParameters == wanted.encodingParameters
    ensures wanted.fmtp != "" ==> FmtpNormalForm(got.fmtp) == FmtpNormalForm(wanted.fmtp)
  {
    if wanted.fmtp != "" {
      FmtpEquivalentIffSameNormalForm(wanted.fmtp, got.fmtp);
    }
  }
}
