# Codec extraction and matching of pion/sdp, in Dafny

This project models the codec engine of `util.go` in the Go SDP library pion/sdp.

The engine takes the attribute lines of every media block of a session description. It rebuilds a map from RTP payload type to `Codec` in four steps:

- **Decode.** Each `rtpmap:`, `fmtp:` and `rtcp-fb:` attribute is decoded into a partial codec. The grammars are those of section 6 of RFC 4566 and section 4.2 of RFC 4585.
- **Merge.** Each partial codec is merged into the entry for its payload type. A field that is already set wins; feedback is appended.
- **Seed.** The map starts with the static payload types 0 (PCMU/8000) and 8 (PCMA/8000) of RFC 3551.
- **Spread.** After the scan, wildcard `rtcp-fb:*` feedback is added to every codec.

Three queries run on that map:

- the codec for a payload type;
- the codecs for a list of payload types;
- a payload type whose codec matches a wanted codec. Empty fields are wildcards, names compare without ASCII case, and `fmtp` parameter lists compare without regard to part order.

Two small helpers from the same file are also modelled: the name of a `ConnectionRole`, and the top-bit mask of `newSessionID`.

Module layout:

- `GoStrings` (`go_strings.dfy`): the Go library functions the engine calls. These are `strings.Split`, `SplitN(.., 2)`, `TrimSpace`, ASCII `EqualFold` and decimal `strconv.ParseUint`, plus `Join` and a decimal renderer as their partners.
- `StringOrder` (`string_order.dfy`): the byte order of `sort.Strings`, with the in-place sort proved against a sorted-permutation specification.
- `Codecs` (`codec.dfy`): the `Codec` value, errors, the session description reduced to rendered attribute strings, `ConnectionRole.String` and `appendRTCPFeedback`.
- `SessionIds` (`session_id.dfy`): the `newSessionID` mask.
- `Attributes` (`attributes.dfy`): the three decoders, plus an `rtpmap` renderer proved to round-trip.
- `CodecMap` (`codec_map.dfy`): `mergeCodecs` as a method of a map-holding class, and `buildCodecMap` as nested loops. Both are proved against a fold over the attributes, with the invariants the map keeps.
- `Matching` (`matching.dfy`): `equivalentFmtp`, which sorts two arrays in place and compares them in a loop, and `codecsMatch`.
- `Queries` (`queries.dfy`): the three `Get*` methods.

Three behaviours of the code are easy to misread, and the model keeps them as written:

- `mergeCodecs` appends the new feedback list without removing repetitions. Only the final wildcard spread uses the de-duplicating `appendRTCPFeedback`.
- `equivalentFmtp` sorts the parts before it trims them. So `"b=1;a=2"` and `"a=2; b=1"` are not equivalent: `" b=1"` sorts first. `Matching.FmtpSortsBeforeTrimming` proves this.
- `parseRtcpFb` returns the error of `strconv.ParseUint` for a bad payload token, because the call assigns to the named result `err`. Every other malformed line gets the `rtcp-fb` error. `Attributes.RtcpFbTokenErrors` shows both kinds of strconv error.

## Model

| member | source | states |
|---|---|---|
| Codecs.ConnectionRoleString | util.go:49-62 | the name is "Unknown" exactly when the role is outside 1..4 |
| Codecs.ConnectionRoleStringInjective | util.go:49-62 | distinct roles 1..4 have distinct names |
| SessionIds.MaskSessionID | util.go:64-72 | the masked session id is below 2^63 |
| SessionIds.MaskSessionIDKeepsLowDraw | util.go:71 | a draw below 2^63 is returned unchanged |
| SessionIds.MaskSessionIDClearsTopBit | util.go:71 | a draw of at least 2^63 loses exactly 2^63, so the result is the draw modulo 2^63 |
| Codecs.AppendRTCPFeedback | util.go:100-108 | a string already present leaves the codec unchanged; otherwise it is appended at the end and nothing else changes |
| Codecs.WithFeedbackKeepsNoDuplicates | util.go:100-108 | appending keeps a repetition-free feedback list repetition-free and leaves the string in it |
| Codecs.WithFeedbackIdempotent | util.go:100-108 | appending the same string twice equals appending it once |
| Codecs.WithAllFeedbackSpec | util.go:273-279 | appending a list of strings keeps the old list as a prefix, contains every appended string, adds nothing else, and preserves freedom from repetition |
| GoStrings.SplitCount | util.go:115 | `strings.Split` yields one piece more than there are separators |
| GoStrings.SplitJoin | util.go:115 | splitting a join of separator-free pieces returns the pieces |
| GoStrings.JoinSplit | util.go:115 | joining the pieces of a split restores the string |
| GoStrings.SplitPiecesFree | util.go:132 | no piece of a split contains the separator |
| GoStrings.SplitN2 | util.go:154 | `SplitN(s, sep, 2)` gives one piece exactly when the separator is absent; otherwise it cuts at the first separator, and the head is free of it |
| GoStrings.ParseUint | util.go:125 | a parsed value is at most the bound, and the token is a non-empty run of decimal digits |
| GoStrings.ParseUintError | util.go:194-196 | the reason `strconv.ParseUint` reports: an all-digit token that fails is out of range, and a range error needs a leading digit |
| GoStrings.ParseDecimal | util.go:136 | the shortest decimal rendering of n parses back to n exactly when n is within the bound |
| GoStrings.TrimSpaceSpec | util.go:296-297 | `TrimSpace` returns a contiguous stretch of its input that neither starts nor ends with whitespace; everything dropped is whitespace |
| StringOrder.LessEqAntisymmetric | util.go:292-293 | the order of `sort.Strings` is antisymmetric |
| StringOrder.LessEqTransitive | util.go:292-293 | the order of `sort.Strings` is transitive |
| StringOrder.SortStrings | util.go:292-293 | the sorted list is sorted and a permutation of its input |
| StringOrder.SortedUnique | util.go:292-293 | two sorted permutations of the same strings are equal, so sorting has one answer |
| StringOrder.SortInPlace | util.go:292-293 | sorting a slice in place leaves exactly the sorted permutation of its old contents |
| Attributes.ParseRtpmap | util.go:110-147 | failures are always the rtpmap error, and a decoded codec has no fmtp and no feedback |
| Attributes.RtpmapRejects | util.go:115-128 | an rtpmap without exactly one space fails; on success the second `:`-piece of the head parses as the payload type, at most 255 |
| Attributes.RtpmapFields | util.go:132-146 | the name is the text before the first `/`; without a `/` the clock rate is 0 and the encoding parameters are empty |
| Attributes.RtpmapFromPieces | util.go:132-146 | once the three splits are known, the codec takes the payload type from the token, the name, clock rate and encoding parameters from the first three `/`-pieces, and ignores further pieces |
| Attributes.RtpmapOutcome | util.go:110-147 | for a plain `key:token description` line: an error exactly when the token is not a decimal up to 255 or a second `/`-piece is not a decimal up to 2^32 - 1; otherwise the exact codec, with rate 0 and empty parameters where the pieces are missing |
| Attributes.ParseFormatRtpmap | util.go:110-147 | decoding the rendering of any rtpmap-describable codec returns that codec |
| Attributes.ParseFmtp | util.go:149-175 | failures are always the fmtp error; on success the parameters are everything after the first space, verbatim, and every field other than payload type and fmtp is unset |
| Attributes.FmtpPayloadToken | util.go:154-174 | an fmtp line decodes exactly when its payload token is a decimal of at most 255, into that payload type and the text after the first space |
| Attributes.ParseRtcpFb | util.go:177-205 | a failure is the rtcp-fb error or, for a line with a space, the strconv error; on success the single feedback entry is everything after the first space; a wildcard has payload type 0 |
| Attributes.RtcpFbPayloadToken | util.go:182-204 | token `*` gives a wildcard entry, a decimal token of at most 255 an entry for that payload type, and any other token the error `strconv.ParseUint` reports for it |
| Attributes.RtcpFbTokenErrors | util.go:192-197 | `rtcp-fb:abc nack` fails with strconv's syntax error, and `rtcp-fb:256 nack` with its range error |
| Attributes.RtcpFbWildcardIffStar | util.go:187-200 | a decoded rtcp-fb entry is a wildcard exactly when its payload token is `*` |
| CodecMap.MergedSpec | util.go:207-228 | merging keeps the map well keyed, adds only the fragment's key, leaves other entries untouched, keeps set fields, fills unset ones, and appends feedback without de-duplicating |
| CodecMap.CodecTable.Merge | util.go:207-228 | the in-place merge leaves the map `MergedSpec` describes |
| CodecMap.CodecTable.constructor | util.go:231-243 | the map starts with exactly PCMU at 0 and PCMA at 8, both at 8000 Hz |
| CodecMap.ScanAttributeInto | util.go:247-270 | one attribute is routed by its key prefix and merged or collected, as the fold specifies |
| CodecMap.SpreadInto | util.go:273-279 | the final loop, in any key order, leaves every codec with the wildcard feedback appended and nothing else changed |
| CodecMap.BuildCodecMap | util.go:230-282 | the map built by the loops is the spec map: the fold over all attributes, then the wildcard spread |
| CodecMap.MergedSeeded | util.go:207-228 | merging preserves the presence of PCMU at 0 and PCMA at 8, and the keying |
| CodecMap.CodecMapOfSeeded | util.go:230-282 | the built map always holds PCMU/8000 at 0 and PCMA/8000 at 8, and every key maps to a codec with that payload type |
| CodecMap.CodecMapOfSpreadsWildcards | util.go:273-279 | the spread keeps keys and every field but feedback, keeps old feedback as a prefix, and puts every wildcard string in every codec |
| CodecMap.ScanIgnoresNonContributing | util.go:245-271 | attributes with another key, or that fail to decode, leave the scan unchanged |
| CodecMap.ParseFormatFmtp | util.go:149-175 | a rendered fmtp line decodes back to its payload type and parameters |
| CodecMap.RtpmapThenFmtp | util.go:245-271 | an rtpmap line followed by an fmtp line for a new payload type yields one codec carrying both |
| CodecMap.SessionRtpmapThenFmtp | util.go:230-282 | in a whole session description, such a pair for a dynamic payload type yields that codec with those parameters |
| Matching.EquivalentFmtp | util.go:284-304 | splitting, sorting in place and comparing trimmed parts computes the fmtp equivalence |
| Matching.SortedSlice | util.go:292-293 | the slice holds the sorted permutation of the parts |
| Matching.CompareTrimmed | util.go:295-303 | the loop answers true exactly when every pair of parts agrees after trimming |
| Matching.FmtpEquivalentIffSameNormalForm | util.go:284-304 | two fmtp strings are equivalent exactly when their sorted-then-trimmed part lists are equal |
| Matching.FmtpEquivalentIsEquivalence | util.go:284-304 | the relation is reflexive, symmetric and transitive |
| Matching.FmtpEquivalentNeedsSamePartCount | util.go:285-290 | strings with different numbers of `;` are never equivalent |
| Matching.FmtpEquivalentIgnoresPartOrder | util.go:292-293 | rearranging the `;`-parts of one side does not change the answer |
| Matching.FmtpSortsBeforeTrimming | util.go:292-297 | `"b=1;a=2"` matches `"a=2;b=1"` but not `"a=2; b=1"`, because sorting precedes trimming |
| Matching.CodecsMatch | util.go:306-321 | a wanted codec with all four fields empty matches anything, and every codec matches itself |
| Matching.CodecsMatchWildcards | util.go:306-321 | a wanted codec with all four fields empty matches any codec, and payload type and feedback never affect the answer |
| Matching.CodecsMatchReflexive | util.go:306-321 | every codec matches itself, and also a copy whose name differs only in ASCII case |
| Matching.CodecsMatchConstrains | util.go:306-321 | each field the wanted codec sets constrains the candidate: the name equal up to ASCII case, the same clock rate and encoding parameters, the same fmtp normal form |
| Queries.GetCodecForPayloadType | util.go:324-333 | found exactly when the key is in the map, with the stored codec; otherwise payload-type-not-found; never an error for 0 or 8 |
| Queries.GetCodecsForPayloadTypes | util.go:335-347 | never an error; the result is the stored codecs for the requested payload types, in order, unknown ones skipped |
| Queries.FoundCodecsAreKnown | util.go:335-347 | the i-th returned codec is the map's entry for the i-th known requested payload type |
| Queries.AllKnown | util.go:335-347 | when every requested payload type is known, none is skipped |
| Queries.FoundCodecsKeyed | util.go:335-347 | at most one codec per request, each carrying the requested payload type |
| Queries.GetPayloadTypeForCodec | util.go:351-361 | a returned payload type is in the map and its codec matches; not-found only when no codec matches; an all-empty wanted codec is always found |

## Left out

- The lexer (`handleType`, `stateFn`, `lexer`, util.go:363-386) is not part of this model. The reader state functions it dispatches to are not in `util.go`.
- Parsing and rendering of whole session descriptions are not part of this model. A session description is its media blocks, each a list of attribute lines already rendered as `key:value`, as `Attribute.String` would give them.
- The random draw of `newSessionID` (`randutil.CryptoUint64`) and its error are left out. The draw is a parameter of `SessionIds.MaskSessionID`.
- `Codec.String` (util.go:88-98) is left out. It is `fmt.Sprintf` formatting, and nothing in the engine uses it.
- `GoStrings.EqualFold`: compares ASCII letters without case, but not Unicode case folding as `strings.EqualFold` does.
- `GoStrings.SplitN2`: covers `strings.SplitN` only with n = 2 and a one-character separator, the only way `util.go` calls it. `Split` likewise covers one-character separators only.
- Strings are sequences of characters, not bytes. `sort.Strings` orders UTF-8 bytes, which is the same as code-point order for valid UTF-8. Input that is not valid UTF-8 is not modelled.
- `GoStrings.ParseUint`: accepts exactly a non-empty run of ASCII digits within the bound, as `strconv.ParseUint(s, 10, bits)` does. Of its `*NumError`, only the reason (`ErrSyntax` or `ErrRange`) is modelled, not the function name or input it records.
- `Queries.GetCodecForPayloadType`: on the error path Go also returns a zero `Codec` next to the error; the model returns only the error.
- `Queries.GetPayloadTypeForCodec`: on the error path Go also returns the payload type 0 next to `errCodecNotFound`; the model returns only the error.
- On failure the decoders return only the error. Go also returns a codec and a `false` wildcard flag beside it. That codec is the zero `Codec`, except after a bad clock rate in `parseRtpmap`, where the payload type and name are already set (util.go:130-138). No caller reads either.
- Go's map iteration order is unspecified. `Queries.GetPayloadTypeForCodec` and `CodecMap.SpreadInto` visit keys in an arbitrary order. So the contracts say "some matching key", not which one.
