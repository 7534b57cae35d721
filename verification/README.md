# curl-fuzzer records and dispatch policy, in Dafny

This project models the core of curl-fuzzer's harness as `curl_fuzzer.h` declares it. A fuzzer input is a flat stream of TLV records. Each record has a 6-byte header (a 2-byte type and a 4-byte length, both big-endian) followed by exactly `length` value bytes. A decoder walks the stream with a cursor `{data, data_len, data_pos}` and answers one of three return codes: `TLV_RC_NO_ERROR` (0), `TLV_RC_NO_MORE_TLVS` (1) or `TLV_RC_SIZE_ERROR` (2). Each decoded record is then applied to the run's `FUZZ_DATA` by one of the header's macros:

- `FSINGLETONTLV` handles set-once string options.
- `FU32TLV` handles set-once 4-byte integer options.
- `FRESPONSETLV` stores a scripted response into one of 11 slots.

`FCHECK`, `FTRY`, `FSET_OPTION` and `FCHECK_OPTION_UNSET` provide the 255 error code, propagate engine error codes, and keep the singleton tracker. The tracker is a 300-entry array indexed by the option identifier modulo 1000.

Files and modules:

- `bytes.dfy`, module `Bytes`: bytes, `u16`/`u32`, and the big-endian decoders `ToU16`/`ToU32` with their inverse encoders.
- `tlv.dfy`, module `Tlv`: `TlvRaw`, `Tlv`, the cursor (`ParseState` with the invariant `data_pos <= data_len` as the subset type `Cursor`), the return codes, and the decoder entry points `GetTlvComn`, `GetFirstTlv` and `GetNextTlv`. It also has a whole-stream decoder `DecodeFrom`/`DecodeAll`, the records read before decoding stops (`Prefix`), the encoder `Encode`/`EncodeAll`, and the round trips in both directions.
- `session.dfy`, module `Session`: the part of `FUZZ_DATA` the handlers touch, the tracker slot `OPTNAME % 1000` with its bound, and `CheckOptionUnset` (the `FCHECK` of `FCHECK_OPTION_UNSET`) and `SetOption` (the `FTRY` of `FSET_OPTION`).
- `dispatch.dfy`, module `Dispatch`: the record type codes, the binding of types to handlers, and the three macro classes. It also has the record-by-record run loop (`ParseRecords`, `RunFrom`, and `RunSteps`/`Run`, which drive the decoder through `GetFirstTlv`/`GetNextTlv` and its numeric return codes) and the stream-level properties: repeated singletons fail, the tracker only grows, a later response overwrites an earlier one, and the interleaved run agrees with decode-then-apply: on a stream that decodes completely it ends as the decoded records applied in order end, and on any stream it ends as the records read before decoding stops end. Two end-to-end scenarios are included.

Some things are modelled as parameters:

- The engine's `curl_easy_setopt` is a parameter `setopt: (option, value) -> int`. It answers 0 (accepted) or a nonzero code.
- The engine handle is modelled as the map from each option to the value it last accepted.
- Record types that none of the three macro classes handles are a second parameter `other`. These are post fields, headers, the upload buffer, mail recipients, mime parts, the `TLV_TYPE_OPTHEADER` type, and type codes the dispatcher does not know.

The bodies of `to_u16`, `to_u32`, `fuzz_get_tlv_comn`, `fuzz_get_first_tlv`, `fuzz_get_next_tlv`, `fuzz_parse_tlv` and `fuzz_tlv_to_string` are in curl_fuzzer.cc, which is not part of this model. The decoder follows the declared layout and return codes:

- No bytes left at the cursor gives `TLV_RC_NO_MORE_TLVS`.
- 1 to 5 bytes left gives `TLV_RC_SIZE_ERROR`.
- A length that runs past the end of the buffer gives `TLV_RC_SIZE_ERROR`.
- Otherwise the step yields a record whose value is the `length` bytes after the header. `fuzz_get_next_tlv` first moves the cursor past the header and value of the previous record.

The header defines the macros and the type codes but not the dispatcher's case list, which lives in the body of `fuzz_parse_tlv`. The binding used here is reconstructed from the names and value types: each type whose name is an engine option is paired with the option of the same name (`TLV_TYPE_URL` with `CURLOPT_URL`, `TLV_TYPE_HTTPAUTH` with `CURLOPT_HTTPAUTH`, and so on). String-valued options go to `FSINGLETONTLV` and the three integer-valued ones (HTTPAUTH, NOBODY, FOLLOWLOCATION) to `FU32TLV`. `TLV_TYPE_RESPONSEk` is bound to response slot `k`. `TLV_TYPE_OPTHEADER` names no engine option, so it is left to `other` with the list, mime and upload types. The option numbers are those of the engine's public header `curl/curl.h`, which is not part of this model either. Declaring them as `TrackedOpt` constants makes Dafny check that every one of them has a tracker slot below 300.

## Model

| member | source | states |
|---|---|---|
| `Bytes.ToU16` | curl_fuzzer.h:191 | `to_u16` is big-endian: the first byte is the high byte and the second the low byte |
| `Bytes.ToU32` | curl_fuzzer.h:190 | `to_u32` is big-endian: the first two bytes, read as a 16-bit value, are the high half and the last two the low half |
| `Bytes.U16RoundTrip` | curl_fuzzer.h:191 | decoding the big-endian image of any 16-bit value gives it back |
| `Bytes.U16Canonical` | curl_fuzzer.h:191 | every 2-byte type field is the image of the value it decodes to, so `to_u16` is injective |
| `Bytes.U32RoundTrip` | curl_fuzzer.h:190 | decoding the big-endian image of any 32-bit value gives it back |
| `Bytes.U32Canonical` | curl_fuzzer.h:190 | every 4-byte length field is the image of the value it decodes to, so `to_u32` is injective |
| `Tlv.Encode` | curl_fuzzer.h:89-110 | a record occupies exactly 6 header bytes plus `length` value bytes |
| `Tlv.GetTlvComn` | curl_fuzzer.h:112-124 | a step answers exactly one of the three codes: no more records iff the cursor is at `data_len`; a record iff a full header and its value fit; a size error otherwise. The cursor stays within `0..data_len`, and a returned value lies inside the buffer and is exactly the bytes after the decoded header |
| `Tlv.GetFirstTlv` | curl_fuzzer.h:212 | the first step starts at position 0 and reads the record there as any other step would; an empty buffer has no records, and a buffer of 1 to 5 bytes is a size error |
| `Tlv.Advance` | curl_fuzzer.h:213 | moving past the previous record keeps the buffer and strictly advances the cursor; when that record was the one read at the cursor, the bytes skipped are exactly its image |
| `Tlv.GetNextTlv` | curl_fuzzer.h:213 | the next step starts exactly 6 + `length` bytes after the previous record, on the same buffer, reads the record there as any other step would, and reports no more records iff that is the end of the buffer |
| `Tlv.DecodeFrom` | curl_fuzzer.h:99-110 | every record of a completely decoded stream has a value of exactly `length` bytes; a malformed stream is reported at a position inside the buffer |
| `Tlv.DecodeEncoded` | curl_fuzzer.h:89-110 | the image of a record, wherever it sits in the buffer, is decoded as that record |
| `Tlv.DecodeEncodeAllAfter` | curl_fuzzer.h:89-110 | records encoded after any prefix decode back to themselves |
| `Tlv.DecodeEncodeAll` | curl_fuzzer.h:89-110 | round trip: the records of an encoded stream are the records encoded |
| `Tlv.EncodeDecodeFrom` | curl_fuzzer.h:115-124 | a completely decoded stream from the cursor is exactly the image of its records: no byte skipped, none invented |
| `Tlv.EncodeDecodeAll` | curl_fuzzer.h:115-124 | a buffer that decodes completely is the image of the records decoded |
| `Tlv.MalformedAtRecordStart` | curl_fuzzer.h:63-65 | a size error is reported at a record boundary where the header or its value does not fit: the bytes from the cursor up to that position are exactly the images of the records read before it, and decoding from there gives the same error |
| `Session.Initial` | curl_fuzzer.h:192-194 | a run starts with no option set, no tracker flag set and every response slot empty |
| `Session.CheckOptionUnset` | curl_fuzzer.h:234-248 | the check fails with 255 iff the option's tracker slot is already set |
| `Session.SetOption` | curl_fuzzer.h:224-245 | the result code is the engine's answer, propagated exactly. If the engine refuses, nothing changes and the slot stays unmarked. If it accepts, the option holds the value, its slot `OPTNAME % 1000` is set, and no other slot, option, response or upload field changes |
| `Session.SharedSlotAliases` | curl_fuzzer.h:243-248 | options congruent modulo 1000 share one slot: after one is set, the unset check fails for the other |
| `Session.DistinctSlotsIndependent` | curl_fuzzer.h:243-248 | setting an option leaves the flag of an option in another slot as it was |
| `Dispatch.TlvToString` | curl_fuzzer.h:216 | the string is the value bytes followed by one NUL, `length + 1` bytes in all |
| `Dispatch.SingletonTlv` | curl_fuzzer.h:250-255 | an already-set option fails with 255 before any conversion or engine call. Otherwise the result is the engine's answer to the NUL-terminated value. On failure nothing changes. On success the option holds that string and its slot is marked set; no other option is added or changed, no other tracker slot moves, and responses and upload fields are untouched |
| `Dispatch.U32Tlv` | curl_fuzzer.h:263-272 | a length other than 4 fails with 255 before the set-once check, and so does an already-set option; neither changes anything. Otherwise the result is the engine's answer to the big-endian value. On success the option holds that value and its slot is marked set; no other option is added or changed, no other tracker slot moves, and nothing else changes |
| `Dispatch.ResponseTlv` | curl_fuzzer.h:257-261 | a response record never fails and writes only its slot's `data`/`data_len`, without a set-once check; the other slots, options, tracker and upload fields are unchanged |
| `Dispatch.HandlerFor` | curl_fuzzer.h:215 | the dispatcher's binding, as reconstructed from the type and option names: exactly the eight string-option types go to `FSINGLETONTLV`, exactly HTTPAUTH, NOBODY and FOLLOWLOCATION to `FU32TLV`, exactly the eleven response types to `FRESPONSETLV`, and every other type is handled elsewhere |
| `Dispatch.ParseTlv` | curl_fuzzer.h:215 | a record of a header-defined class either succeeds or changes nothing; response records always succeed; an accepted set-once record sets exactly its own option to the string or big-endian value of its class and nothing else; other types are handled elsewhere |
| `Dispatch.ParseRecords` | curl_fuzzer.h:212-215 | a stream of response records never fails, and a stream of records of the three header-defined classes never touches the response cursor, the upload or the socket |
| `Dispatch.ResponseTypesFillSlots` | curl_fuzzer.h:29-58 | exactly RESPONSE0 and RESPONSE1..RESPONSE10 are response records, filling slots 0..10 in order |
| `Dispatch.EverySlotReachable` | curl_fuzzer.h:73-74 | each of the 11 response slots has a record type bound to it |
| `Dispatch.TableSlotsDistinct` | curl_fuzzer.h:76-77 | the option records bound in the table never share a tracker slot |
| `Dispatch.ParseRecordsAppend` | curl_fuzzer.h:224-241 | applying two record sequences one after the other stops at the first failure, as the `goto EXIT_LABEL` exits do |
| `Dispatch.ParseTlvKeepsTracker` | curl_fuzzer.h:243-245 | applying a record never clears a tracker flag, provided the handler for the types handled elsewhere never clears one |
| `Dispatch.ParseRecordsKeepsTracker` | curl_fuzzer.h:161-162 | once set, a tracker flag stays set for the rest of the stream, provided the handler for the types handled elsewhere never clears one |
| `Dispatch.RepeatedSingletonFails` | curl_fuzzer.h:247-255 | after a set-once option record succeeds, a later record for the same option (or for one sharing its slot) fails with 255 and changes nothing, whatever its value and whatever came in between |
| `Dispatch.ResponseLastWriterWins` | curl_fuzzer.h:257-261 | a repeated response record overwrites the earlier one: applying both equals applying the second |
| `Dispatch.RunFrom` | curl_fuzzer.h:212-215 | a run applies each record as soon as it is read; when it stops on a bad stream, it stops inside the buffer at a position where no record fits, and a rejected run carries a nonzero code |
| `Dispatch.RunMatchesPrefix` | curl_fuzzer.h:212-215 | on every stream, complete or malformed, the run ends as applying the records read before decoding stops ends: rejected with the code and state of the first record that fails, or else configured or stopped at the decoder's error position, in the state those records left |
| `Dispatch.RunSteps` | curl_fuzzer.h:212-213 | the driver's loop over the numeric return codes (apply while `TLV_RC_NO_ERROR`, then `TLV_RC_NO_MORE_TLVS` ends well and anything else is a bad stream), fed by `fuzz_get_next_tlv`, ends exactly as the cursor-recursive run does |
| `Dispatch.Run` | curl_fuzzer.h:212-215 | a run from `fuzz_get_first_tlv` on the zeroed state is the cursor-recursive run from position 0, and a bad stream is reported inside the input where no record fits |
| `Dispatch.RunMatchesDecode` | curl_fuzzer.h:212-215 | on a stream that decodes completely, applying each record as soon as it is read ends the same way as decoding the whole stream first and then applying the records in order |
| `Dispatch.RunEndsLikeDecode` | curl_fuzzer.h:63-65 | a run completes only on a stream that decodes completely, and a run stopped by a size error stops where the decoder reports it |
| `Dispatch.EmptyRunConfiguresNothing` | curl_fuzzer.h:63-64 | an empty input is a valid stream: the run succeeds with nothing configured |
| `Dispatch.TruncatedHeaderRun` | curl_fuzzer.h:89-97 | an input shorter than one header is a size error at position 0, with nothing applied |
| `Dispatch.UrlScenario` | curl_fuzzer.h:250-255 | a single URL record "http://x" configures exactly that NUL-terminated target, or ends the run with the engine's own code |
| `Dispatch.AuthRecordsApplied` | curl_fuzzer.h:263-272 | of two HTTPAUTH records, the first is applied and the second is refused with 255 |
| `Dispatch.RepeatedAuthScenario` | curl_fuzzer.h:263-272 | on the input of two HTTPAUTH records with values 1 and 2, the run ends with 255, with only the first value configured |

## Left out

- The mock transport: `fuzz_open_socket`, `fuzz_sockopt_callback`, `fuzz_read_callback`, `fuzz_write_callback`, `fuzz_send_next_response` and `fuzz_handle_transfer`. These are engine-driven transport plumbing whose bodies are not part of this model. The socket state and the upload cursor exist only as fields that the modelled handlers must leave alone.
- The engine itself: `curl_easy_setopt` is an oracle parameter. How the engine stores or interprets values, and the transfer itself, are not modelled.
- History-dependent engine answers: the engine's answer is a fixed function of the option and the value, so it cannot depend on what was configured before. No property here relies on that restriction.
- Embedded NUL bytes: a string option keeps the whole value plus its NUL, while the engine reads a `char *` only up to the first NUL. A value with an embedded 0 byte is therefore stored whole in the model.
- Records handled outside the header's macros: post fields, headers, upload data, mail recipients, mime parts (`fuzz_add_mime_part`, `fuzz_parse_mime_tlv`), the `TLV_TYPE_OPTHEADER` type and unknown type codes. Their bodies are not part of this model, so they go through the opaque `other` parameter.
- Memory management: `fuzz_free`, `fuzz_terminate_fuzz_data`, and allocation failure in `fuzz_tlv_to_string`. The string conversion is modelled as a pure copy plus a NUL.
- `FV_PRINTF`, the cookie-jar path and the temporary write array: these are debugging and I/O only.
- Integer widths: positions and lengths are unbounded integers. The header fields are typed as `u16`/`u32`. The overflow question of `data_pos + 6 + length` in `size_t` does not arise in the model.
- The numeric status the run driver reports after a size error is not modelled. The run ends in `BadStream` with the position of the record that does not fit.
- `fuzz_set_easy_options` (curl_fuzzer.h:195): it sets the engine's fixed options and installs the callbacks. Its body is not part of this model; the model's run starts from the zeroed state with an empty option map.
- Tlv.GetTlvComn: the short-tail rules (no bytes left is "no more records", 1 to 5 bytes left or a value running past the end is a size error, all decided inside this step) follow the record layout and the three return codes; the function's body is not part of this model.
- Dispatch.ParseTlvKeepsTracker: assumes the `other` handler never clears a tracker flag, because that code is not part of this model.
- Dispatch.ParseRecordsKeepsTracker: assumes the `other` handler never clears a tracker flag, for the same reason.
- Dispatch.ParseTlv: for record types handled elsewhere, it states only that the outcome is whatever the `other` handler returns.
- Dispatch.RepeatedSingletonFails: assumes the `other` handler never clears a tracker flag, because that code is not part of this model.
