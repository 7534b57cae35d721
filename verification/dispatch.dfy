/**
 The per-record dispatch policy and the run loop that feeds decoded records
 to it.

 Three record classes have their handling written out as macros in the
 header:
 - singleton string options (`FSINGLETONTLV`): fail with 255 when the
   option is already set, otherwise copy the value into a NUL-terminated
   string, hand it to the engine and mark the option as set;
 - singleton 4-byte integer options (`FU32TLV`): fail with 255 unless the
   value is exactly 4 bytes long, then proceed as above with the
   big-endian value;
 - response records (`FRESPONSETLV`): store the value's view in a fixed
   response slot, with no set-once check.

 Every other record type (list and mime records, the upload and post
 fields, header options and types the dispatcher does not know) is handled
 by code outside this model; it is a parameter `other` here, as the engine's
 `setopt` is.
 */
module Dispatch {
  import opened Bytes
  import opened Tlv
  import opened Session

  /** Record type codes. */
  const TLV_TYPE_URL: u16 := 1
  const TLV_TYPE_RESPONSE0: u16 := 2
  const TLV_TYPE_USERNAME: u16 := 3
  const TLV_TYPE_PASSWORD: u16 := 4
  const TLV_TYPE_POSTFIELDS: u16 := 5
  const TLV_TYPE_HEADER: u16 := 6
  const TLV_TYPE_COOKIE: u16 := 7
  const TLV_TYPE_UPLOAD1: u16 := 8
  const TLV_TYPE_RANGE: u16 := 9
  const TLV_TYPE_CUSTOMREQUEST: u16 := 10
  const TLV_TYPE_MAIL_RECIPIENT: u16 := 11
  const TLV_TYPE_MAIL_FROM: u16 := 12
  const TLV_TYPE_MIME_PART: u16 := 13
  const TLV_TYPE_MIME_PART_NAME: u16 := 14
  const TLV_TYPE_MIME_PART_DATA: u16 := 15
  const TLV_TYPE_HTTPAUTH: u16 := 16
  const TLV_TYPE_RESPONSE1: u16 := 17
  const TLV_TYPE_RESPONSE2: u16 := 18
  const TLV_TYPE_RESPONSE3: u16 := 19
  const TLV_TYPE_RESPONSE4: u16 := 20
  const TLV_TYPE_RESPONSE5: u16 := 21
  const TLV_TYPE_RESPONSE6: u16 := 22
  const TLV_TYPE_RESPONSE7: u16 := 23
  const TLV_TYPE_RESPONSE8: u16 := 24
  const TLV_TYPE_RESPONSE9: u16 := 25
  const TLV_TYPE_RESPONSE10: u16 := 26
  const TLV_TYPE_OPTHEADER: u16 := 27
  const TLV_TYPE_NOBODY: u16 := 28
  const TLV_TYPE_FOLLOWLOCATION: u16 := 29
  const TLV_TYPE_ACCEPTENCODING: u16 := 30

  /** Engine option identifiers, as the engine's public header numbers them
      (a type base of 0 for integers and 10000 for strings, plus an index). */
  const CURLOPT_URL: TrackedOpt := 10002
  const CURLOPT_RANGE: TrackedOpt := 10007
  const CURLOPT_COOKIE: TrackedOpt := 10022
  const CURLOPT_CUSTOMREQUEST: TrackedOpt := 10036
  const CURLOPT_ACCEPT_ENCODING: TrackedOpt := 10102
  const CURLOPT_USERNAME: TrackedOpt := 10173
  const CURLOPT_PASSWORD: TrackedOpt := 10174
  const CURLOPT_MAIL_FROM: TrackedOpt := 10186
  const CURLOPT_NOBODY: TrackedOpt := 44
  const CURLOPT_FOLLOWLOCATION: TrackedOpt := 52
  const CURLOPT_HTTPAUTH: TrackedOpt := 107

  /** The index of a response slot. */
  type ResponseIndex = i: nat | i < TLV_MAX_NUM_RESPONSES

  /** How a record type is handled. */
  datatype Handler =
    | SingletonStr(opt: TrackedOpt)
    | SingletonU32(opt: TrackedOpt)
    | ResponseSlot(index: ResponseIndex)
    | Elsewhere

  /** Whether a handler is one of the two set-once option classes. */
  predicate IsSingleton(h: Handler) {
    h.SingletonStr? || h.SingletonU32?
  }

  /** The binding of record types to handlers: eight string options, three
      integer options, eleven response types, and every other type (known
      or not) handled elsewhere. */
  function HandlerFor(tlvType: u16): (h: Handler)
    ensures h.ResponseSlot? <==>
              tlvType == TLV_TYPE_RESPONSE0 || TLV_TYPE_RESPONSE1 <= tlvType <= TLV_TYPE_RESPONSE10
    ensures h.SingletonU32? <==>
              tlvType in {TLV_TYPE_HTTPAUTH, TLV_TYPE_NOBODY, TLV_TYPE_FOLLOWLOCATION}
    ensures h.SingletonStr? <==>
              tlvType in {TLV_TYPE_URL, TLV_TYPE_USERNAME, TLV_TYPE_PASSWORD, TLV_TYPE_COOKIE,
                          TLV_TYPE_RANGE, TLV_TYPE_CUSTOMREQUEST, TLV_TYPE_MAIL_FROM,
                          TLV_TYPE_ACCEPTENCODING}
  {
    if tlvType == TLV_TYPE_URL then SingletonStr(CURLOPT_URL)
    else if tlvType == TLV_TYPE_USERNAME then SingletonStr(CURLOPT_USERNAME)
    else if tlvType == TLV_TYPE_PASSWORD then SingletonStr(CURLOPT_PASSWORD)
    else if tlvType == TLV_TYPE_COOKIE then SingletonStr(CURLOPT_COOKIE)
    else if tlvType == TLV_TYPE_RANGE then SingletonStr(CURLOPT_RANGE)
    else if tlvType == TLV_TYPE_CUSTOMREQUEST then SingletonStr(CURLOPT_CUSTOMREQUEST)
    else if tlvType == TLV_TYPE_MAIL_FROM then SingletonStr(CURLOPT_MAIL_FROM)
    else if tlvType == TLV_TYPE_ACCEPTENCODING then SingletonStr(CURLOPT_ACCEPT_ENCODING)
    else if tlvType == TLV_TYPE_HTTPAUTH then SingletonU32(CURLOPT_HTTPAUTH)
    else if tlvType == TLV_TYPE_NOBODY then SingletonU32(CURLOPT_NOBODY)
    else if tlvType == TLV_TYPE_FOLLOWLOCATION then SingletonU32(CURLOPT_FOLLOWLOCATION)
    else if tlvType == TLV_TYPE_RESPONSE0 then ResponseSlot(0)
    else if TLV_TYPE_RESPONSE1 <= tlvType <= TLV_TYPE_RESPONSE10 then
      ResponseSlot(tlvType - TLV_TYPE_RESPONSE1 + 1)
    else Elsewhere
  }

  /** The handler for the record types whose handling is outside the model. */
  type Other = (Fuzz, Tlv) -> Outcome

  /** The value bytes copied into a NUL-terminated string. */
  function TlvToString(t: Tlv): (s: seq<byte>)
    requires WellFormed(t)
    ensures |s| == t.length + 1
    ensures s[..|t.value|] == t.value
    ensures s[|t.value|] == 0
  {
    t.value + [0]
  }

  /** A set-once string option. */
  function SingletonTlv(f: Fuzz, t: Tlv, opt: TrackedOpt, setopt: SetOpt): (o: Outcome)
    requires WellFormed(t)
    ensures IsSet(f, opt) ==> o == Outcome(FCHECK_FAILED, f)
    ensures !IsSet(f, opt) ==> o.rc == setopt(opt, StrValue(TlvToString(t)))
    ensures o.rc != 0 ==> o.fuzz == f
    ensures o.rc == 0 ==> OptionApplied(f, o.fuzz, opt, StrValue(TlvToString(t)))
  {
    var check := CheckOptionUnset(f, opt);
    if check.rc != 0 then check
    else
      var tmp := TlvToString(t);
      SetOption(f, opt, StrValue(tmp), setopt)
  }

  /** A set-once 4-byte integer option. */
  function U32Tlv(f: Fuzz, t: Tlv, opt: TrackedOpt, setopt: SetOpt): (o: Outcome)
    requires WellFormed(t)
    ensures t.length != 4 ==> o == Outcome(FCHECK_FAILED, f)
    ensures IsSet(f, opt) ==> o == Outcome(FCHECK_FAILED, f)
    ensures t.length == 4 && !IsSet(f, opt) ==> o.rc == setopt(opt, LongValue(ToU32(t.value)))
    ensures o.rc != 0 ==> o.fuzz == f
    ensures o.rc == 0 ==> t.length == 4 && OptionApplied(f, o.fuzz, opt, LongValue(ToU32(t.value)))
  {
    if t.length != 4 then Outcome(FCHECK_FAILED, f)
    else
      var check := CheckOptionUnset(f, opt);
      if check.rc != 0 then check
      else
        var tmpU32 := ToU32(t.value);
        SetOption(f, opt, LongValue(tmpU32), setopt)
  }

  /** A scripted response stored into its slot. */
  function ResponseTlv(f: Fuzz, t: Tlv, index: ResponseIndex): (o: Outcome)
    ensures o.rc == 0
    ensures o.fuzz.responses[index] == Response(t.value, t.length)
    ensures forall j :: 0 <= j < TLV_MAX_NUM_RESPONSES && j != index ==>
              o.fuzz.responses[j] == f.responses[j]
    ensures o.fuzz.easy == f.easy && o.fuzz.options == f.options
    ensures o.fuzz.responseIndex == f.responseIndex
    ensures o.fuzz.upload1Data == f.upload1Data && o.fuzz.upload1DataLen == f.upload1DataLen
    ensures o.fuzz.upload1DataWritten == f.upload1DataWritten
    ensures o.fuzz.serverFdState == f.serverFdState
  {
    var g: Fuzz := f.(responses := f.responses[index := Response(t.value, t.length)]);
    Outcome(0, g)
  }

  /** Applies one record to the state. */
  function ParseTlv(f: Fuzz, t: Tlv, setopt: SetOpt, other: Other): (o: Outcome)
    requires WellFormed(t)
    ensures HandlerFor(t.tlvType) != Elsewhere && o.rc != 0 ==> o.fuzz == f
    ensures HandlerFor(t.tlvType).ResponseSlot? ==> o.rc == 0
    ensures HandlerFor(t.tlvType) == Elsewhere ==> o == other(f, t)
    ensures HandlerFor(t.tlvType).SingletonStr? && o.rc == 0 ==>
              OptionApplied(f, o.fuzz, HandlerFor(t.tlvType).opt, StrValue(TlvToString(t)))
    ensures HandlerFor(t.tlvType).SingletonU32? && o.rc == 0 ==>
              t.length == 4 && OptionApplied(f, o.fuzz, HandlerFor(t.tlvType).opt, LongValue(ToU32(t.value)))
  {
    match HandlerFor(t.tlvType)
    case SingletonStr(opt) => SingletonTlv(f, t, opt, setopt)
    case SingletonU32(opt) => U32Tlv(f, t, opt, setopt)
    case ResponseSlot(index) => ResponseTlv(f, t, index)
    case Elsewhere => other(f, t)
  }

  /** Applies records in order and stops at the first nonzero return code.
      Response records never fail, and records of the three classes above
      never touch the response cursor, the upload or the socket. */
  function ParseRecords(f: Fuzz, ts: seq<Tlv>, setopt: SetOpt, other: Other): (o: Outcome)
    requires forall i :: 0 <= i < |ts| ==> WellFormed(ts[i])
    ensures (forall i :: 0 <= i < |ts| ==> HandlerFor(ts[i].tlvType).ResponseSlot?) ==> o.rc == 0
    ensures (forall i :: 0 <= i < |ts| ==> HandlerFor(ts[i].tlvType) != Elsewhere) ==>
              && o.fuzz.responseIndex == f.responseIndex
              && o.fuzz.upload1Data == f.upload1Data
              && o.fuzz.upload1DataLen == f.upload1DataLen
              && o.fuzz.upload1DataWritten == f.upload1DataWritten
              && o.fuzz.serverFdState == f.serverFdState
    decreases |ts|
  {
    if |ts| == 0 then Outcome(0, f)
    else
      var first := ParseTlv(f, ts[0], setopt, other);
      if first.rc != 0 then first
      else ParseRecords(first.fuzz, ts[1..], setopt, other)
  }

  /** How a run's decode-and-dispatch phase ends. */
  datatype RunResult =
    | Configured(fuzz: Fuzz)
    | BadStream(at: nat, fuzz: Fuzz)
    | Rejected(rc: int, fuzz: Fuzz)

  /** The run result once all records were applied or one failed. */
  function Finish(o: Outcome): RunResult {
    if o.rc == 0 then Configured(o.fuzz) else Rejected(o.rc, o.fuzz)
  }

  /** Reads records from the cursor and applies each as soon as it is read,
      until the stream ends, a record does not fit or a record fails. */
  function RunFrom(f: Fuzz, st: Cursor, setopt: SetOpt, other: Other): (r: RunResult)
    ensures r.BadStream? ==> st.dataPos <= r.at < |st.data| && !HasRecordAt(st.data, r.at)
    ensures r.Rejected? ==> r.rc != 0
    decreases |st.data| - st.dataPos
  {
    match GetTlvComn(st)
    case NoMoreTlvs(_) => Configured(f)
    case SizeError(_) => BadStream(st.dataPos, f)
    case Found(t, _) =>
      var o := ParseTlv(f, t, setopt, other);
      if o.rc != 0 then Rejected(o.rc, o.fuzz)
      else RunFrom(o.fuzz, Advance(st, t), setopt, other)
  }

  /** The run loop in the driver's own shape: while a step answers "no
      error", apply its record and ask for the next one; then "no more
      records" ends the run well and any other code is a bad stream. It
      agrees with the cursor-recursive `RunFrom`. */
  function RunSteps(f: Fuzz, s: Step, setopt: SetOpt, other: Other): (r: RunResult)
    requires s == GetTlvComn(s.state)
    ensures r == RunFrom(f, s.state, setopt, other)
    decreases |s.state.data| - s.state.dataPos
  {
    if s.Code() == TLV_RC_NO_ERROR then
      var o := ParseTlv(f, s.tlv, setopt, other);
      if o.rc != 0 then Rejected(o.rc, o.fuzz)
      else RunSteps(o.fuzz, GetNextTlv(s.state, s.tlv), setopt, other)
    else if s.Code() == TLV_RC_NO_MORE_TLVS then Configured(f)
    else BadStream(s.state.dataPos, f)
  }

  /** A run over a whole input, from the zeroed state, starting with the
      first record. */
  function Run(data: seq<byte>, setopt: SetOpt, other: Other): (r: RunResult)
    ensures r == RunFrom(Initial(), ParseState(data, 0), setopt, other)
    ensures r.BadStream? ==> r.at < |data| && !HasRecordAt(data, r.at)
  {
    RunSteps(Initial(), GetFirstTlv(data), setopt, other)
  }

  /** Records handled elsewhere never clear a tracker flag. */
  ghost predicate KeepsTracker(other: Other) {
    forall f: Fuzz, t: Tlv, i :: 0 <= i < FUZZ_CURLOPT_TRACKER_SPACE && f.options[i] ==>
      other(f, t).fuzz.options[i]
  }

  /** Every flag set in `f` is still set in `g`. */
  ghost predicate TrackerGrows(f: Fuzz, g: Fuzz) {
    forall i :: 0 <= i < FUZZ_CURLOPT_TRACKER_SPACE && f.options[i] ==> g.options[i]
  }

  /** The response types RESPONSE0 and RESPONSE1..RESPONSE10 are exactly the
      types bound to a response slot, and they fill slots 0..10 in order. */
  lemma ResponseTypesFillSlots(tlvType: u16, index: ResponseIndex)
    ensures HandlerFor(tlvType) == ResponseSlot(index) <==>
              || (tlvType == TLV_TYPE_RESPONSE0 && index == 0)
              || (TLV_TYPE_RESPONSE1 <= tlvType <= TLV_TYPE_RESPONSE10 && index == tlvType - 16)
  {
  }

  /** Every response slot has a record type bound to it. */
  lemma EverySlotReachable(index: ResponseIndex)
    ensures exists tlvType: u16 :: HandlerFor(tlvType) == ResponseSlot(index)
  {
    if index == 0 {
      assert HandlerFor(TLV_TYPE_RESPONSE0) == ResponseSlot(0);
    } else {
      var tlvType: u16 := index + 16;
      assert HandlerFor(tlvType) == ResponseSlot(index);
    }
  }

  /** The option records of the table never alias in the tracker: two record
      types whose options share a slot are the same type. */
  lemma TableSlotsDistinct(a: u16, b: u16)
    requires IsSingleton(HandlerFor(a)) && IsSingleton(HandlerFor(b))
    requires Slot(HandlerFor(a).opt) == Slot(HandlerFor(b).opt)
    ensures a == b
  {
  }

  /** Running `xs + ys` is running `xs`, then, if that succeeded, `ys` from
      where `xs` left the state. */
  lemma {:induction false} ParseRecordsAppend(f: Fuzz, xs: seq<Tlv>, ys: seq<Tlv>, setopt: SetOpt, other: Other)
    requires forall i :: 0 <= i < |xs| ==> WellFormed(xs[i])
    requires forall i :: 0 <= i < |ys| ==> WellFormed(ys[i])
    ensures forall i :: 0 <= i < |xs + ys| ==> WellFormed((xs + ys)[i])
    ensures ParseRecords(f, xs + ys, setopt, other)
         == (var r := ParseRecords(f, xs, setopt, other);
             if r.rc != 0 then r else ParseRecords(r.fuzz, ys, setopt, other))
    decreases |xs|
  {
    if |xs| == 0 {
      assert xs + ys == ys;
    } else {
      assert (xs + ys)[0] == xs[0];
      assert (xs + ys)[1..] == xs[1..] + ys;
      var first := ParseTlv(f, xs[0], setopt, other);
      if first.rc == 0 {
        ParseRecordsAppend(first.fuzz, xs[1..], ys, setopt, other);
      }
    }
  }

  /** A single record never clears a tracker flag. */
  lemma ParseTlvKeepsTracker(f: Fuzz, t: Tlv, setopt: SetOpt, other: Other)
    requires WellFormed(t)
    requires KeepsTracker(other)
    ensures TrackerGrows(f, ParseTlv(f, t, setopt, other).fuzz)
  {
    if HandlerFor(t.tlvType) == Elsewhere {
      forall i | 0 <= i < FUZZ_CURLOPT_TRACKER_SPACE && f.options[i]
        ensures other(f, t).fuzz.options[i]
      {
      }
    }
  }

  /** Once set, a tracker flag stays set for the rest of the stream. */
  lemma {:induction false} ParseRecordsKeepsTracker(f: Fuzz, ts: seq<Tlv>, setopt: SetOpt, other: Other)
    requires forall i :: 0 <= i < |ts| ==> WellFormed(ts[i])
    requires KeepsTracker(other)
    ensures TrackerGrows(f, ParseRecords(f, ts, setopt, other).fuzz)
    decreases |ts|
  {
    if |ts| > 0 {
      var first := ParseTlv(f, ts[0], setopt, other);
      ParseTlvKeepsTracker(f, ts[0], setopt, other);
      if first.rc == 0 {
        ParseRecordsKeepsTracker(first.fuzz, ts[1..], setopt, other);
      }
    }
  }

  /** A set-once option record that follows a successfully applied record of
      an option in the same tracker slot (in particular, a second record of
      the same type) fails with 255 and changes nothing, whatever its value
      and whatever came in between. */
  lemma RepeatedSingletonFails(f: Fuzz, xs: seq<Tlv>, first: Tlv, ys: seq<Tlv>, second: Tlv,
                               setopt: SetOpt, other: Other)
    requires forall i :: 0 <= i < |xs| ==> WellFormed(xs[i])
    requires forall i :: 0 <= i < |ys| ==> WellFormed(ys[i])
    requires WellFormed(first) && WellFormed(second)
    requires IsSingleton(HandlerFor(first.tlvType)) && IsSingleton(HandlerFor(second.tlvType))
    requires Slot(HandlerFor(first.tlvType).opt) == Slot(HandlerFor(second.tlvType).opt)
    requires KeepsTracker(other)
    requires ParseRecords(f, xs + [first] + ys, setopt, other).rc == 0
    ensures ParseRecords(f, xs + [first] + ys + [second], setopt, other)
         == Outcome(FCHECK_FAILED, ParseRecords(f, xs + [first] + ys, setopt, other).fuzz)
  {
    var pre := ParseRecords(f, xs, setopt, other);
    ParseRecordsAppend(f, xs, [first], setopt, other);
    ParseRecordsAppend(f, xs + [first], ys, setopt, other);
    ParseRecordsAppend(f, xs + [first] + ys, [second], setopt, other);
    var afterFirst := ParseRecords(f, xs + [first], setopt, other);
    assert afterFirst.rc == 0;
    assert pre.rc == 0;
    assert [first][1..] == [];
    assert afterFirst == ParseTlv(pre.fuzz, first, setopt, other);
    var opt := HandlerFor(first.tlvType).opt;
    assert IsSet(afterFirst.fuzz, opt);
    var mid := ParseRecords(afterFirst.fuzz, ys, setopt, other);
    ParseRecordsKeepsTracker(afterFirst.fuzz, ys, setopt, other);
    assert IsSet(mid.fuzz, HandlerFor(second.tlvType).opt);
    assert [second][1..] == [];
  }

  /** Two records for the same response slot: the second one overwrites the
      first, so applying both is the same as applying only the second. */
  lemma ResponseLastWriterWins(f: Fuzz, first: Tlv, second: Tlv, setopt: SetOpt, other: Other)
    requires WellFormed(first) && WellFormed(second)
    requires HandlerFor(first.tlvType).ResponseSlot?
    requires HandlerFor(second.tlvType) == HandlerFor(first.tlvType)
    ensures ParseRecords(f, [first, second], setopt, other) == ParseRecords(f, [second], setopt, other)
    ensures ParseRecords(f, [first, second], setopt, other).fuzz.responses[HandlerFor(first.tlvType).index]
         == Response(second.value, second.length)
  {
    var index := HandlerFor(first.tlvType).index;
    var g := ParseTlv(f, first, setopt, other).fuzz;
    var h := ParseTlv(g, second, setopt, other).fuzz;
    var k := ParseTlv(f, second, setopt, other).fuzz;
    assert [first, second][1..] == [second];
    assert [second][1..] == [];
    assert h.responses == k.responses;
  }

  /** The interleaved run agrees with decoding first and applying after: on
      a stream that decodes completely, the run ends as the records applied
      in order end. */
  lemma {:induction false} RunMatchesDecode(f: Fuzz, st: Cursor, setopt: SetOpt, other: Other)
    requires DecodeFrom(st).Records?
    ensures RunFrom(f, st, setopt, other) == Finish(ParseRecords(f, DecodeFrom(st).tlvs, setopt, other))
    decreases |st.data| - st.dataPos
  {
    match GetTlvComn(st)
    case NoMoreTlvs(_) =>
    case Found(t, _) =>
      var next := Advance(st, t);
      var rest := DecodeFrom(next).tlvs;
      assert DecodeFrom(st).tlvs == [t] + rest;
      assert ([t] + rest)[1..] == rest;
      var o := ParseTlv(f, t, setopt, other);
      if o.rc == 0 {
        RunMatchesDecode(o.fuzz, next, setopt, other);
      }
  }

  /** On every stream, complete or not, the run ends as applying the records
      read before decoding stops ends: with the code of the first record
      that fails, or else with the decoder's own verdict, in the state those
      records left. */
  lemma {:induction false} RunMatchesPrefix(f: Fuzz, st: Cursor, setopt: SetOpt, other: Other)
    ensures var o := ParseRecords(f, Prefix(st), setopt, other);
            RunFrom(f, st, setopt, other)
            == if o.rc != 0 then Rejected(o.rc, o.fuzz)
               else (match DecodeFrom(st)
                     case Records(_) => Configured(o.fuzz)
                     case Malformed(at) => BadStream(at, o.fuzz))
    decreases |st.data| - st.dataPos
  {
    match GetTlvComn(st)
    case NoMoreTlvs(_) =>
    case SizeError(_) =>
    case Found(t, _) =>
      var next := Advance(st, t);
      assert Prefix(st)[0] == t && Prefix(st)[1..] == Prefix(next);
      var o := ParseTlv(f, t, setopt, other);
      if o.rc == 0 {
        RunMatchesPrefix(o.fuzz, next, setopt, other);
      }
  }

  /** A run completes only on a stream that decodes completely, and a run
      stopped by a record that does not fit points where the decoder does. */
  lemma {:induction false} RunEndsLikeDecode(f: Fuzz, st: Cursor, setopt: SetOpt, other: Other)
    ensures RunFrom(f, st, setopt, other).Configured? ==> DecodeFrom(st).Records?
    ensures RunFrom(f, st, setopt, other).BadStream? ==>
              DecodeFrom(st) == Malformed(RunFrom(f, st, setopt, other).at)
    decreases |st.data| - st.dataPos
  {
    match GetTlvComn(st)
    case NoMoreTlvs(_) =>
    case SizeError(_) =>
    case Found(t, _) =>
      var o := ParseTlv(f, t, setopt, other);
      if o.rc == 0 {
        RunEndsLikeDecode(o.fuzz, Advance(st, t), setopt, other);
      }
  }

  /** An empty input is a valid stream with no records: the run succeeds and
      leaves the state zeroed, with no option handed to the engine. */
  lemma EmptyRunConfiguresNothing(setopt: SetOpt, other: Other)
    ensures Run([], setopt, other) == Configured(Initial())
    ensures Run([], setopt, other).fuzz.easy == map[]
  {
  }

  /** An input of 1 to 5 bytes cannot hold a header: the run stops at
      position 0 with nothing applied. */
  lemma TruncatedHeaderRun(data: seq<byte>, setopt: SetOpt, other: Other)
    requires 0 < |data| < TLV_RAW_SIZE
    ensures Run(data, setopt, other) == BadStream(0, Initial())
  {
  }

  /** An input holding one URL record "http://x" configures the engine's
      target with that string when the engine accepts it, and otherwise ends
      the run with the engine's own code. */
  lemma UrlScenario(setopt: SetOpt, other: Other)
    ensures var url: seq<byte> := [0x68, 0x74, 0x74, 0x70, 0x3a, 0x2f, 0x2f, 0x78];
            var data := [0, 1, 0, 0, 0, 8] + url;
            var code := setopt(CURLOPT_URL, StrValue(url + [0]));
            && (code == 0 ==>
                  && Run(data, setopt, other).Configured?
                  && Run(data, setopt, other).fuzz.easy == map[CURLOPT_URL := StrValue(url + [0])]
                  && Run(data, setopt, other).fuzz.responses == Initial().responses)
            && (code != 0 ==> Run(data, setopt, other) == Rejected(code, Initial()))
  {
    var url: seq<byte> := [0x68, 0x74, 0x74, 0x70, 0x3a, 0x2f, 0x2f, 0x78];
    var t := Tlv(TLV_TYPE_URL, 8, url);
    assert Encode(t) == [0, 1, 0, 0, 0, 8] + url;
    assert EncodeAll([t]) == Encode(t);
    DecodeEncodeAll([t]);
    RunMatchesDecode(Initial(), ParseState(Encode(t), 0), setopt, other);
    assert [t][1..] == [];
  }

  /** The two-record HTTPAUTH input is the image of its two records. */
  lemma AuthStreamImage(t1: Tlv, t2: Tlv)
    requires t1 == Tlv(TLV_TYPE_HTTPAUTH, 4, [0, 0, 0, 1])
    requires t2 == Tlv(TLV_TYPE_HTTPAUTH, 4, [0, 0, 0, 2])
    ensures EncodeAll([t1, t2]) == [0, 16, 0, 0, 0, 4, 0, 0, 0, 1, 0, 16, 0, 0, 0, 4, 0, 0, 0, 2]
  {
    assert [t1, t2][1..] == [t2];
    assert [t2][1..] == [];
    assert EncodeAll([t2]) == Encode(t2);
    assert Encode(t1) == [0, 16, 0, 0, 0, 4, 0, 0, 0, 1];
    assert Encode(t2) == [0, 16, 0, 0, 0, 4, 0, 0, 0, 2];
  }

  /** Applying the two HTTPAUTH records: the first is accepted, the second
      refused by the set-once check. */
  lemma AuthRecordsApplied(t1: Tlv, t2: Tlv, setopt: SetOpt, other: Other)
    requires t1 == Tlv(TLV_TYPE_HTTPAUTH, 4, [0, 0, 0, 1])
    requires t2 == Tlv(TLV_TYPE_HTTPAUTH, 4, [0, 0, 0, 2])
    requires setopt(CURLOPT_HTTPAUTH, LongValue(1)) == 0
    ensures ParseRecords(Initial(), [t1, t2], setopt, other).rc == FCHECK_FAILED
    ensures ParseRecords(Initial(), [t1, t2], setopt, other).fuzz.easy
         == map[CURLOPT_HTTPAUTH := LongValue(1)]
  {
    assert ToU32(t1.value) == 1;
    var o1 := ParseTlv(Initial(), t1, setopt, other);
    assert o1.rc == 0;
    assert o1.fuzz.easy == map[CURLOPT_HTTPAUTH := LongValue(1)];
    var o2 := ParseTlv(o1.fuzz, t2, setopt, other);
    assert o2 == Outcome(FCHECK_FAILED, o1.fuzz);
    assert [t1, t2][1..] == [t2];
    assert [t2][1..] == [];
    assert ParseRecords(o1.fuzz, [t2], setopt, other) == o2;
  }

  /** Two HTTPAUTH records with values 1 and 2: the second is refused with 255
      and the run's outcome is that code, not the engine's. */
  lemma RepeatedAuthScenario(setopt: SetOpt, other: Other)
    requires setopt(CURLOPT_HTTPAUTH, LongValue(1)) == 0
    ensures var data := [0, 16, 0, 0, 0, 4, 0, 0, 0, 1, 0, 16, 0, 0, 0, 4, 0, 0, 0, 2];
            && Run(data, setopt, other).Rejected?
            && Run(data, setopt, other).rc == FCHECK_FAILED
            && Run(data, setopt, other).fuzz.easy == map[CURLOPT_HTTPAUTH := LongValue(1)]
  {
    var t1 := Tlv(TLV_TYPE_HTTPAUTH, 4, [0, 0, 0, 1]);
    var t2 := Tlv(TLV_TYPE_HTTPAUTH, 4, [0, 0, 0, 2]);
    var data: seq<byte> := [0, 16, 0, 0, 0, 4, 0, 0, 0, 1, 0, 16, 0, 0, 0, 4, 0, 0, 0, 2];
    AuthStreamImage(t1, t2);
    DecodeEncodeAll([t1, t2]);
    RunMatchesDecode(Initial(), ParseState(data, 0), setopt, other);
    AuthRecordsApplied(t1, t2, setopt, other);
  }
}
