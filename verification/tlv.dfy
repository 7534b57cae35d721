/**
 The TLV record stream and its decoder.

 A stream is a flat sequence of records, each a 6-byte header (2-byte type,
 4-byte length, both big-endian) followed by exactly `length` value bytes,
 with no padding and no terminator other than the end of the buffer.

 The decoder reads through a cursor `{data, data_len, data_pos}`; here the
 buffer is a sequence, `data_len` is its length, and the cursor type itself
 carries the invariant `data_pos <= data_len`. A decode step answers with
 one of the three return codes: a record was found, no more records, or a
 size error.
 */
module Tlv {
  import opened Bytes

  /** Size of the raw header: 2 type bytes and 4 length bytes. */
  const TLV_RAW_SIZE: nat := 6

  /** Return codes of a decode step. */
  const TLV_RC_NO_ERROR: nat := 0
  const TLV_RC_NO_MORE_TLVS: nat := 1
  const TLV_RC_SIZE_ERROR: nat := 2

  /** The raw header as it sits in the stream. */
  datatype TlvRaw = TlvRaw(rawType: seq<byte>, rawLength: seq<byte>)
  {
    predicate Valid() { |rawType| == 2 && |rawLength| == 4 }
  }

  /** A decoded record. `value` is the view of the `length` bytes that follow
      the header in the stream. */
  datatype Tlv = Tlv(tlvType: u16, length: u32, value: seq<byte>)

  /** A record whose value really is `length` bytes long. */
  predicate WellFormed(t: Tlv) {
    |t.value| == t.length
  }

  /** The parser state; `data_len` is `|data|`. */
  datatype ParseState = ParseState(data: seq<byte>, dataPos: nat)

  /** A parser state whose position lies within the buffer. */
  type Cursor = s: ParseState | s.dataPos <= |s.data| witness ParseState([], 0)

  /** The outcome of one decode step, together with the cursor after it. */
  datatype Step =
    | Found(tlv: Tlv, state: Cursor)
    | NoMoreTlvs(state: Cursor)
    | SizeError(state: Cursor)
  {
    /** The numeric return code of the step. */
    function Code(): nat {
      match this
      case Found(_, _) => TLV_RC_NO_ERROR
      case NoMoreTlvs(_) => TLV_RC_NO_MORE_TLVS
      case SizeError(_) => TLV_RC_SIZE_ERROR
    }
  }

  /** The wire image of a record. */
  function Encode(t: Tlv): (b: seq<byte>)
    requires WellFormed(t)
    ensures |b| == TLV_RAW_SIZE + t.length
  {
    FromU16(t.tlvType) + FromU32(t.length) + t.value
  }

  /** The wire image of a sequence of records, one after the other. */
  function EncodeAll(ts: seq<Tlv>): (b: seq<byte>)
    requires forall i :: 0 <= i < |ts| ==> WellFormed(ts[i])
  {
    if |ts| == 0 then [] else Encode(ts[0]) + EncodeAll(ts[1..])
  }

  /** Views the six bytes at `pos` as a raw header. */
  function RawAt(data: seq<byte>, pos: nat): (raw: TlvRaw)
    requires pos + TLV_RAW_SIZE <= |data|
    ensures raw.Valid()
  {
    TlvRaw(data[pos .. pos + 2], data[pos + 2 .. pos + TLV_RAW_SIZE])
  }

  /** A complete header sits at `pos` and the value it announces ends
      within the buffer. */
  predicate HasRecordAt(data: seq<byte>, pos: nat) {
    && pos + TLV_RAW_SIZE <= |data|
    && pos + TLV_RAW_SIZE + ToU32(RawAt(data, pos).rawLength) <= |data|
  }

  /** Reads the record at the cursor without moving it. */
  function GetTlvComn(st: Cursor): (r: Step)
    ensures r.state == st
    ensures r.NoMoreTlvs? <==> st.dataPos == |st.data|
    ensures r.Found? <==> HasRecordAt(st.data, st.dataPos)
    ensures r.SizeError? <==> st.dataPos < |st.data| && !HasRecordAt(st.data, st.dataPos)
    ensures r.Found? ==>
              && WellFormed(r.tlv)
              && st.dataPos + TLV_RAW_SIZE + r.tlv.length <= |st.data|
              && st.data[st.dataPos .. st.dataPos + TLV_RAW_SIZE + r.tlv.length] == Encode(r.tlv)
  {
    var pos := st.dataPos;
    if pos == |st.data| then
      NoMoreTlvs(st)
    else if |st.data| - pos < TLV_RAW_SIZE then
      SizeError(st)
    else
      var raw := RawAt(st.data, pos);
      var t := ToU16(raw.rawType);
      var len := ToU32(raw.rawLength);
      var offset := pos + TLV_RAW_SIZE;
      if offset + len > |st.data| then
        SizeError(st)
      else
        var tlv := Tlv(t, len, st.data[offset .. offset + len]);
        U16Canonical(raw.rawType);
        U32Canonical(raw.rawLength);
        assert st.data[pos .. offset + len]
            == raw.rawType + raw.rawLength + st.data[offset .. offset + len];
        Found(tlv, st)
  }

  /** Resets the cursor to the start of the buffer and reads the first record. */
  function GetFirstTlv(data: seq<byte>): (r: Step)
    ensures r.state == ParseState(data, 0)
    ensures |data| == 0 <==> r.NoMoreTlvs?
    ensures 0 < |data| < TLV_RAW_SIZE ==> r.SizeError?
    ensures r == GetTlvComn(r.state)
  {
    GetTlvComn(ParseState(data, 0))
  }

  /** The cursor moved past the header and the value of `prev`: when `prev`
      is the record read at the cursor, exactly past its image. */
  function Advance(st: Cursor, prev: Tlv): (next: Cursor)
    requires st.dataPos + TLV_RAW_SIZE + prev.length <= |st.data|
    ensures next.data == st.data
    ensures st.dataPos < next.dataPos
    ensures GetTlvComn(st).Found? && GetTlvComn(st).tlv == prev ==>
              st.data[st.dataPos .. next.dataPos] == Encode(prev)
  {
    ParseState(st.data, st.dataPos + TLV_RAW_SIZE + prev.length)
  }

  /** Moves past the record `prev` read at the cursor and reads the next one. */
  function GetNextTlv(st: Cursor, prev: Tlv): (r: Step)
    requires st.dataPos + TLV_RAW_SIZE + prev.length <= |st.data|
    ensures r.state.data == st.data
    ensures r.state.dataPos == st.dataPos + TLV_RAW_SIZE + prev.length
    ensures r.NoMoreTlvs? <==> r.state.dataPos == |st.data|
    ensures r == GetTlvComn(r.state)
  {
    GetTlvComn(Advance(st, prev))
  }

  /** The result of decoding a whole stream. */
  datatype Decoded = Records(tlvs: seq<Tlv>) | Malformed(at: nat)

  /** Decodes every record from the cursor to the end of the buffer, or
      reports the position of the first record that does not fit. */
  function DecodeFrom(st: Cursor): (r: Decoded)
    ensures r.Records? ==> forall i :: 0 <= i < |r.tlvs| ==> WellFormed(r.tlvs[i])
    ensures r.Malformed? ==> st.dataPos <= r.at < |st.data|
    decreases |st.data| - st.dataPos
  {
    match GetTlvComn(st)
    case NoMoreTlvs(_) => Records([])
    case SizeError(_) => Malformed(st.dataPos)
    case Found(t, _) =>
      match DecodeFrom(Advance(st, t))
      case Records(rest) => Records([t] + rest)
      case Malformed(at) => Malformed(at)
  }

  /** The records read from the cursor before decoding stops, at the end of
      the buffer or at a record that does not fit. */
  function Prefix(st: Cursor): (ts: seq<Tlv>)
    ensures forall i :: 0 <= i < |ts| ==> WellFormed(ts[i])
    decreases |st.data| - st.dataPos
  {
    match GetTlvComn(st)
    case Found(t, _) => [t] + Prefix(Advance(st, t))
    case _ => []
  }

  /** Decodes a whole buffer from its first byte. */
  function DecodeAll(data: seq<byte>): Decoded {
    DecodeFrom(ParseState(data, 0))
  }

  /** A well-formed record's image, wherever it sits in the buffer, decodes
      back to that record. */
  lemma DecodeEncoded(data: seq<byte>, pos: nat, t: Tlv)
    requires WellFormed(t)
    requires pos + |Encode(t)| <= |data|
    requires data[pos .. pos + |Encode(t)|] == Encode(t)
    ensures GetTlvComn(ParseState(data, pos)) == Found(t, ParseState(data, pos))
  {
    var e := Encode(t);
    assert forall i :: 0 <= i < |e| ==> data[pos + i] == e[i] by {
      forall i | 0 <= i < |e| ensures data[pos + i] == e[i] {
        assert data[pos .. pos + |e|][i] == e[i];
      }
    }
    assert e == FromU16(t.tlvType) + FromU32(t.length) + t.value;
    assert data[pos .. pos + 2] == FromU16(t.tlvType) by {
      forall i | 0 <= i < 2 ensures data[pos .. pos + 2][i] == FromU16(t.tlvType)[i] {
        assert e[i] == FromU16(t.tlvType)[i];
      }
    }
    assert data[pos + 2 .. pos + TLV_RAW_SIZE] == FromU32(t.length) by {
      forall i | 0 <= i < 4 ensures data[pos + 2 .. pos + TLV_RAW_SIZE][i] == FromU32(t.length)[i] {
        assert e[2 + i] == FromU32(t.length)[i];
      }
    }
    assert data[pos + TLV_RAW_SIZE .. pos + TLV_RAW_SIZE + t.length] == t.value by {
      forall i | 0 <= i < t.length
        ensures data[pos + TLV_RAW_SIZE .. pos + TLV_RAW_SIZE + t.length][i] == t.value[i]
      {
        assert e[TLV_RAW_SIZE + i] == t.value[i];
      }
    }
    U16RoundTrip(t.tlvType);
    U32RoundTrip(t.length);
  }

  /** Decoding the image of well-formed records that follow any prefix gives
      back exactly those records. */
  lemma {:induction false} DecodeEncodeAllAfter(p: seq<byte>, ts: seq<Tlv>)
    requires forall i :: 0 <= i < |ts| ==> WellFormed(ts[i])
    ensures DecodeFrom(ParseState(p + EncodeAll(ts), |p|)) == Records(ts)
    decreases |ts|
  {
    var data := p + EncodeAll(ts);
    var st: Cursor := ParseState(data, |p|);
    if |ts| == 0 {
      assert data == p;
    } else {
      var t := ts[0];
      var e := Encode(t);
      assert data == (p + e) + EncodeAll(ts[1..]);
      assert data[|p| .. |p| + |e|] == e;
      DecodeEncoded(data, |p|, t);
      assert Advance(st, t) == ParseState((p + e) + EncodeAll(ts[1..]), |p + e|);
      DecodeEncodeAllAfter(p + e, ts[1..]);
      assert [t] + ts[1..] == ts;
    }
  }

  /** Round trip: the records of an encoded stream are the records encoded. */
  lemma DecodeEncodeAll(ts: seq<Tlv>)
    requires forall i :: 0 <= i < |ts| ==> WellFormed(ts[i])
    ensures DecodeAll(EncodeAll(ts)) == Records(ts)
  {
    DecodeEncodeAllAfter([], ts);
    assert [] + EncodeAll(ts) == EncodeAll(ts);
  }

  /** Round trip the other way: a stream that decodes completely is exactly
      the image of the records it decodes to, so no byte is skipped or
      invented. */
  lemma {:induction false} EncodeDecodeFrom(st: Cursor)
    requires DecodeFrom(st).Records?
    ensures EncodeAll(DecodeFrom(st).tlvs) == st.data[st.dataPos..]
    decreases |st.data| - st.dataPos
  {
    match GetTlvComn(st)
    case NoMoreTlvs(_) =>
    case Found(t, _) =>
      var next := Advance(st, t);
      EncodeDecodeFrom(next);
      var rest := DecodeFrom(next).tlvs;
      var ts := [t] + rest;
      assert DecodeFrom(st).tlvs == ts;
      assert ts[1..] == rest;
      assert st.data[st.dataPos..]
          == st.data[st.dataPos .. next.dataPos] + st.data[next.dataPos..];
  }

  /** A buffer that decodes completely is the image of the records it
      decodes to. */
  lemma EncodeDecodeAll(data: seq<byte>)
    requires DecodeAll(data).Records?
    ensures EncodeAll(DecodeAll(data).tlvs) == data
  {
    EncodeDecodeFrom(ParseState(data, 0));
  }

  /** A malformed stream is reported at a position inside the buffer where a
      record header starts but the record does not fit: the bytes before it
      are exactly the images of the records read before decoding stopped. */
  lemma {:induction false} MalformedAtRecordStart(st: Cursor)
    requires DecodeFrom(st).Malformed?
    ensures !HasRecordAt(st.data, DecodeFrom(st).at)
    ensures DecodeFrom(ParseState(st.data, DecodeFrom(st).at)) == DecodeFrom(st)
    ensures st.data[st.dataPos .. DecodeFrom(st).at] == EncodeAll(Prefix(st))
    decreases |st.data| - st.dataPos
  {
    match GetTlvComn(st)
    case SizeError(_) =>
    case Found(t, _) =>
      var next := Advance(st, t);
      var at := DecodeFrom(st).at;
      MalformedAtRecordStart(next);
      var ts := Prefix(st);
      assert ts[0] == t && ts[1..] == Prefix(next);
      assert st.data[st.dataPos .. at]
          == st.data[st.dataPos .. next.dataPos] + st.data[next.dataPos .. at];
  }
}
