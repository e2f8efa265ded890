// One record of the write-ahead log: seq, time, type and payload, closed by a checksum.
module WalRecord {
  import opened Bytes
  import opened Framing

  const NEW_ORDER: byte := 1
  const CANCEL_ORDER: byte := 2

  const MIN_BODY := 8 + 8 + 1 + 4

  datatype Record = Record(seqId: u64, timestamp: i64, eventType: byte, payload: seq<byte>)

  function BodyLen(r: Record): nat { MIN_BODY + |r.payload| }

  function Content(r: Record): seq<byte> {
    LE(r.seqId, 8) + LE(Unsigned(r.timestamp), 8) + [r.eventType] + r.payload
  }

  function Body(crc: Crc, r: Record): seq<byte> { Sealed(crc, Content(r)) }

  function Decoded(crc: Crc, body: seq<byte>): Result<Record> {
    if |body| < MIN_BODY then Err(TooShort)
    else
      var n := |body| - 4;
      if U32(body[n..]) != crc(body[..n]) then Err(ChecksumMismatch)
      else Ok(Record(U64(body[..8]), Signed(U64(body[8..16])), body[16], body[17..n]))
  }

  function WalFormat(crc: Crc): Format<Record> {
    Format(MIN_BODY, (r: Record) => Body(crc, r), (b: seq<byte>) => Decoded(crc, b))
  }

  lemma FrameParts(crc: Crc, r: Record)
    ensures (LE(BodyLen(r), 4) + Content(r)) + LE(crc(Content(r)), 4) == Frame(WalFormat(crc), r)
  {
  }

  // Which bytes of a written frame hold what, the time at bytes 12 to 20.
  ghost predicate LaidOut(crc: Crc, r: Record, frame: seq<byte>) {
    var k := 21 + |r.payload|;
    && |frame| >= k + 4
    && HasNumber(frame, 0, 4, k) && HasNumber(frame, 4, 8, r.seqId) && HasNumber(frame, 12, 8, r.timestamp)
    && frame[20] == r.eventType && frame[21..k] == r.payload && HasNumber(frame, k, 4, crc(frame[4..k]))
  }

  lemma FrameIsLaidOut(crc: Crc, r: Record, rest: seq<byte>)
    ensures LaidOut(crc, r, Frame(WalFormat(crc), r) + rest)
  {
    var f, k := Frame(WalFormat(crc), r) + rest, 21 + |r.payload|;
    var size, seqId, time := LE(BodyLen(r), 4), LE(r.seqId, 8), LE(Unsigned(r.timestamp), 8);
    var content, sum := [r.eventType] + r.payload, LE(crc(Content(r)), 4);
    assert f == size + seqId + time + content + sum + rest;
    NumberIsIn(f, [], f[4..], 4, BodyLen(r));
    NumberIsIn(f, size, f[12..], 8, r.seqId);
    TimeIsIn(f, size + seqId, f[20..], r.timestamp);
    assert f[4..k] == Content(r);
    NumberIsIn(f, size + seqId + time + content, rest, 4, crc(Content(r)));
  }

  method EncodeInto(crc: Crc, r: Record, frame: array<byte>) returns (ok: bool)
    modifies frame
    ensures ok <==> BodyLen(r) <= MAX_BODY && frame.Length >= 4 + BodyLen(r)
    ensures ok ==> Filled(frame[..], Frame(WalFormat(crc), r), old(frame[..])) && LaidOut(crc, r, frame[..])
    ensures !ok ==> frame[..] == old(frame[..])
  {
    var bodyLen := BodyLen(r);
    if bodyLen > MAX_BODY || frame.Length < 4 + bodyLen { return false; }
    ghost var was := frame[..];
    PutLE(frame, 0, 4, bodyLen, [], was);
    var off := 4;
    ghost var written := [] + LE(bodyLen, 4);
    PutLE(frame, off, 8, r.seqId, written, was);
    off, written := off + 8, written + LE(r.seqId, 8);
    PutLE(frame, off, 8, Unsigned(r.timestamp), written, was);
    off, written := off + 8, written + LE(Unsigned(r.timestamp), 8);
    Put(frame, off, [r.eventType], written, was);
    off, written := off + 1, written + [r.eventType];
    Put(frame, off, r.payload, written, was);
    off, written := off + |r.payload|, written + r.payload;
    assert written == LE(bodyLen, 4) + Content(r);
    assert frame[4..off] == Content(r);
    PutLE(frame, off, 4, crc(frame[4..off]), written, was);
    FrameParts(crc, r);
    assert frame[..] == Frame(WalFormat(crc), r) + frame[off + 4..];
    FrameIsLaidOut(crc, r, frame[off + 4..]);
    ok := true;
  }

  method DecodeBody(crc: Crc, body: seq<byte>) returns (res: Result<Record>)
    ensures res == Decoded(crc, body)
  {
    if |body| < MIN_BODY { return Err(TooShort); }
    var off := 0;
    var seqId := U64(body[off..off + 8]);
    off := off + 8;
    var ts := Signed(U64(body[off..off + 8]));
    off := off + 8;
    var eventType := body[off];
    off := off + 1;
    var payload := body[off..off + (|body| - MIN_BODY)];
    off := off + (|body| - MIN_BODY);
    assert body[off..off + 4] == body[off..];
    if U32(body[off..off + 4]) != crc(body[..off]) { return Err(ChecksumMismatch); }
    res := Ok(Record(seqId, ts, eventType, payload));
  }

  // A body is accepted as a record exactly when it is that record's encoding.
  lemma DecodedExactly(crc: Crc, body: seq<byte>, r: Record)
    ensures Decoded(crc, body) == Ok(r) <==> body == Body(crc, r)
  {
    if |body| >= MIN_BODY {
      Slices(body);
      U64Inverse(body[..8], r.seqId);
      U64Inverse(body[8..16], Unsigned(r.timestamp));
      U32Inverse(body[|body| - 4..], crc(body[..|body| - 4]));
      if body == Body(crc, r) { BodySlices(crc, r); }
    }
  }

  lemma Slices(body: seq<byte>)
    requires |body| >= MIN_BODY
    ensures var n := |body| - 4;
            && body[..n] == body[..8] + body[8..16] + [body[16]] + body[17..n]
            && body == body[..n] + body[n..]
  {
  }

  lemma BodySlices(crc: Crc, r: Record)
    ensures var body, n := Body(crc, r), BodyLen(r) - 4;
            && body[..8] == LE(r.seqId, 8) && body[8..16] == LE(Unsigned(r.timestamp), 8)
            && body[16] == r.eventType && body[17..n] == r.payload
            && body[..n] == Content(r) && body[n..] == LE(crc(Content(r)), 4)
  {
  }

  // A record is readable from the log exactly when it fits.
  lemma WritableExactly(crc: Crc, r: Record)
    ensures Writable(WalFormat(crc), r) <==> BodyLen(r) <= MAX_BODY
  {
    DecodedExactly(crc, Body(crc, r), r);
  }

  // A buffer decodes to a record exactly when it starts with the frame of the record, which is not too
  // large.
  lemma FramedExactly(crc: Crc, frame: seq<byte>, r: Record)
    ensures DecodeFrame(WalFormat(crc), frame) == Ok(r) <==> BodyLen(r) <= MAX_BODY && Frame(WalFormat(crc), r) <= frame
  {
    forall b ensures Decoded(crc, b) == Ok(r) <==> b == Body(crc, r) { DecodedExactly(crc, b, r); }
    DecodesExactly(WalFormat(crc), frame, r);
  }

  // Encoding then decoding, with anything behind the frame.
  lemma RoundTrip(crc: Crc, r: Record, rest: seq<byte>)
    requires BodyLen(r) <= MAX_BODY
    ensures DecodeFrame(WalFormat(crc), Frame(WalFormat(crc), r) + rest) == Ok(r)
  {
    WritableExactly(crc, r);
    FrameRoundTrip(WalFormat(crc), r, rest);
  }

  // The first bytes of a frame, up to the type and the payload.
  lemma FrameStart(crc: Crc, r: Record)
    requires BodyLen(r) <= MAX_BODY
    ensures var frame := Frame(WalFormat(crc), r);
            && |frame| == 4 + BodyLen(r)
            && frame[..20] == LE(BodyLen(r), 4) + LE(r.seqId, 8) + LE(Unsigned(r.timestamp), 8)
            && frame[20] == r.eventType && frame[21..21 + |r.payload|] == r.payload
  {
    var frame := Frame(WalFormat(crc), r);
    var start := LE(BodyLen(r), 4) + LE(r.seqId, 8) + LE(Unsigned(r.timestamp), 8);
    assert frame == start + [r.eventType] + r.payload + LE(crc(Content(r)), 4);
  }

  // Of two bodies that differ only in the checksum one does not decode.
  lemma OneIsBroken(crc: Crc, a: seq<byte>, b: seq<byte>)
    requires |a| == |b| >= MIN_BODY && a[..|a| - 4] == b[..|b| - 4] && a[|a| - 4..] != b[|b| - 4..]
    ensures Decoded(crc, a).Err? || Decoded(crc, b).Err?
  {
    U32Inverse(a[|a| - 4..], crc(a[..|a| - 4]));
    U32Inverse(b[|b| - 4..], crc(b[..|b| - 4]));
  }

  lemma HiddenSmall(crc: Crc, n: nat) returns (r: Record)
    requires MIN_BODY <= n <= MIN_BODY + 4
    ensures Writable(WalFormat(crc), r) && 4 + BodyLen(r) >= n
    ensures Decoded(crc, Frame(WalFormat(crc), r)[..n]).Err?
  {
    var a := Record(0, 0, NEW_ORDER, [0, 0, 0, 0]);
    var b := if n <= 24 then a.(eventType := CANCEL_ORDER) else a.(payload := [1, 0, 0, 0]);
    WritableExactly(crc, a);
    WritableExactly(crc, b);
    FrameStart(crc, a);
    FrameStart(crc, b);
    var x, y := Frame(WalFormat(crc), a)[..n], Frame(WalFormat(crc), b)[..n];
    assert forall i :: 0 <= i < 20 ==> x[i] == Frame(WalFormat(crc), a)[..20][i];
    assert forall i :: 0 <= i < 20 ==> y[i] == Frame(WalFormat(crc), b)[..20][i];
    assert x[20] == a.eventType && y[20] == b.eventType;
    if n <= 24 {
      assert x[n - 4..][20 - (n - 4)] != y[n - 4..][20 - (n - 4)];
    } else {
      assert x[21] == a.payload[0] && y[21] == b.payload[0];
      assert x[21..][0] != y[21..][0];
    }
    assert x[..n - 4] == y[..n - 4];
    OneIsBroken(crc, x, y);
    r := if Decoded(crc, x).Err? then a else b;
  }

  // Behind a length prefix whose body was lost some record is not read, whatever was lost and
  // whatever the checksum function is.
  lemma SomeRecordIsHidden(crc: Crc, lost: Record) returns (r: Record)
    requires Writable(WalFormat(crc), lost)
    ensures Exposes(WalFormat(crc), lost, r)
  {
    if BodyLen(lost) > MIN_BODY + 4 {
      r := Record(0, 0, NEW_ORDER, []);
      WritableExactly(crc, r);
      FrameStart(crc, r);
    } else {
      r := HiddenSmall(crc, BodyLen(lost));
    }
  }
}
