// One record of the event outbox.  Its partition key has a two-byte length of its own.
module OutboxRecord {
  import opened Bytes
  import opened Framing

  const TOPIC_MATCH: byte := 1
  const TOPIC_TRADE: byte := 2

  const HEADER := 8 + 8 + 8 + 1 + 4 + 8 + 2
  const MIN_BODY := HEADER + 4

  datatype Record = Record(outboxSeq: u64, walSeq: u64, timestamp: i64, topic: byte, kafkaPartition: u32,
                           kafkaOffset: u64, key: seq<byte>, payload: seq<byte>)

  function BodyLen(r: Record): nat { HEADER + |r.key| + |r.payload| + 4 }

  // The key length is truncated to two bytes.
  function Header(r: Record): (h: seq<byte>)
    ensures |h| == HEADER
  {
    LE(r.outboxSeq, 8) + LE(r.walSeq, 8) + LE(Unsigned(r.timestamp), 8) + [r.topic]
    + LE(r.kafkaPartition, 4) + LE(r.kafkaOffset, 8) + LE(|r.key| % 0x1_0000, 2)
  }

  function Content(r: Record): seq<byte> { Header(r) + r.key + r.payload }

  function Body(crc: Crc, r: Record): seq<byte> { Sealed(crc, Content(r)) }

  function Decoded(crc: Crc, body: seq<byte>): Result<Record> {
    if |body| < MIN_BODY then Err(TooShort)
    else
      var keyLen, n := U16(body[37..39]), |body| - 4;
      if HEADER + keyLen > n then Err(TooShort)
      else if U32(body[n..]) != crc(body[..n]) then Err(ChecksumMismatch)
      else Ok(Record(U64(body[..8]), U64(body[8..16]), Signed(U64(body[16..24])), body[24], U32(body[25..29]),
                     U64(body[29..37]), body[HEADER..HEADER + keyLen], body[HEADER + keyLen..n]))
  }

  function OutboxFormat(crc: Crc): Format<Record> {
    Format(MIN_BODY, (r: Record) => Body(crc, r), (b: seq<byte>) => Decoded(crc, b))
  }

  // Which bytes of a written frame hold what.
  ghost predicate LaidOut(crc: Crc, r: Record, frame: seq<byte>) {
    var p := 43 + |r.key|;
    var k := p + |r.payload|;
    && |frame| >= k + 4
    && HasNumber(frame, 0, 4, k) && HasNumber(frame, 4, 8, r.outboxSeq) && HasNumber(frame, 12, 8, r.walSeq)
    && HasNumber(frame, 20, 8, r.timestamp) && frame[28] == r.topic && HasNumber(frame, 29, 4, r.kafkaPartition)
    && HasNumber(frame, 33, 8, r.kafkaOffset) && HasNumber(frame, 41, 2, |r.key|)
    && frame[43..p] == r.key && frame[p..k] == r.payload && HasNumber(frame, k, 4, crc(frame[4..k]))
  }

  lemma FrameIsLaidOut(crc: Crc, r: Record, rest: seq<byte>)
    ensures LaidOut(crc, r, Frame(OutboxFormat(crc), r) + rest)
  {
    var f, size, sum := Frame(OutboxFormat(crc), r) + rest, LE(BodyLen(r), 4), LE(crc(Content(r)), 4);
    Regroup(size, Header(r), r.key, r.payload, sum, rest);
    assert f == [] + size + f[4..];
    NumberIsIn(f, [], f[4..], 4, BodyLen(r));
    HeaderIsLaidOut(f, size, r.key + r.payload + sum + rest, r);
    EndIsLaidOut(crc, f, size, r, rest);
  }

  lemma Regroup(a: seq<byte>, h: seq<byte>, k: seq<byte>, p: seq<byte>, c: seq<byte>, rest: seq<byte>)
    ensures a + (h + k + p + c) + rest == a + h + (k + p + c + rest)
  {
  }

  lemma EndIsLaidOut(crc: Crc, f: seq<byte>, front: seq<byte>, r: Record, rest: seq<byte>)
    requires f == front + Header(r) + (r.key + r.payload + LE(crc(Content(r)), 4) + rest) && |front| == 4
    ensures var p := 43 + |r.key|;
            var k := p + |r.payload|;
            && |f| >= k + 4 && f[43..p] == r.key && f[p..k] == r.payload && f[4..k] == Content(r)
            && HasNumber(f, k, 4, crc(f[4..k]))
  {
    var p := 43 + |r.key|;
    var k := p + |r.payload|;
    assert f[..k] == front + Header(r) + r.key + r.payload;
    assert f[4..k] == Content(r) by { assert f[4..k] == f[..k][4..]; }
    NumberIsIn(f, f[..k], rest, 4, crc(Content(r)));
  }

  lemma HeaderIsLaidOut(f: seq<byte>, front: seq<byte>, back: seq<byte>, r: Record)
    requires f == front + Header(r) + back && |front| == 4
    ensures HasNumber(f, 4, 8, r.outboxSeq) && HasNumber(f, 12, 8, r.walSeq) && HasNumber(f, 20, 8, r.timestamp)
    ensures f[28] == r.topic
    ensures HasNumber(f, 29, 4, r.kafkaPartition) && HasNumber(f, 33, 8, r.kafkaOffset) && HasNumber(f, 41, 2, |r.key|)
  {
    PartsOfHeader(r);
    NumberAt(f, front, Header(r), back, 0, 8, r.outboxSeq);
    NumberAt(f, front, Header(r), back, 8, 8, r.walSeq);
    Cut(f, front, Header(r), back, 16, 24);
    TimeIsIn(f, f[..20], f[28..], r.timestamp);
    NumberAt(f, front, Header(r), back, 25, 4, r.kafkaPartition);
    NumberAt(f, front, Header(r), back, 29, 8, r.kafkaOffset);
    NumberAt(f, front, Header(r), back, 37, 2, |r.key| % 0x1_0000);
    KeyLengthIsCut(f, |r.key|);
  }

  lemma Cut(f: seq<byte>, front: seq<byte>, h: seq<byte>, back: seq<byte>, i: nat, j: nat)
    requires f == front + h + back && i <= j <= |h|
    ensures f == f[..|front| + i] + h[i..j] + f[|front| + j..]
  {
  }

  lemma NumberAt(f: seq<byte>, front: seq<byte>, h: seq<byte>, back: seq<byte>, i: nat, w: nat, n: nat)
    requires f == front + h + back && i + w <= |h| && h[i..i + w] == LE(n, w)
    ensures HasNumber(f, |front| + i, w, n)
  {
    Cut(f, front, h, back, i, i + w);
    NumberIsIn(f, f[..|front| + i], f[|front| + i + w..], w, n);
  }

  // The key length that is cut to two bytes has the two lowest bytes of the length.
  lemma KeyLengthIsCut(f: seq<byte>, n: nat)
    requires HasNumber(f, 41, 2, n % 0x1_0000)
    ensures HasNumber(f, 41, 2, n)
  {
    Widths();
    forall i | 0 <= i < 2 ensures n % 0x1_0000 / Pow256(i) % 256 == n / Pow256(i) % 256 {
      SameLowBytes(n % 0x1_0000, n / 0x1_0000, 2, i);
    }
  }

  method EncodeInto(crc: Crc, r: Record, frame: array<byte>) returns (ok: bool)
    modifies frame
    ensures ok <==> BodyLen(r) <= MAX_BODY && frame.Length >= 4 + BodyLen(r)
    ensures ok ==> Filled(frame[..], Frame(OutboxFormat(crc), r), old(frame[..])) && LaidOut(crc, r, frame[..])
    ensures !ok ==> frame[..] == old(frame[..])
  {
    var bodyLen := BodyLen(r);
    if bodyLen > MAX_BODY || frame.Length < 4 + bodyLen { return false; }
    ghost var was := frame[..];
    PutLE(frame, 0, 4, bodyLen, [], was);
    var off := 4;
    ghost var written := [] + LE(bodyLen, 4);
    off, written := PutHeader(r, frame, off, written, was);
    Put(frame, off, r.key, written, was);
    off, written := off + |r.key|, written + r.key;
    Put(frame, off, r.payload, written, was);
    off, written := off + |r.payload|, written + r.payload;
    Regrouped(LE(bodyLen, 4), Header(r), r.key, r.payload, LE(crc(Content(r)), 4));
    assert frame[4..off] == Content(r) by { assert frame[4..off] == frame[..off][4..]; }
    PutLE(frame, off, 4, crc(frame[4..off]), written, was);
    assert frame[..] == Frame(OutboxFormat(crc), r) + frame[off + 4..];
    FrameIsLaidOut(crc, r, frame[off + 4..]);
    ok := true;
  }

  lemma Regrouped(a: seq<byte>, b: seq<byte>, c: seq<byte>, d: seq<byte>, e: seq<byte>)
    ensures ([] + a) + b + c + d == a + (b + c + d)
    ensures ([] + a) + b + c + d + e == a + (b + c + d + e)
  {
  }

  // The fields of fixed size.
  method PutHeader(r: Record, frame: array<byte>, off0: nat, ghost written0: seq<byte>, ghost was: seq<byte>)
      returns (off: nat, ghost written: seq<byte>)
    requires Filled(frame[..], written0, was) && |written0| == off0 && off0 + HEADER <= frame.Length
    modifies frame
    ensures off == off0 + HEADER && written == written0 + Header(r) && Filled(frame[..], written, was)
  {
    off, written := off0, written0;
    PutLE(frame, off, 8, r.outboxSeq, written, was);
    off, written := off + 8, written + LE(r.outboxSeq, 8);
    PutLE(frame, off, 8, r.walSeq, written, was);
    off, written := off + 8, written + LE(r.walSeq, 8);
    PutLE(frame, off, 8, Unsigned(r.timestamp), written, was);
    off, written := off + 8, written + LE(Unsigned(r.timestamp), 8);
    Put(frame, off, [r.topic], written, was);
    off, written := off + 1, written + [r.topic];
    PutLE(frame, off, 4, r.kafkaPartition, written, was);
    off, written := off + 4, written + LE(r.kafkaPartition, 4);
    PutLE(frame, off, 8, r.kafkaOffset, written, was);
    off, written := off + 8, written + LE(r.kafkaOffset, 8);
    PutLE(frame, off, 2, |r.key| % 0x1_0000, written, was);
    off, written := off + 2, written + LE(|r.key| % 0x1_0000, 2);
    assert written == written0 + Header(r);
  }

  method DecodeBody(crc: Crc, body: seq<byte>) returns (res: Result<Record>)
    ensures res == Decoded(crc, body)
  {
    if |body| < MIN_BODY { return Err(TooShort); }
    var off := 0;
    var outboxSeq := U64(body[off..off + 8]);
    off := off + 8;
    var walSeq := U64(body[off..off + 8]);
    off := off + 8;
    var ts := Signed(U64(body[off..off + 8]));
    off := off + 8;
    var topic := body[off];
    off := off + 1;
    var part := U32(body[off..off + 4]);
    off := off + 4;
    var kafkaOffset := U64(body[off..off + 8]);
    off := off + 8;
    var keyLen := U16(body[off..off + 2]);
    off := off + 2;
    if off + keyLen + 4 > |body| { return Err(TooShort); }
    var key := body[off..off + keyLen];
    off := off + keyLen;
    var payload := body[off..|body| - 4];
    off := |body| - 4;
    assert body[off..off + 4] == body[off..];
    if U32(body[off..off + 4]) != crc(body[..off]) { return Err(ChecksumMismatch); }
    res := Ok(Record(outboxSeq, walSeq, ts, topic, part, kafkaOffset, key, payload));
  }

  // A body is accepted as a record exactly when it is that record's encoding and the length of
  // the key was not truncated.
  lemma DecodedExactly(crc: Crc, body: seq<byte>, r: Record)
    ensures Decoded(crc, body) == Ok(r) <==> body == Body(crc, r) && |r.key| < 0x1_0000
  {
    if |body| >= MIN_BODY {
      HeaderExactly(body[..HEADER], r);
      U32Inverse(body[|body| - 4..], crc(body[..|body| - 4]));
      HeaderSlices(body);
      if Decoded(crc, body) == Ok(r) { AcceptedIsEncoded(crc, body, r); }
      if body == Body(crc, r) && |r.key| < 0x1_0000 { EncodedIsAccepted(crc, r); }
    }
  }

  ghost predicate HeaderFields(h: seq<byte>, r: Record)
    requires |h| == HEADER
  {
    && U64(h[..8]) == r.outboxSeq && U64(h[8..16]) == r.walSeq && Signed(U64(h[16..24])) == r.timestamp
    && h[24] == r.topic && U32(h[25..29]) == r.kafkaPartition && U64(h[29..37]) == r.kafkaOffset
    && U16(h[37..39]) == |r.key| % 0x1_0000
  }

  lemma HeaderExactly(h: seq<byte>, r: Record)
    requires |h| == HEADER
    ensures HeaderFields(h, r) <==> h == Header(r)
  {
    U64Inverse(h[..8], r.outboxSeq);
    U64Inverse(h[8..16], r.walSeq);
    U64Inverse(h[16..24], Unsigned(r.timestamp));
    U32Inverse(h[25..29], r.kafkaPartition);
    U64Inverse(h[29..37], r.kafkaOffset);
    U16Inverse(h[37..39], |r.key| % 0x1_0000);
    PartsMakeHeader(h);
    if h == Header(r) { PartsOfHeader(r); }
  }

  lemma PartsMakeHeader(h: seq<byte>)
    requires |h| == HEADER
    ensures h == h[..8] + h[8..16] + h[16..24] + [h[24]] + h[25..29] + h[29..37] + h[37..39]
  {
  }

  lemma PartsOfHeader(r: Record)
    ensures var h := Header(r);
            && h[..8] == LE(r.outboxSeq, 8) && h[8..16] == LE(r.walSeq, 8) && h[16..24] == LE(Unsigned(r.timestamp), 8)
            && h[24] == r.topic && h[25..29] == LE(r.kafkaPartition, 4) && h[29..37] == LE(r.kafkaOffset, 8)
            && h[37..39] == LE(|r.key| % 0x1_0000, 2)
  {
  }

  lemma HeaderSlices(body: seq<byte>)
    requires |body| >= MIN_BODY
    ensures var h := body[..HEADER];
            && h[..8] == body[..8] && h[8..16] == body[8..16] && h[16..24] == body[16..24] && h[24] == body[24]
            && h[25..29] == body[25..29] && h[29..37] == body[29..37] && h[37..39] == body[37..39]
  {
  }

  // What a successful decode says about the parts of a body.
  lemma DecodedParts(crc: Crc, body: seq<byte>, r: Record)
    requires |body| >= MIN_BODY && Decoded(crc, body) == Ok(r)
    ensures var n, k := |body| - 4, HEADER + |r.key|;
            && k <= n && |r.key| < 0x1_0000 && HeaderFields(body[..HEADER], r)
            && body[HEADER..k] == r.key && body[k..n] == r.payload && U32(body[n..]) == crc(body[..n])
  {
    HeaderSlices(body);
  }

  lemma AcceptedIsEncoded(crc: Crc, body: seq<byte>, r: Record)
    requires |body| >= MIN_BODY && Decoded(crc, body) == Ok(r)
    ensures body == Body(crc, r) && |r.key| < 0x1_0000
  {
    var n := |body| - 4;
    DecodedParts(crc, body, r);
    HeaderExactly(body[..HEADER], r);
    U32Inverse(body[n..], crc(body[..n]));
    PartsMakeBody(body, HEADER + |r.key|);
    assert body[..n] == Content(r);
  }

  lemma PartsMakeBody(body: seq<byte>, k: nat)
    requires HEADER <= k <= |body| - 4
    ensures var n := |body| - 4;
            body[..n] == body[..HEADER] + body[HEADER..k] + body[k..n] && body == body[..n] + body[n..]
  {
  }

  lemma EncodedIsAccepted(crc: Crc, r: Record)
    requires |r.key| < 0x1_0000
    ensures Decoded(crc, Body(crc, r)) == Ok(r)
  {
    var body, n, k := Body(crc, r), BodyLen(r) - 4, HEADER + |r.key|;
    HeaderSlices(body);
    assert body[..HEADER] == Header(r) && body[HEADER..k] == r.key && body[k..n] == r.payload;
    assert body[..n] == Content(r) && body[n..] == LE(crc(Content(r)), 4);
    HeaderExactly(body[..HEADER], r);
    U32Inverse(body[n..], crc(body[..n]));
  }

  // A record is readable from the outbox exactly when it fits and its key has a two-byte length.
  lemma WritableExactly(crc: Crc, r: Record)
    ensures Writable(OutboxFormat(crc), r) <==> BodyLen(r) <= MAX_BODY && |r.key| < 0x1_0000
  {
    DecodedExactly(crc, Body(crc, r), r);
  }

  lemma RoundTrip(crc: Crc, r: Record, rest: seq<byte>)
    requires BodyLen(r) <= MAX_BODY
    ensures DecodeFrame(OutboxFormat(crc), Frame(OutboxFormat(crc), r) + rest) == Ok(r) <==> |r.key| < 0x1_0000
  {
    DecodedExactly(crc, Body(crc, r), r);
    var s, n := Frame(OutboxFormat(crc), r) + rest, BodyLen(r);
    assert s[..4] == LE(n, 4);
    U32Inverse(s[..4], n);
    assert s[4..4 + n] == Body(crc, r);
  }

  // A buffer decodes to a record with a short key exactly when it starts with the frame of the record.
  lemma FramedExactly(crc: Crc, frame: seq<byte>, r: Record)
    requires |r.key| < 0x1_0000
    ensures DecodeFrame(OutboxFormat(crc), frame) == Ok(r) <==>
            BodyLen(r) <= MAX_BODY && Frame(OutboxFormat(crc), r) <= frame
  {
    forall b ensures Decoded(crc, b) == Ok(r) <==> b == Body(crc, r) { DecodedExactly(crc, b, r); }
    DecodesExactly(OutboxFormat(crc), frame, r);
  }

  lemma HighBytes()
    ensures LE(0xFFFF_0000_0000, 8)[4] == 255 && LE(0xFFFF_0000_0000, 8)[5] == 255
  {
    assert LE(0xFFFF_0000_0000, 8)[1..] == LE(0xFFFF_00_0000, 7);
    assert LE(0xFFFF_00_0000, 7)[1..] == LE(0xFFFF_0000, 6);
    assert LE(0xFFFF_0000, 6)[1..] == LE(0xFFFF_00, 5);
    assert LE(0xFFFF_00, 5)[1..] == LE(0xFFFF, 4);
    assert LE(0xFFFF, 4)[1..] == LE(0xFF, 3);
  }

  lemma InFront(a: seq<byte>, h: seq<byte>, k: seq<byte>, p: seq<byte>, c: seq<byte>)
    ensures a + (h + k + p + c) == a + h + (k + p + c)
  {
  }

  lemma Inside(a: seq<byte>, h: seq<byte>, rest: seq<byte>, i: nat, j: nat)
    requires i <= j <= |h|
    ensures (a + h + rest)[|a| + i..|a| + j] == h[i..j]
  {
  }

  lemma OffsetInFrame(crc: Crc, r: Record)
    ensures |Frame(OutboxFormat(crc), r)| == 4 + BodyLen(r)
    ensures Frame(OutboxFormat(crc), r)[33..41] == LE(r.kafkaOffset, 8)
  {
    var length, sum := LE(BodyLen(r), 4), LE(crc(Content(r)), 4);
    PartsOfHeader(r);
    InFront(length, Header(r), r.key, r.payload, sum);
    Inside(length, Header(r), r.key + r.payload + sum, 29, 37);
  }

  lemma LongKey(crc: Crc, body: seq<byte>)
    requires MIN_BODY <= |body| <= MIN_BODY + 4 && body[37] == 255 && body[38] == 255
    ensures Decoded(crc, body).Err?
  {
    var key := body[37..39];
    assert key == [255, 255];
    assert FromLE(key) == 255 + 256 * FromLE(key[1..]) && FromLE(key[1..]) == 255 + 256 * FromLE(key[1..][1..]);
  }

  // A record whose offset stands where the length of a lost body's key is read.
  lemma HiddenSmall(crc: Crc, n: nat) returns (r: Record)
    requires MIN_BODY <= n <= MIN_BODY + 4
    ensures Writable(OutboxFormat(crc), r) && 4 + BodyLen(r) >= n
    ensures Decoded(crc, Frame(OutboxFormat(crc), r)[..n]).Err?
  {
    r := Record(0, 0, 0, TOPIC_MATCH, 0, 0xFFFF_0000_0000, [], [0, 0, 0, 0]);
    WritableExactly(crc, r);
    OffsetInFrame(crc, r);
    HighBytes();
    var frame := Frame(OutboxFormat(crc), r);
    assert frame[37] == frame[33..41][4] && frame[38] == frame[33..41][5];
    LongKey(crc, frame[..n]);
  }

  // Behind a length prefix whose body was lost some record is not read.
  lemma SomeRecordIsHidden(crc: Crc, lost: Record) returns (r: Record)
    requires Writable(OutboxFormat(crc), lost)
    ensures Exposes(OutboxFormat(crc), lost, r)
  {
    if BodyLen(lost) > MIN_BODY + 4 {
      r := Record(0, 0, 0, TOPIC_MATCH, 0, 0, [], []);
      WritableExactly(crc, r);
    } else {
      r := HiddenSmall(crc, BodyLen(lost));
    }
  }
}
