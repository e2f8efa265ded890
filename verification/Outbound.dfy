// What one command sends out is appended to the event outbox: its match events, then its trades.
module Outbound {
  import opened Bytes
  import opened Framing
  import opened SegmentedLog
  import opened Wrappers
  import opened Outbox = OutboxRecord
  import Logs

  // An event as it is stored: its place in the write-ahead log, its symbol and its encoding.
  datatype Event = Event(walSeq: u64, key: seq<byte>, payload: seq<byte>)

  datatype CommandMeta = CommandMeta(partition: u32, offset: u64)

  function RecordOf(topic: byte, meta: CommandMeta, e: Event, now: i64): Record {
    Record(0, e.walSeq, now, topic, meta.partition, meta.offset, e.key, e.payload)
  }

  // The records of some events of one topic; the i-th is built at clock(first + i).
  function TopicRecords(topic: byte, meta: CommandMeta, es: seq<Event>, clock: nat -> i64, first: nat): seq<Record> {
    seq(|es|, i requires 0 <= i < |es| => RecordOf(topic, meta, es[i], clock(first + i)))
  }

  // The records of one command before they are numbered.
  function Records(meta: CommandMeta, matches: seq<Event>, trades: seq<Event>, clock: nat -> i64): seq<Record> {
    TopicRecords(TOPIC_MATCH, meta, matches, clock, 0) + TopicRecords(TOPIC_TRADE, meta, trades, clock, |matches|)
  }

  // Numbered behind from.
  function Stamped(rs: seq<Record>, from: u64): seq<Record>
    requires from + |rs| < 0x1_0000_0000_0000_0000
  {
    seq(|rs|, i requires 0 <= i < |rs| => rs[i].(outboxSeq := from + 1 + i))
  }

  ghost predicate ShortKeys(es: seq<Event>) { forall i :: 0 <= i < |es| ==> |es[i].key| < 0x1_0000 }

  // A marker: a proof that looks inside a writer asserts Opening(0).
  ghost predicate Opening(z: int) { true }

  ghost predicate IsOutbox(crc: Crc, w: FileWriter<Record>)
    reads w
  {
    forall z {:trigger Opening(z)} :: Opening(z) ==> w.codec == Logs.OutboxCodec(crc) && w.Valid()
  }

  ghost predicate Ready(crc: Crc, w: FileWriter<Record>, n: nat)
    reads w
  {
    IsOutbox(crc, w) && w.lastSeq + n < 0x1_0000_0000_0000_0000
  }

  // The record's number is 64 bits wide, and so it was counted without overflow.
  ghost predicate LogIs(w: FileWriter<Record>, before: seq<Record>, rs: seq<Record>, from: u64)
    reads w
  {
    && from + |rs| < 0x1_0000_0000_0000_0000 && w.lastSeq == from + |rs|
    && All(w.log) == before + Stamped(rs, from)
  }

  // One record more, or an error; the record may be in the log all the same.
  method AppendOne(crc: Crc, w: FileWriter<Record>, r: Record, syncOk: bool, closeOk: bool)
      returns (err: Option<AppendError>, ghost inLog: bool)
    requires Ready(crc, w, 1)
    modifies w
    ensures Ready(crc, w, 0) && (err == None ==> inLog)
    ensures old(w.Orderly()) && |r.key| < 0x1_0000 ==> w.Orderly()
    ensures inLog ==> w.lastSeq == old(w.lastSeq) + 1
                      && All(w.log) == All(old(w.log)) + [r.(outboxSeq := old(w.lastSeq) + 1)]
    ensures !inLog ==> w.lastSeq == old(w.lastSeq) && All(w.log) == All(old(w.log))
  {
    Opens(crc, w, r);
    err, inLog := AppendAs(w, r, r.(outboxSeq := w.lastSeq + 1), syncOk, closeOk);
    Closes(crc, w);
  }

  ghost predicate IsCodec(crc: Crc, c: Codec<Record>) {
    forall z {:trigger Opening(z)} :: Opening(z) ==> c == Logs.OutboxCodec(crc)
  }

  lemma Opens(crc: Crc, w: FileWriter<Record>, r: Record)
    requires Ready(crc, w, 1)
    ensures w.Valid() && IsCodec(crc, w.codec)
    ensures w.codec.withSeq(r, Successor(w.lastSeq)) == r.(outboxSeq := w.lastSeq + 1)
    ensures |r.key| < 0x1_0000 ==> w.Faithful(r.(outboxSeq := w.lastSeq + 1))
  {
    assert Opening(0);
    NumberedNext(crc, w, r);
  }

  lemma Closes(crc: Crc, w: FileWriter<Record>)
    requires w.Valid() && IsCodec(crc, w.codec)
    ensures IsOutbox(crc, w)
  {
  }

  // The record goes in as rec, which is what numbering makes of it.
  method AppendAs(w: FileWriter<Record>, r: Record, ghost rec: Record, syncOk: bool, closeOk: bool)
      returns (err: Option<AppendError>, ghost inLog: bool)
    requires w.Valid() && w.lastSeq + 1 < 0x1_0000_0000_0000_0000
    requires w.codec.withSeq(r, Successor(w.lastSeq)) == rec
    modifies w
    ensures w.Valid() && (err == None ==> inLog)
    ensures old(w.Orderly() && w.Faithful(rec)) ==> w.Orderly()
    ensures inLog ==> w.lastSeq == old(w.lastSeq) + 1 && All(w.log) == All(old(w.log)) + [rec]
    ensures !inLog ==> w.lastSeq == old(w.lastSeq) && All(w.log) == All(old(w.log))
  {
    var number;
    number, err := w.AppendNext(r, syncOk, closeOk);
    inLog := !Refused(err);
  }

  lemma NumberedNext(crc: Crc, w: FileWriter<Record>, r: Record)
    requires w.codec == Logs.OutboxCodec(crc) && w.lastSeq + 1 < 0x1_0000_0000_0000_0000
    ensures w.codec.withSeq(r, Successor(w.lastSeq)) == r.(outboxSeq := w.lastSeq + 1)
    ensures |r.key| < 0x1_0000 ==> w.Faithful(w.codec.withSeq(r, Successor(w.lastSeq)))
  {
    WritableExactly(crc, r.(outboxSeq := w.lastSeq + 1));
  }

  // The events of one topic; k of them have reached the log, all unless an append fails.
  method AppendTopic(crc: Crc, w: FileWriter<Record>, topic: byte, meta: CommandMeta, es: seq<Event>, clock: nat -> i64,
                     first: nat, syncOk: nat -> bool, closeOk: nat -> bool)
      returns (err: Option<AppendError>, ghost k: nat)
    requires Ready(crc, w, |es|)
    modifies w
    ensures old(w.Orderly()) && ShortKeys(es) ==> w.Orderly()
    ensures Ready(crc, w, 0) && k <= |es| && (err == None ==> k == |es|)
    ensures LogIs(w, All(old(w.log)), TopicRecords(topic, meta, es, clock, first)[..k], old(w.lastSeq))
  {
    ghost var rs, from, before := TopicRecords(topic, meta, es, clock, first), w.lastSeq, All(w.log);
    k, err := 0, None;
    NothingYet(w, before, rs, from);
    for i := 0 to |es|
      invariant k == i && err == None && Ready(crc, w, |es| - i)
      invariant LogIs(w, before, rs[..i], from)
      invariant old(w.Orderly()) && ShortKeys(es) ==> w.Orderly()
    {
      ghost var inLog;
      ghost var soFar := All(w.log);
      err, inLog := AppendOne(crc, w, RecordOf(topic, meta, es[i], clock(first + i)), syncOk(first + i),
                              closeOk(first + i));
      if inLog {
        OneMore(soFar, before, rs, i, from, All(w.log));
        k := i + 1;
      }
      if err != None { return; }
    }
  }

  lemma NothingYet(w: FileWriter<Record>, before: seq<Record>, rs: seq<Record>, from: u64)
    requires All(w.log) == before && w.lastSeq == from
    ensures LogIs(w, before, rs[..0], from)
  {
  }

  lemma OneMore(soFar: seq<Record>, before: seq<Record>, rs: seq<Record>, i: nat, from: u64, now: seq<Record>)
    requires i < |rs| && from + i + 1 < 0x1_0000_0000_0000_0000
    requires soFar == before + Stamped(rs[..i], from) && now == soFar + [rs[i].(outboxSeq := from + i + 1)]
    ensures now == before + Stamped(rs[..i + 1], from)
  {
  }

  // First the match events of a command, then its trades.
  method AppendOutbound(crc: Crc, w: FileWriter<Record>, meta: CommandMeta, matches: seq<Event>, trades: seq<Event>,
                        clock: nat -> i64, syncOk: nat -> bool, closeOk: nat -> bool)
      returns (err: Option<AppendError>, ghost k: nat)
    requires Ready(crc, w, |matches| + |trades|)
    modifies w
    ensures old(w.Orderly()) && ShortKeys(matches) && ShortKeys(trades) ==> w.Orderly()
    ensures Ready(crc, w, 0) && k <= |matches| + |trades| && (err == None ==> k == |matches| + |trades|)
    ensures LogIs(w, All(old(w.log)), Records(meta, matches, trades, clock)[..k], old(w.lastSeq))
  {
    ghost var from, before := w.lastSeq, All(w.log);
    ghost var a := TopicRecords(TOPIC_MATCH, meta, matches, clock, 0);
    ghost var b := TopicRecords(TOPIC_TRADE, meta, trades, clock, |matches|);
    err, k := AppendTopic(crc, w, TOPIC_MATCH, meta, matches, clock, 0, syncOk, closeOk);
    if err != None {
      assert a[..k] == (a + b)[..k];
      return;
    }
    ghost var half := All(w.log);
    assert a[..k] == a;
    err, k := AppendTopic(crc, w, TOPIC_TRADE, meta, trades, clock, |matches|, syncOk, closeOk);
    BothTopics(before, half, All(w.log), a, b, k, from);
    k := |matches| + k;
  }

  lemma BothTopics(before: seq<Record>, half: seq<Record>, now: seq<Record>, a: seq<Record>, b: seq<Record>, k: nat,
                   from: u64)
    requires k <= |b| && from + |a| + k < 0x1_0000_0000_0000_0000
    requires half == before + Stamped(a, from) && now == half + Stamped(b[..k], from + |a|)
    ensures now == before + Stamped((a + b)[..|a| + k], from)
  {
  }

  // The i-th record of a command is numbered i + 1 behind what was there, and carries its event and the
  // offset of the command; match events go to topic 1, trades to topic 2.
  lemma RecordsCarry(meta: CommandMeta, matches: seq<Event>, trades: seq<Event>, clock: nat -> i64, from: u64, i: nat)
    requires from + |matches| + |trades| < 0x1_0000_0000_0000_0000 && i < |matches| + |trades|
    ensures var r := Stamped(Records(meta, matches, trades, clock), from)[i];
            var e := if i < |matches| then matches[i] else trades[i - |matches|];
            r == Record(from + 1 + i, e.walSeq, clock(i), if i < |matches| then 1 else 2, meta.partition, meta.offset,
                        e.key, e.payload)
  {
  }

  // ---- Each topic keeps the order of the commands ----

  // What the readers of one topic get to see.
  function Payloads(rs: seq<Record>, topic: byte): seq<seq<byte>> {
    if rs == [] then []
    else Payloads(rs[..|rs| - 1], topic) + if rs[|rs| - 1].topic == topic then [rs[|rs| - 1].payload] else []
  }

  lemma {:induction false} PayloadsAppend(a: seq<Record>, b: seq<Record>, topic: byte)
    ensures Payloads(a + b, topic) == Payloads(a, topic) + Payloads(b, topic)
  {
    if b == [] {
      assert a + b == a;
    } else {
      var n := |b| - 1;
      PayloadsAppend(a, b[..n], topic);
      assert (a + b)[..|a + b| - 1] == a + b[..n];
    }
  }

  lemma {:induction false} StampedPayloads(rs: seq<Record>, from: u64, topic: byte)
    requires from + |rs| < 0x1_0000_0000_0000_0000
    ensures Payloads(Stamped(rs, from), topic) == Payloads(rs, topic)
  {
    if rs != [] {
      var n := |rs| - 1;
      StampedPayloads(rs[..n], from, topic);
      assert Stamped(rs, from)[..n] == Stamped(rs[..n], from);
    }
  }

  function Encodings(es: seq<Event>): seq<seq<byte>> {
    seq(|es|, i requires 0 <= i < |es| => es[i].payload)
  }

  lemma {:induction false} OneTopic(rs: seq<Record>, es: seq<Event>, topic: byte, other: byte)
    requires |rs| == |es| && forall i :: 0 <= i < |rs| ==> rs[i].topic == topic && rs[i].payload == es[i].payload
    ensures Payloads(rs, topic) == Encodings(es)
    ensures other != topic ==> Payloads(rs, other) == []
  {
    if rs != [] {
      var n := |rs| - 1;
      OneTopic(rs[..n], es[..n], topic, other);
      assert Encodings(es) == Encodings(es[..n]) + [es[n].payload];
    }
  }

  // A command adds its match events to the one topic and its trades to the other, in their order.
  lemma TopicsGrow(before: seq<Record>, meta: CommandMeta, matches: seq<Event>, trades: seq<Event>, clock: nat -> i64,
                   from: u64)
    requires from + |matches| + |trades| < 0x1_0000_0000_0000_0000
    ensures var log := before + Stamped(Records(meta, matches, trades, clock), from);
            && Payloads(log, TOPIC_MATCH) == Payloads(before, TOPIC_MATCH) + Encodings(matches)
            && Payloads(log, TOPIC_TRADE) == Payloads(before, TOPIC_TRADE) + Encodings(trades)
  {
    var rs := Records(meta, matches, trades, clock);
    var a := TopicRecords(TOPIC_MATCH, meta, matches, clock, 0);
    var b := TopicRecords(TOPIC_TRADE, meta, trades, clock, |matches|);
    OneTopic(a, matches, TOPIC_MATCH, TOPIC_TRADE);
    OneTopic(b, trades, TOPIC_TRADE, TOPIC_MATCH);
    PayloadsAppend(a, b, TOPIC_MATCH);
    PayloadsAppend(a, b, TOPIC_TRADE);
    StampedPayloads(rs, from, TOPIC_MATCH);
    StampedPayloads(rs, from, TOPIC_TRADE);
    PayloadsAppend(before, Stamped(rs, from), TOPIC_MATCH);
    PayloadsAppend(before, Stamped(rs, from), TOPIC_TRADE);
    assert [] + Encodings(trades) == Encodings(trades) && Encodings(matches) + [] == Encodings(matches);
  }
}
