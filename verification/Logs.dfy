// The two logs of the matching engine: their records in the common segmented log.
module Logs {
  import opened Bytes
  import opened Framing
  import opened SegmentedLog
  import opened LogRuns
  import opened Wrappers
  import Wal = WalRecord
  import Outbox = OutboxRecord
  import Recovery

  function WalCodec(crc: Crc): Codec<Wal.Record> {
    Codec(Wal.WalFormat(crc), (r: Wal.Record) => r.seqId, (r: Wal.Record, n: u64) => r.(seqId := n))
  }

  function OutboxCodec(crc: Crc): Codec<Outbox.Record> {
    Codec(Outbox.OutboxFormat(crc), (r: Outbox.Record) => r.outboxSeq, (r: Outbox.Record, n: u64) => r.(outboxSeq := n))
  }

  lemma BothAreNumbering(wal: Crc, outbox: Crc)
    ensures Numbering(WalCodec(wal)) && Numbering(OutboxCodec(outbox))
  {
  }

  // Every command that is small enough to be appended to the write-ahead log can be read back.
  lemma WalAcceptsAll(crc: Crc, w: FileWriter<Wal.Record>, r: Wal.Record)
    requires w.codec == WalCodec(crc)
    ensures w.Faithful(r)
  {
    Wal.WritableExactly(crc, r);
  }

  // An event can be read back from the outbox only if its key is shorter than 65536 bytes.
  lemma OutboxAcceptsShortKeys(crc: Crc, w: FileWriter<Outbox.Record>, r: Outbox.Record)
    requires w.codec == OutboxCodec(crc) && Outbox.BodyLen(r) <= MAX_BODY
    ensures w.Faithful(r) <==> |r.key| < 0x1_0000
  {
    Outbox.WritableExactly(crc, r);
  }

  lemma WalIsExposing(crc: Crc)
    ensures Exposing(Wal.WalFormat(crc))
  {
    var f := Wal.WalFormat(crc);
    forall lost: Wal.Record {:trigger Exposed(f, lost)} | Writable(f, lost) ensures Exposed(f, lost) {
      var r := Wal.SomeRecordIsHidden(crc, lost);
    }
  }

  lemma OutboxIsExposing(crc: Crc)
    ensures Exposing(Outbox.OutboxFormat(crc))
  {
    var f := Outbox.OutboxFormat(crc);
    forall lost: Outbox.Record {:trigger Exposed(f, lost)} | Writable(f, lost) ensures Exposed(f, lost) {
      var r := Outbox.SomeRecordIsHidden(crc, lost);
    }
  }

  lemma WalIsLegible(crc: Crc, steps: seq<Step<Wal.Record>>)
    ensures AllLegible(WalCodec(crc), steps)
  {
    var c := WalCodec(crc);
    forall i | 0 <= i < |steps| && steps[i].Append? ensures Legible(c, steps[i].r) {
      forall n: u64 {:trigger c.withSeq(steps[i].r, n)} | |c.format.body(c.withSeq(steps[i].r, n))| <= MAX_BODY
        ensures Writable(c.format, c.withSeq(steps[i].r, n))
      {
        Wal.WritableExactly(crc, c.withSeq(steps[i].r, n));
      }
    }
  }

  // Over every run of appends, syncs, rotations, crashes at any byte and reopenings, the write-ahead
  // log works at every point exactly when no crash makes one of the two bad cuts.
  lemma WalWorksExactlyWhen(crc: Crc, group: bool, steps: seq<Step<Wal.Record>>)
    requires IsRun(WalCodec(crc), group, steps)
    ensures AlwaysWorks(WalCodec(crc), group, steps) <==> NeverCutBadly(WalCodec(crc), group, steps)
  {
    BothAreNumbering(crc, crc);
    WalIsExposing(crc);
    WalIsLegible(crc, steps);
    WorksExactlyWhen(WalCodec(crc), group, steps);
  }

  // The same of the event outbox, for keys that fit.
  lemma OutboxWorksExactlyWhen(crc: Crc, group: bool, steps: seq<Step<Outbox.Record>>)
    requires IsRun(OutboxCodec(crc), group, steps)
    requires forall i :: 0 <= i < |steps| && steps[i].Append? ==> |steps[i].r.key| < 0x1_0000
    ensures AlwaysWorks(OutboxCodec(crc), group, steps) <==> NeverCutBadly(OutboxCodec(crc), group, steps)
  {
    var c := OutboxCodec(crc);
    BothAreNumbering(crc, crc);
    OutboxIsExposing(crc);
    forall i | 0 <= i < |steps| && steps[i].Append? ensures Legible(c, steps[i].r) {
      forall n: u64 {:trigger c.withSeq(steps[i].r, n)} | |c.format.body(c.withSeq(steps[i].r, n))| <= MAX_BODY
        ensures Writable(c.format, c.withSeq(steps[i].r, n))
      {
        Outbox.WritableExactly(crc, c.withSeq(steps[i].r, n));
      }
    }
    WorksExactlyWhen(c, group, steps);
  }

  // From the append to the reader: over every such run, what is on disk reads back as the records in
  // order, from any number on.
  lemma WalReadsBackAfterRun(crc: Crc, group: bool, steps: seq<Step<Wal.Record>>, from: nat)
    requires IsRun(WalCodec(crc), group, steps) && NeverCutBadly(WalCodec(crc), group, steps)
    ensures var c := WalCodec(crc);
            var st := After(c, group, steps);
            var rs, scan := All(st.segments), ReadSegments(c.format, OnDisk(c.format, st));
            && Numbered(c, rs) && scan.error == (if st.isOpen then None else Some(Torn))
            && Newer(c, scan.records, from) == if from <= |rs| then rs[from..] else []
  {
    BothAreNumbering(crc, crc);
    WalIsExposing(crc);
    WalIsLegible(crc, steps);
    ReadsBackAfterRun(WalCodec(crc), group, steps);
    ReadFromAfterRun(WalCodec(crc), group, steps, from);
  }

  // A write-ahead log that a crash has cut can be appended to, and read behind the cut, exactly
  // when the cut is between two records.
  lemma WalGoesOnExactlyWhen(crc: Crc, rs: seq<Wal.Record>, n: nat, k: nat)
    requires var f := Wal.WalFormat(crc); AllWritable(f, rs) && n <= |Frames(f, rs)| && CutAt(f, rs, n, k)
    ensures var f := Wal.WalFormat(crc);
            GoesOn(f, Frames(f, rs)[..n], rs[..k]) <==> n == |Frames(f, rs[..k])|
  {
    var probe := Wal.Record(0, 0, 0, []);
    if k < |rs| { probe := Wal.SomeRecordIsHidden(crc, rs[k]); }
    GoesOnExactlyWhen(Wal.WalFormat(crc), rs, n, k, probe);
  }

  // The same of the event outbox.
  lemma OutboxGoesOnExactlyWhen(crc: Crc, rs: seq<Outbox.Record>, n: nat, k: nat)
    requires var f := Outbox.OutboxFormat(crc); AllWritable(f, rs) && n <= |Frames(f, rs)| && CutAt(f, rs, n, k)
    ensures var f := Outbox.OutboxFormat(crc);
            GoesOn(f, Frames(f, rs)[..n], rs[..k]) <==> n == |Frames(f, rs[..k])|
  {
    var probe := Outbox.Record(0, 0, 0, 0, 0, 0, [], []);
    if k < |rs| { probe := Outbox.SomeRecordIsHidden(crc, rs[k]); }
    GoesOnExactlyWhen(Outbox.OutboxFormat(crc), rs, n, k, probe);
  }

  // The log as recovery sees it, given how payloads decode.
  function Entries(rs: seq<Wal.Record>, decode: Wal.Record -> Recovery.Payload): seq<Recovery.Entry> {
    seq(|rs|, i requires 0 <= i < |rs| => Recovery.Entry(rs[i].seqId, decode(rs[i])))
  }

  // What the reader yields behind a snapshot is the tail that recovery replays.
  lemma ReplayReadsTail(crc: Crc, group: bool, steps: seq<Step<Wal.Record>>, from: nat,
                        decode: Wal.Record -> Recovery.Payload)
    requires IsRun(WalCodec(crc), group, steps) && NeverCutBadly(WalCodec(crc), group, steps)
    ensures var rs := All(After(WalCodec(crc), group, steps).segments);
            && Recovery.Numbered(Entries(rs, decode))
            && Entries(Newer(WalCodec(crc), rs, from), decode) == Recovery.Tail(Entries(rs, decode), from)
  {
    BothAreNumbering(crc, crc);
    WalIsExposing(crc);
    WalIsLegible(crc, steps);
    var c := WalCodec(crc);
    var rs := All(After(c, group, steps).segments);
    ReadFromAfterRun(c, group, steps, from);
    EntriesAreNumbered(crc, rs, decode);
    EntriesOfTail(rs, from, decode);
  }

  lemma EntriesAreNumbered(crc: Crc, rs: seq<Wal.Record>, decode: Wal.Record -> Recovery.Payload)
    requires Numbered(WalCodec(crc), rs)
    ensures Recovery.Numbered(Entries(rs, decode))
  {
  }

  lemma EntriesOfTail(rs: seq<Wal.Record>, from: nat, decode: Wal.Record -> Recovery.Payload)
    ensures Entries(if from <= |rs| then rs[from..] else [], decode) == Recovery.Tail(Entries(rs, decode), from)
  {
  }
}
