// The append-only log in numbered segment files, as both the write-ahead log and the event outbox
// keep it: a writer with group commit and rotation, and a reader over all segments.
module SegmentedLog {
  import opened Bytes
  import opened Framing
  import opened Sorting
  import opened Wrappers

  // A record format whose records carry a sequence number.
  datatype Codec<!R> = Codec(format: Format<R>, seqOf: R -> u64, withSeq: (R, u64) -> R)

  ghost predicate Numbering<R(!new)>(c: Codec<R>) {
    forall r: R, n: u64 :: c.seqOf(c.withSeq(r, n)) == n
  }

  // What has been appended, per segment, and how much of the newest segment is on disk for sure.
  // Older segments are synced before the next one is opened.
  datatype Segments<R> = Segments(older: seq<seq<R>>, current: seq<R>, synced: nat)

  function Flat<R>(ss: seq<seq<R>>): seq<R> {
    if ss == [] then [] else Flat(ss[..|ss| - 1]) + ss[|ss| - 1]
  }

  function All<R>(s: Segments<R>): seq<R> { Flat(s.older) + s.current }

  function Durable<R>(s: Segments<R>): seq<R>
    requires s.synced <= |s.current|
  {
    Flat(s.older) + s.current[..s.synced]
  }

  // Sequence numbers start above zero; zero stands for no record.
  function LastSeq<R>(c: Codec<R>, rs: seq<R>): u64 {
    if rs == [] then 0 else c.seqOf(rs[|rs| - 1])
  }

  ghost predicate Increasing<R>(c: Codec<R>, rs: seq<R>) {
    && (forall i :: 0 <= i < |rs| ==> c.seqOf(rs[i]) > 0)
    && (forall i, j :: 0 <= i < j < |rs| ==> c.seqOf(rs[i]) < c.seqOf(rs[j]))
  }

  function Synced<R>(s: Segments<R>): Segments<R> { s.(synced := |s.current|) }

  function Rotated<R>(s: Segments<R>): Segments<R> { Segments(s.older + [s.current], [], 0) }

  // One append.  Without group commit it syncs at once; a full segment is synced and closed.
  // Either sync can fail, and then the record is in the log but the call reports an error.
  function Appended<R>(s: Segments<R>, r: R, group: bool, full: bool, syncOk: bool, closeOk: bool):
    (Segments<R>, bool)
  {
    var s1 := s.(current := s.current + [r]);
    if !group && !syncOk then (s1, false)
    else
      var s2 := if group then s1 else Synced(s1);
      if !full then (s2, true) else if closeOk then (Rotated(Synced(s2)), true) else (s2, false)
  }

  function Files<R>(f: Format<R>, s: Segments<R>): seq<seq<byte>> {
    seq(|s.older|, i requires 0 <= i < |s.older| => Frames(f, s.older[i])) + [Frames(f, s.current)]
  }

  ghost predicate Readable<R>(f: Format<R>, s: Segments<R>) {
    AllWritable(f, s.current) && (forall i :: 0 <= i < |s.older| ==> AllWritable(f, s.older[i]))
  }

  function Successor(n: u64): u64 { (n + 1) % 0x1_0000_0000_0000_0000 }

  datatype AppendError = Closed | NonMonotonic | TooLarge | SyncFailed

  function Opened(onDisk: seq<seq<byte>>): (files: seq<seq<byte>>)
    ensures |files| > 0
  {
    if onDisk == [] then [[]] else onDisk
  }

  // The files are whole, and the newest is not empty behind older records.
  ghost predicate Restorable<R(!new)>(c: Codec<R>, files: seq<seq<byte>>, s: Segments<R>) {
    && Numbering(c) && s.synced == |s.current|
    && files == Files(c.format, s) && Readable(c.format, s) && Increasing(c, All(s))
    && (s.current != [] || Flat(s.older) == [])
  }

  // Scanning only the newest segment finds the last number exactly when that segment has a
  // record or no segment has one.
  lemma ReopenExactly<R>(c: Codec<R>, s: Segments<R>)
    requires Increasing(c, All(s))
    ensures LastSeq(c, s.current) == LastSeq(c, All(s)) <==> s.current != [] || Flat(s.older) == []
  {
  }

  method ScanLastSeq<R>(c: Codec<R>, data: seq<byte>) returns (last: Option<u64>)
    requires c.format.minBody > 0
    ensures var scan := ScanAll(c.format, data);
            last == if scan.error.Some? then None else Some(LastSeq(c, scan.records))
  {
    var reader := new ByteReader(data);
    var n: u64 := 0;
    ghost var done: seq<R> := [];
    ghost var all := ScanAll(c.format, data);
    var more := true;
    while more
      invariant reader.Valid() && n == LastSeq(c, done)
      invariant more ==> done + ScanAll(c.format, reader.Rest()).records == all.records
      invariant more ==> ScanAll(c.format, reader.Rest()).error == all.error
      invariant !more ==> done == all.records && all.error == None
      decreases more, |reader.Rest()|
    {
      ghost var left := ScanAll(c.format, reader.Rest()).records;
      var rec := ReadScanned(c.format, reader);
      match rec {
        case EndOfFile => more := false;
        case Failure(e) => return None;
        case Found(r) =>
          Associative(done, [r], ScanAll(c.format, reader.Rest()).records);
          n, done := c.seqOf(r), done + [r];
      }
    }
    last := Some(n);
  }

  // One record, seen as the first of those still to be scanned.
  method ReadScanned<R>(f: Format<R>, reader: ByteReader) returns (rec: Read<R>)
    requires reader.Valid() && f.minBody > 0
    modifies reader
    ensures reader.Valid()
    ensures var was := old(ScanAll(f, reader.Rest()));
            match rec
            case Found(r) => was == Scan([r] + ScanAll(f, reader.Rest()).records, ScanAll(f, reader.Rest()).error)
                             && |reader.Rest()| < |old(reader.Rest())|
            case EndOfFile => was == Scan([], None)
            case Failure(e) => was == Scan([], Some(e))
  {
    rec := ReadRecord(f, reader);
  }

  // The record did not get into the log.
  predicate Refused(err: Option<AppendError>) { err.Some? && err.value != SyncFailed }

  class FileWriter<R(!new)> {
    const codec: Codec<R>
    const group: bool
    const maxBytes: nat
    var files: seq<seq<byte>>
    var segment: nat
    var lastSeq: u64
    var lastDurableSeq: u64
    var written: nat
    var recordsSinceSync: nat
    var closed: bool
    ghost var log: Segments<R>

    ghost predicate Valid()
      reads this
    {
      && Numbering(codec)
      && log.synced <= |log.current|
      && files == Files(codec.format, log) && segment == |log.older| + 1
      && written == |Frames(codec.format, log.current)|
      && lastSeq == LastSeq(codec, All(log)) && lastDurableSeq == LastSeq(codec, Durable(log))
      && recordsSinceSync == |log.current| - log.synced
    }

    // Everything in the log reads back, under increasing numbers.
    ghost predicate Orderly()
      reads this
    {
      Readable(codec.format, log) && Increasing(codec, All(log))
    }

    // The writer over an existing log, or over an empty directory when there are no files.
    constructor (codec: Codec<R>, group: bool, maxBytes: nat, files: seq<seq<byte>>, lastSeq: u64,
                 ghost log: Segments<R>)
      requires |files| > 0
      ensures this.codec == codec && this.group == group && this.maxBytes == maxBytes
      ensures this.files == files && segment == |files| && written == |files[|files| - 1]|
      ensures this.lastSeq == lastSeq == lastDurableSeq && recordsSinceSync == 0 && !closed && this.log == log
    {
      this.codec, this.group, this.maxBytes := codec, group, maxBytes;
      this.files, segment, written := files, |files|, |files[|files| - 1]|;
      this.lastSeq, lastDurableSeq, recordsSinceSync, closed := lastSeq, lastSeq, 0, false;
      this.log := log;
    }

    // Opens the newest segment, or a first one, and takes the last number found in it.
    static method Open(codec: Codec<R>, group: bool, maxBytes: nat, onDisk: seq<seq<byte>>, ghost log: Segments<R>)
        returns (w: Option<FileWriter<R>>)
      requires codec.format.minBody > 0
      ensures var files := Opened(onDisk);
              var scan := ScanAll(codec.format, files[|files| - 1]);
              && (w == None <==> scan.error.Some?)
              && (w.Some? ==> fresh(w.value) && w.value.files == files
                              && w.value.lastSeq == LastSeq(codec, scan.records)
                              && !w.value.closed && w.value.codec == codec && w.value.group == group)
      ensures w.Some? && Restorable(codec, Opened(onDisk), log) ==>
                w.value.Valid() && w.value.Orderly() && w.value.log == log
      ensures Restorable(codec, Opened(onDisk), log) ==> w.Some?
    {
      var files := Opened(onDisk);
      var last := ScanLastSeq(codec, files[|files| - 1]);
      if Restorable(codec, files, log) { WholeFile(codec.format, log.current); }
      if last == None { return None; }
      var writer := new FileWriter(codec, group, maxBytes, files, last.value, log);
      if Restorable(codec, files, log) { ReopenExactly(codec, log); }
      w := Some(writer);
    }

    method MaybeSync(force: bool, syncOk: bool) returns (ok: bool)
      requires Valid()
      modifies this
      ensures Valid() && closed == old(closed) && (old(Orderly()) ==> Orderly())
      ensures force ==> ok == syncOk && log == if syncOk then Synced(old(log)) else old(log)
      ensures !force && group ==> ok && log == old(log)
      ensures !force && !group && old(recordsSinceSync) > 0 ==>
                ok == syncOk && log == if syncOk then Synced(old(log)) else old(log)
    {
      if recordsSinceSync == 0 && !force { return true; }
      if !force && group { return true; }
      if !syncOk { return false; }
      log := Synced(log);
      assert Durable(log) == All(log);
      lastDurableSeq := lastSeq;
      recordsSinceSync := 0;
      ok := true;
    }

    method Sync(syncOk: bool) returns (ok: bool)
      requires Valid()
      modifies this
      ensures Valid() && ok == (syncOk && !closed) && closed == old(closed) && (old(Orderly()) ==> Orderly())
      ensures log == if ok then Synced(old(log)) else old(log)
      ensures ok ==> lastDurableSeq == lastSeq
    {
      if closed { return false; }
      ok := MaybeSync(true, syncOk);
      assert ok ==> Durable(log) == All(log);
    }

    method Rotate(syncOk: bool) returns (ok: bool)
      requires Valid()
      modifies this
      ensures Valid() && closed == old(closed) && (old(Orderly()) ==> Orderly())
      ensures ok == syncOk && log == if syncOk then Rotated(Synced(old(log))) else old(log)
    {
      ok := MaybeSync(true, syncOk);
      if !ok { return; }
      ghost var was := log;
      files := files + [[]];
      segment := segment + 1;
      written := 0;
      log := Rotated(log);
      RotatedIsSame(codec.format, was);
    }

    // A record that reads back whenever it is small enough to be written.
    ghost predicate Faithful(r: R) {
      |codec.format.body(r)| <= MAX_BODY ==> Writable(codec.format, r)
    }

    // The record goes into the buffer of the open segment.
    method Buffer(rec: R)
      requires Valid()
      modifies this
      ensures Valid() && closed == old(closed) && recordsSinceSync > 0
      ensures log == old(log).(current := old(log).current + [rec])
      ensures written == old(written) + |Frame(codec.format, rec)|
      ensures old(Orderly()) && Writable(codec.format, rec) && codec.seqOf(rec) > old(lastSeq) ==> Orderly()
    {
      AppendedIsSame(codec, log, rec);
      if codec.seqOf(rec) > lastSeq && Orderly() { IncreasingSnoc(codec, All(log), rec); }
      var frame := Frame(codec.format, rec);
      files := files[segment - 1 := files[segment - 1] + frame];
      log := log.(current := log.current + [rec]);
      lastSeq := codec.seqOf(rec);
      written := written + |frame|;
      recordsSinceSync := recordsSinceSync + 1;
    }

    // A first record may carry any number; from then on the numbers must grow.
    method AppendLocked(rec: R, syncOk: bool, closeOk: bool) returns (err: Option<AppendError>)
      requires Valid()
      modifies this
      ensures Valid() && closed == old(closed)
      ensures err == Some(Closed) <==> old(closed)
      ensures err == Some(NonMonotonic) <==> !old(closed) && old(lastSeq) != 0 && codec.seqOf(rec) <= old(lastSeq)
      ensures err == Some(TooLarge) <==>
                && !old(closed) && (old(lastSeq) == 0 || codec.seqOf(rec) > old(lastSeq))
                && |codec.format.body(rec)| > MAX_BODY
      ensures Refused(err) ==> log == old(log) && lastSeq == old(lastSeq)
      ensures !Refused(err) ==>
                var full := old(written) + |Frame(codec.format, rec)| >= maxBytes;
                && (log, err == None) == Appended(old(log), rec, group, full, syncOk, closeOk)
                && lastSeq == codec.seqOf(rec)
      ensures err == None && !group ==> Durable(log) == All(log)
      ensures old(Orderly()) && Faithful(rec) && codec.seqOf(rec) > 0 ==> Orderly()
    {
      if closed { return Some(Closed); }
      if lastSeq != 0 && codec.seqOf(rec) <= lastSeq { return Some(NonMonotonic); }
      if |codec.format.body(rec)| > MAX_BODY { return Some(TooLarge); }
      Buffer(rec);
      var ok := MaybeSync(false, syncOk);
      if !ok { return Some(SyncFailed); }
      if written >= maxBytes {
        ok := Rotate(closeOk);
        if !ok { return Some(SyncFailed); }
      }
      err := None;
    }

    // The next number; at the end of the 64-bit range it wraps to zero and is refused.
    method AppendNext(r: R, syncOk: bool, closeOk: bool) returns (res: Option<u64>, err: Option<AppendError>)
      requires Valid()
      modifies this
      ensures Valid() && closed == old(closed)
      ensures err == Some(NonMonotonic) <==> !old(closed) && Successor(old(lastSeq)) == 0
      ensures !Refused(err) ==>
                var rec := codec.withSeq(r, Successor(old(lastSeq)));
                var full := old(written) + |Frame(codec.format, rec)| >= maxBytes;
                (log, err == None) == Appended(old(log), rec, group, full, syncOk, closeOk)
      ensures !Refused(err) ==> All(log) == All(old(log)) + [codec.withSeq(r, Successor(old(lastSeq)))]
                                && lastSeq == Successor(old(lastSeq))
      ensures Refused(err) ==> log == old(log) && lastSeq == old(lastSeq)
      ensures res == if err == None then Some(Successor(old(lastSeq))) else None
      ensures old(Orderly()) && Faithful(codec.withSeq(r, Successor(old(lastSeq)))) ==> Orderly()
    {
      if closed { return None, Some(Closed); }
      var seqNo := Successor(lastSeq);
      ghost var was, rec := log, codec.withSeq(r, seqNo);
      ghost var full := written + |Frame(codec.format, rec)| >= maxBytes;
      err := AppendLocked(codec.withSeq(r, seqNo), syncOk, closeOk);
      if !Refused(err) {
        AppendKeepsOrder(was, rec, group, full, syncOk, closeOk);
        assert All(log)[|All(was)|] == rec;
      }
      res := if err == None then Some(seqNo) else None;
    }

    method Close(syncOk: bool) returns (ok: bool)
      requires Valid()
      modifies this
      ensures Valid() && closed && (old(Orderly()) ==> Orderly())
      ensures old(closed) ==> ok && log == old(log)
      ensures !old(closed) ==> ok == syncOk && log == if syncOk then Synced(old(log)) else old(log)
    {
      if closed { return true; }
      ok := MaybeSync(true, syncOk);
      closed := true;
    }
  }

  lemma IncreasingSnoc<R>(c: Codec<R>, rs: seq<R>, r: R)
    requires Increasing(c, rs) && c.seqOf(r) > LastSeq(c, rs)
    ensures Increasing(c, rs + [r])
  {
  }

  lemma FlatSnoc<R>(ss: seq<seq<R>>, s: seq<R>)
    ensures Flat(ss + [s]) == Flat(ss) + s
  {
  }

  lemma RotatedIsSame<R>(f: Format<R>, s: Segments<R>)
    ensures All(Rotated(s)) == All(s) == Durable(Rotated(s))
    ensures Files(f, Rotated(s)) == Files(f, s) + [[]]
    ensures Readable(f, s) ==> Readable(f, Rotated(s))
  {
  }

  lemma AppendedIsSame<R>(c: Codec<R>, s: Segments<R>, r: R)
    requires s.synced <= |s.current|
    ensures var s' := s.(current := s.current + [r]);
            && All(s') == All(s) + [r] && Durable(s') == Durable(s)
            && Frames(c.format, s'.current) == Frames(c.format, s.current) + Frame(c.format, r)
  {
    FramesSnoc(c.format, s.current, r);
    assert (s.current + [r])[..s.synced] == s.current[..s.synced];
  }

  // ---- Reading ----

  // What is read behind a: nothing if a ended with an error.
  function Behind<R>(a: Scan<R>, b: Scan<R>): Scan<R> {
    if a.error.Some? then a else Scan(a.records + b.records, b.error)
  }

  function ReadSegments<R>(f: Format<R>, files: seq<seq<byte>>): Scan<R> {
    if files == [] then Scan([], None) else Behind(ScanAll(f, files[0]), ReadSegments(f, files[1..]))
  }

  // The records with numbers above from.
  function Newer<R>(c: Codec<R>, rs: seq<R>, from: nat): seq<R> {
    if rs == [] then [] else (if c.seqOf(rs[0]) > from then [rs[0]] else []) + Newer(c, rs[1..], from)
  }

  class LogIterator<R> {
    const codec: Codec<R>
    const paths: seq<seq<byte>>
    const fromSeq: nat
    var pathIdx: nat
    var file: ByteReader?
    var record: Option<R>
    var err: Option<RecordError>
    ghost var Repr: set<object>

    ghost predicate Valid()
      reads this, file
    {
      && pathIdx <= |paths| && codec.format.minBody > 0
      && (file != null ==> file.Valid() && Repr == {this, file}) && (file == null ==> Repr == {this})
    }

    // What has not been read yet.
    ghost function Pending(): Scan<R>
      requires Valid()
      reads this, file
    {
      if err.Some? then Scan([], err)
      else if file == null then ReadSegments(codec.format, paths[pathIdx..])
      else Behind(ScanAll(codec.format, file.Rest()), ReadSegments(codec.format, paths[pathIdx..]))
    }

    constructor (codec: Codec<R>, paths: seq<seq<byte>>, fromSeq: nat)
      requires codec.format.minBody > 0
      ensures Valid() && fresh(Repr) && Pending() == ReadSegments(codec.format, paths)
      ensures this.codec == codec && this.fromSeq == fromSeq
    {
      this.codec, this.paths, this.fromSeq := codec, paths, fromSeq;
      pathIdx, file, record, err := 0, null, None, None;
      Repr := {this};
    }

    method OpenNextSegment() returns (ok: bool)
      requires Valid() && err == None && file == null
      modifies this
      ensures Valid() && fresh(Repr - old(Repr)) && err == None && Pending() == old(Pending())
      ensures ok <==> old(pathIdx) < |paths|
      ensures ok ==> file != null && pathIdx == old(pathIdx) + 1
      ensures !ok ==> Pending() == Scan([], None)
    {
      if pathIdx >= |paths| { return false; }
      assert paths[pathIdx..][0] == paths[pathIdx] && paths[pathIdx..][1..] == paths[pathIdx + 1..];
      file := new ByteReader(paths[pathIdx]);
      pathIdx := pathIdx + 1;
      Repr := {this, file};
      ok := true;
    }

    // One record of the open segment; at its end the segment is closed.
    method ReadOpen() returns (rec: Read<R>)
      requires Valid() && err == None && file != null
      modifies Repr
      ensures Valid() && fresh(Repr - old(Repr)) && pathIdx == old(pathIdx) && record == old(record)
      ensures match rec
              case Found(r) => old(Pending()) == Scan([r] + Pending().records, Pending().error) && err == None
                               && file == old(file) && |file.Rest()| < |old(file.Rest())|
              case EndOfFile => old(Pending()) == Pending() && err == None && file == null
              case Failure(e) => old(Pending()) == Scan([], Some(e)) && err == Some(e)
    {
      ghost var rest := ReadSegments(codec.format, paths[pathIdx..]);
      ghost var before := file.Rest();
      rec := ReadScanned(codec.format, file);
      match rec {
        case Found(r) =>
          BehindFirst(r, ScanAll(codec.format, file.Rest()), rest);
        case EndOfFile =>
          file, Repr := null, {this};
          BehindEnd(rest);
        case Failure(e) =>
          err := Some(e);
          file, Repr := null, {this};
      }
    }

    // The next record above fromSeq, across segments; false at the end or at the first error.
    method MoveNext() returns (ok: bool)
      requires Valid()
      modifies Repr
      ensures Valid() && fresh(Repr - old(Repr))
      ensures var p := old(Pending()); var news := Newer(codec, p.records, fromSeq);
              && (ok <==> news != [])
              && (ok ==> record == Some(news[0]) && Newer(codec, Pending().records, fromSeq) == news[1..]
                         && Pending().error == p.error && |Pending().records| < |p.records|)
              && (!ok ==> err == p.error)
    {
      if err.Some? { return false; }
      ghost var news, error := Newer(codec, Pending().records, fromSeq), Pending().error;
      ghost var size := |Pending().records|;
      while true
        invariant Valid() && fresh(Repr - old(Repr)) && err == None
        invariant Newer(codec, Pending().records, fromSeq) == news && Pending().error == error
        invariant |Pending().records| <= size
        decreases |paths| - pathIdx, if file == null then 0 else 1 + |file.Rest()|
      {
        if file == null {
          var more := OpenNextSegment();
          if !more { return false; }
        }
        var rec := ReadOpen();
        match rec {
          case EndOfFile =>
          case Failure(e) => return false;
          case Found(r) =>
            NewerFirst(codec, r, Pending().records, fromSeq);
            if codec.seqOf(r) > fromSeq {
              record := Some(r);
              return true;
            }
        }
      }
    }
  }

  lemma BehindFirst<R>(r: R, a: Scan<R>, b: Scan<R>)
    ensures Behind(Scan([r] + a.records, a.error), b) == Scan([r] + Behind(a, b).records, Behind(a, b).error)
  {
  }

  lemma BehindEnd<R>(b: Scan<R>)
    ensures Behind(Scan([], None), b) == b
  {
  }

  lemma NewerFirst<R>(c: Codec<R>, r: R, rs: seq<R>, from: nat)
    ensures Newer(c, [r] + rs, from) == if c.seqOf(r) > from then [r] + Newer(c, rs, from) else Newer(c, rs, from)
  {
  }

  lemma MoveFirst<R>(out: seq<R>, left: seq<R>)
    requires left != []
    ensures (out + [left[0]]) + left[1..] == out + left
  {
  }

  // All records above from, or nothing when some segment cannot be read.
  method ReadAll<R>(codec: Codec<R>, files: seq<seq<byte>>, from: nat) returns (res: Option<seq<R>>)
    requires codec.format.minBody > 0
    ensures var s := ReadSegments(codec.format, files);
            res == if s.error.Some? then None else Some(Newer(codec, s.records, from))
  {
    var it := new LogIterator(codec, files, from);
    ghost var all := ReadSegments(codec.format, files);
    ghost var news := Newer(codec, all.records, from);
    var out := [];
    var more := true;
    while more
      invariant it.Valid() && fresh(it.Repr) && it.codec == codec && it.fromSeq == from
      invariant more ==> out + Newer(codec, it.Pending().records, from) == news && it.Pending().error == all.error
      invariant !more ==> out == news && it.err == all.error
      decreases more, |it.Pending().records|
    {
      ghost var left := Newer(codec, it.Pending().records, from);
      more := it.MoveNext();
      if more {
        MoveFirst(out, left);
        out := out + [it.record.value];
      } else {
        assert out + left == out;
      }
    }
    res := if it.err.Some? then None else Some(out);
  }

  function Limited(limit: int): nat { if limit <= 0 then 256 else limit }

  // What a fetch of at most limit records above from yields: an unreadable segment matters only
  // when it comes before the limit is reached.
  function Fetched<R>(c: Codec<R>, files: seq<seq<byte>>, from: nat, limit: nat): Option<seq<R>> {
    var s := ReadSegments(c.format, files);
    var news := Newer(c, s.records, from);
    if |news| >= limit then Some(news[..limit]) else if s.error.Some? then None else Some(news)
  }

  method FetchUnpublished<R>(codec: Codec<R>, files: seq<seq<byte>>, from: nat, limit: int)
      returns (res: Option<seq<R>>)
    requires codec.format.minBody > 0
    ensures res == Fetched(codec, files, from, Limited(limit))
  {
    var it := new LogIterator(codec, files, from);
    ghost var all := ReadSegments(codec.format, files);
    ghost var news := Newer(codec, all.records, from);
    var n := Limited(limit);
    var out := [];
    while |out| < n
      invariant it.Valid() && fresh(it.Repr) && it.codec == codec && it.fromSeq == from
      invariant |out| <= n && out + Newer(codec, it.Pending().records, from) == news && it.Pending().error == all.error
      decreases n - |out|
    {
      ghost var left := Newer(codec, it.Pending().records, from);
      var more := it.MoveNext();
      if !more {
        assert out + left == out;
        return if it.err.Some? then None else Some(out);
      }
      MoveFirst(out, left);
      out := out + [it.record.value];
    }
    assert out == news[..n];
    res := Some(out);
  }

  // An intact log is read back completely and in order.
  lemma {:induction false} IntactLog<R>(f: Format<R>, ss: seq<seq<R>>)
    requires forall i :: 0 <= i < |ss| ==> AllWritable(f, ss[i])
    ensures ReadSegments(f, seq(|ss|, i requires 0 <= i < |ss| => Frames(f, ss[i]))) == Scan(Flat(ss), None)
  {
    var files := seq(|ss|, i requires 0 <= i < |ss| => Frames(f, ss[i]));
    if ss != [] {
      var rest := ss[1..];
      IntactLog(f, rest);
      assert files[1..] == seq(|rest|, i requires 0 <= i < |rest| => Frames(f, rest[i]));
      WholeFile(f, ss[0]);
      FlatFirst(ss);
    }
  }

  lemma {:induction false} FlatFirst<R>(ss: seq<seq<R>>)
    requires ss != []
    ensures Flat(ss) == ss[0] + Flat(ss[1..])
  {
    if |ss| == 1 {
      assert Flat(ss) == Flat(ss[..0]) + ss[0] && Flat(ss[1..]) == [];
    } else {
      var n := |ss| - 1;
      FlatFirst(ss[..n]);
      assert ss[..n][1..] == ss[1..][..n - 1] && ss[1..][n - 1] == ss[n];
      Associative(ss[0], Flat(ss[1..][..n - 1]), ss[n]);
    }
  }

  lemma ReadBack<R>(c: Codec<R>, s: Segments<R>)
    requires Readable(c.format, s)
    ensures ReadSegments(c.format, Files(c.format, s)) == Scan(All(s), None)
  {
    var ss := s.older + [s.current];
    IntactLog(c.format, ss);
    assert Files(c.format, s) == seq(|ss|, i requires 0 <= i < |ss| => Frames(c.format, ss[i]));
    FlatSnoc(s.older, s.current);
  }

  // In an increasing log the records above k are its end behind k.
  lemma {:induction false} NewerIsEnd<R>(c: Codec<R>, rs: seq<R>, from: nat, i: nat)
    requires i <= |rs| && (forall j :: 0 <= j < i ==> c.seqOf(rs[j]) <= from)
    requires forall j :: i <= j < |rs| ==> c.seqOf(rs[j]) > from
    ensures Newer(c, rs, from) == rs[i..]
  {
    if rs != [] {
      if i > 0 {
        NewerIsEnd(c, rs[1..], from, i - 1);
      } else {
        NewerIsEnd(c, rs[1..], from, 0);
        assert [rs[0]] + rs[1..] == rs;
      }
    }
  }

  // ---- Crashes ----

  // A crash leaves the synced bytes of the newest segment and any part of the rest.  Whatever it
  // leaves, every synced record is read, then a clean end or an error, and nothing else.
  lemma CrashKeepsDurable<R>(f: Format<R>, s: Segments<R>, n: nat)
    requires s.synced <= |s.current| && AllWritable(f, s.current)
    requires |Frames(f, s.current[..s.synced])| <= n <= |Frames(f, s.current)|
    ensures var k, scan := Complete(f, s.current, n), ScanAll(f, Frames(f, s.current)[..n]);
            s.synced <= k <= |s.current| && scan.records == s.current[..k] && scan.error in {None, Some(Torn)}
  {
    CutFile(f, s.current, n, Complete(f, s.current, n));
    CompleteHoldsSynced(f, s, n);
  }

  // Bytes that hold the synced records hold them completely.
  lemma CompleteHoldsSynced<R>(f: Format<R>, s: Segments<R>, n: nat)
    requires s.synced <= |s.current|
    requires |Frames(f, s.current[..s.synced])| <= n <= |Frames(f, s.current)|
    ensures s.synced <= Complete(f, s.current, n)
  {
    var k := Complete(f, s.current, n);
    if k < s.synced { LongerPrefix(f, s.current, k + 1, s.synced); LongerPrefix(f, s.current, k, k + 1); }
  }

  lemma LongerPrefix<R>(f: Format<R>, rs: seq<R>, i: nat, j: nat)
    requires i <= j <= |rs|
    ensures |Frames(f, rs[..i])| <= |Frames(f, rs[..j])|
    ensures j == i + 1 ==> |Frames(f, rs[..j])| == |Frames(f, rs[..i])| + |Frame(f, rs[i])|
  {
    assert rs[..j] == rs[..i] + rs[i..j];
    FramesAppend(f, rs[..i], rs[i..j]);
    if j == i + 1 {
      assert rs[..j] == rs[..i] + [rs[i]];
      FramesSnoc(f, rs[..i], rs[i]);
    }
  }

  // An append adds one record behind all others; what was durable stays so.
  lemma AppendKeepsOrder<R>(s: Segments<R>, r: R, group: bool, full: bool, syncOk: bool, closeOk: bool)
    requires s.synced <= |s.current|
    ensures var s' := Appended(s, r, group, full, syncOk, closeOk).0;
            && s'.synced <= |s'.current| && All(s') == All(s) + [r] && Durable(s) <= Durable(s')
  {
  }

  lemma DurableIsPrefix<R>(s: Segments<R>)
    requires s.synced <= |s.current|
    ensures Durable(s) <= All(s)
  {
  }
}
