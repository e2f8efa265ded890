// Length-prefixed frames in files: the part that the two record formats share.
module Framing {
  import opened Bytes
  import opened Sorting
  import opened Wrappers

  const MAX_BODY := 16 * 1024 * 1024

  datatype RecordError = TooShort | InvalidLength | ChecksumMismatch | Torn

  datatype Result<+T> = Ok(value: T) | Err(error: RecordError)

  // The checksum function; nothing is used of it but that it is a function.
  type Crc = seq<byte> -> u32

  // A body is some content closed by its checksum.
  function Sealed(crc: Crc, content: seq<byte>): seq<byte> { content + LE(crc(content), 4) }

  // What differs between the formats: the shortest body, and how a body is written and read.
  datatype Format<!R> = Format(minBody: nat, body: R -> seq<byte>, decode: seq<byte> -> Result<R>)

  // The record fits, and its body reads back as itself.
  ghost predicate Writable<R>(f: Format<R>, r: R) {
    && 0 < f.minBody <= |f.body(r)| <= MAX_BODY
    && f.decode(f.body(r)) == Ok(r)
  }

  ghost predicate AllWritable<R>(f: Format<R>, rs: seq<R>) {
    forall i :: 0 <= i < |rs| ==> Writable(f, rs[i])
  }

  function Frame<R>(f: Format<R>, r: R): seq<byte> {
    LE(|f.body(r)|, 4) + f.body(r)
  }

  // Pieces one behind the other.
  function Joined<R>(piece: R -> seq<byte>, rs: seq<R>): seq<byte> {
    if rs == [] then [] else piece(rs[0]) + Joined(piece, rs[1..])
  }

  lemma {:induction false} JoinedAppend<R>(piece: R -> seq<byte>, a: seq<R>, b: seq<R>)
    ensures Joined(piece, a + b) == Joined(piece, a) + Joined(piece, b)
  {
    if a == [] {
      assert a + b == b;
    } else {
      JoinedAppend(piece, a[1..], b);
      assert (a + b)[1..] == a[1..] + b;
      Associative(piece(a[0]), Joined(piece, a[1..]), Joined(piece, b));
    }
  }

  function FrameOf<R>(f: Format<R>): R -> seq<byte> { r => Frame(f, r) }

  function Frames<R>(f: Format<R>, rs: seq<R>): seq<byte> { Joined(FrameOf(f), rs) }

  lemma FramesAppend<R>(f: Format<R>, a: seq<R>, b: seq<R>)
    ensures Frames(f, a + b) == Frames(f, a) + Frames(f, b)
  {
    JoinedAppend(FrameOf(f), a, b);
  }

  lemma FramesSnoc<R>(f: Format<R>, rs: seq<R>, r: R)
    ensures Frames(f, rs + [r]) == Frames(f, rs) + Frame(f, r)
  {
    FramesAppend(f, rs, [r]);
    assert Joined(FrameOf(f), [r]) == FrameOf(f)(r) + Joined(FrameOf(f), [r][1..]);
  }

  // ---- Decoding one frame held in memory ----

  function DecodeFrame<R>(f: Format<R>, frame: seq<byte>): Result<R> {
    if |frame| < 4 + f.minBody then Err(TooShort)
    else
      var n := U32(frame[..4]);
      if n < f.minBody || n > MAX_BODY then Err(InvalidLength)
      else if |frame| < 4 + n then Err(TooShort)
      else f.decode(frame[4..4 + n])
  }

  lemma PrefixOfFrame<R>(f: Format<R>, r: R, rest: seq<byte>)
    requires Writable(f, r)
    ensures var s := Frame(f, r) + rest; var n := |f.body(r)|;
            U32(s[..4]) == n && s[4..4 + n] == f.body(r) && s[4 + n..] == rest
  {
    var s, n := Frame(f, r) + rest, |f.body(r)|;
    assert s[..4] == LE(n, 4);
    U32Inverse(s[..4], n);
    assert s[4..4 + n] == f.body(r);
  }

  // Decoding undoes encoding, whatever follows the frame.
  lemma FrameRoundTrip<R>(f: Format<R>, r: R, rest: seq<byte>)
    requires Writable(f, r)
    ensures DecodeFrame(f, Frame(f, r) + rest) == Ok(r)
  {
    PrefixOfFrame(f, r, rest);
  }

  // A buffer decodes to a record whose body alone decodes to it exactly when it starts with its frame.
  lemma DecodesExactly<R>(f: Format<R>, frame: seq<byte>, r: R)
    requires f.minBody <= |f.body(r)| && forall b :: f.decode(b) == Ok(r) <==> b == f.body(r)
    ensures DecodeFrame(f, frame) == Ok(r) <==> |f.body(r)| <= MAX_BODY && Frame(f, r) <= frame
  {
    var n := |f.body(r)|;
    if |frame| >= 4 {
      U32Inverse(frame[..4], U32(frame[..4]));
      if DecodeFrame(f, frame) == Ok(r) {
        assert frame[..4 + n] == frame[..4] + frame[4..4 + n];
      }
      if n <= MAX_BODY && Frame(f, r) <= frame {
        assert frame[..4 + n] == Frame(f, r);
        assert frame[..4] == LE(n, 4) && frame[4..4 + n] == f.body(r);
        U32Inverse(frame[..4], n);
      }
    }
  }

  method DecodeRecord<R>(f: Format<R>, frame: seq<byte>) returns (res: Result<R>)
    ensures res == DecodeFrame(f, frame)
  {
    if |frame| < 4 + f.minBody { return Err(TooShort); }
    var n := U32(frame[..4]);
    if n < f.minBody || n > MAX_BODY { return Err(InvalidLength); }
    if |frame| < 4 + n { return Err(TooShort); }
    res := f.decode(frame[4..4 + n]);
  }

  // ---- Reading from a file ----

  datatype Next<+R> = Got(record: R, rest: seq<byte>) | AtEnd | Broken(error: RecordError)

  // A file may end before a frame or right after its length prefix; any other end is an error.
  function ReadOne<R>(f: Format<R>, s: seq<byte>): Next<R> {
    if s == [] then AtEnd
    else if |s| < 4 then Broken(Torn)
    else
      var n := U32(s[..4]);
      if n < f.minBody || n > MAX_BODY then Broken(InvalidLength)
      else if |s| == 4 then AtEnd
      else if |s| < 4 + n then Broken(Torn)
      else match f.decode(s[4..4 + n])
        case Ok(r) => Got(r, s[4 + n..])
        case Err(e) => Broken(e)
  }

  datatype Read<+R> = Found(record: R) | EndOfFile | Failure(error: RecordError)

  method ReadRecord<R>(f: Format<R>, reader: ByteReader) returns (res: Read<R>)
    requires reader.Valid() && f.minBody > 0
    modifies reader
    ensures reader.Valid()
    ensures match ReadOne(f, old(reader.Rest()))
            case Got(r, rest) => res == Found(r) && reader.Rest() == rest && |rest| < |old(reader.Rest())|
            case AtEnd => res == EndOfFile
            case Broken(e) => res == Failure(e)
  {
    ghost var s := reader.Rest();
    var prefix, err := reader.ReadFull(4);
    match err {
      case Failed(EOF) => return EndOfFile;
      case Failed(UnexpectedEOF) => return Failure(Torn);
      case Done =>
    }
    var n := U32(prefix);
    if n < f.minBody || n > MAX_BODY { return Failure(InvalidLength); }
    var body;
    body, err := reader.ReadFull(n);
    match err {
      case Failed(EOF) => return EndOfFile;
      case Failed(UnexpectedEOF) => return Failure(Torn);
      case Done =>
    }
    assert body == s[4..4 + n];
    match f.decode(body) {
      case Ok(r) => res := Found(r);
      case Err(e) => res := Failure(e);
    }
  }

  // All records of a file, up to its end or to the first thing that is not a record.
  datatype Scan<+R> = Scan(records: seq<R>, error: Option<RecordError>)

  function ScanAll<R>(f: Format<R>, s: seq<byte>): Scan<R>
    decreases |s|
  {
    match ReadOne(f, s)
    case AtEnd => Scan([], None)
    case Broken(e) => Scan([], Some(e))
    case Got(r, rest) =>
      if |rest| < |s| then var more := ScanAll(f, rest); Scan([r] + more.records, more.error) else Scan([r], None)
  }

  lemma ScanFrame<R>(f: Format<R>, r: R, rest: seq<byte>)
    requires Writable(f, r)
    ensures ScanAll(f, Frame(f, r) + rest) ==
            Scan([r] + ScanAll(f, rest).records, ScanAll(f, rest).error)
  {
    PrefixOfFrame(f, r, rest);
  }

  // What is left of a frame that was cut is nothing, its prefix, or an error.
  lemma ScanCutFrame<R>(f: Format<R>, r: R, n: nat)
    requires Writable(f, r) && n < |Frame(f, r)|
    ensures ScanAll(f, Frame(f, r)[..n]) == Scan([], if n == 0 || n == 4 then None else Some(Torn))
  {
    var s := Frame(f, r)[..n];
    if n >= 4 {
      assert s[..4] == LE(|f.body(r)|, 4);
      U32Inverse(s[..4], |f.body(r)|);
    }
  }

  // The cut at n lies in or before the frame of record k.
  ghost predicate CutAt<R>(f: Format<R>, rs: seq<R>, n: nat, k: nat) {
    && k <= |rs| && |Frames(f, rs[..k])| <= n
    && (k < |rs| ==> n < |Frames(f, rs[..k])| + |Frame(f, rs[k])|)
  }

  // How many records are complete in the first n bytes.
  function Complete<R>(f: Format<R>, rs: seq<R>, n: nat): (k: nat)
    requires n <= |Frames(f, rs)|
    ensures CutAt(f, rs, n, k)
    decreases |rs|
  {
    if rs == [] || n < |Frame(f, rs[0])| then 0
    else
      var k := 1 + Complete(f, rs[1..], n - |Frame(f, rs[0])|);
      assert rs[..k][1..] == rs[1..][..k - 1];
      k
  }

  // The cut seen from behind the first frame.
  lemma CutBehindFirst<R>(f: Format<R>, rs: seq<R>, n: nat, k: nat) returns (m: nat)
    requires n <= |Frames(f, rs)| && CutAt(f, rs, n, k) && k > 0
    ensures n == |Frame(f, rs[0])| + m && m <= |Frames(f, rs[1..])| && CutAt(f, rs[1..], m, k - 1)
    ensures n - |Frames(f, rs[..k])| == m - |Frames(f, rs[1..][..k - 1])|
    ensures Frames(f, rs)[..n] == Frame(f, rs[0]) + Frames(f, rs[1..])[..m]
    ensures [rs[0]] + rs[1..][..k - 1] == rs[..k]
  {
    var first, rest := Frame(f, rs[0]), rs[1..];
    assert rs[..k][1..] == rest[..k - 1];
    assert Frames(f, rs[..k]) == first + Frames(f, rest[..k - 1]);
    m := n - |first|;
  }

  // A file of valid frames cut at any byte: exactly the complete records are read, and the end
  // is clean just when the cut is on a boundary or right after a length prefix.
  lemma {:induction false} CutFile<R>(f: Format<R>, rs: seq<R>, n: nat, k: nat)
    requires AllWritable(f, rs) && n <= |Frames(f, rs)| && CutAt(f, rs, n, k)
    ensures var left := n - |Frames(f, rs[..k])|;
            ScanAll(f, Frames(f, rs)[..n]) == Scan(rs[..k], if left == 0 || left == 4 then None else Some(Torn))
    decreases |rs|
  {
    if k > 0 {
      var m := CutBehindFirst(f, rs, n, k);
      CutFile(f, rs[1..], m, k - 1);
      ScanFrame(f, rs[0], Frames(f, rs[1..])[..m]);
    } else if rs != [] {
      assert Frames(f, rs)[..n] == Frame(f, rs[0])[..n];
      ScanCutFrame(f, rs[0], n);
    }
  }

  // A file that was not cut is read completely.
  lemma WholeFile<R>(f: Format<R>, rs: seq<R>)
    requires AllWritable(f, rs)
    ensures ScanAll(f, Frames(f, rs)) == Scan(rs, None)
  {
    assert rs[..|rs|] == rs;
    CutFile(f, rs, |Frames(f, rs)|, |rs|);
    assert Frames(f, rs)[..|Frames(f, rs)|] == Frames(f, rs);
  }

  // A length prefix that lost its body swallows what is appended behind it: as long as less is
  // appended than the lost body, reading stops before the first new record.
  lemma StrayPrefixHidesRecords<R>(f: Format<R>, rs: seq<R>, lost: R, more: seq<R>)
    requires AllWritable(f, rs) && Writable(f, lost) && more != []
    requires |Frames(f, more)| < |f.body(lost)|
    ensures ScanAll(f, Frames(f, rs) + Frame(f, lost)[..4] + Frames(f, more)) == Scan(rs, Some(Torn))
  {
    var tail := Frame(f, lost)[..4] + Frames(f, more);
    assert Frames(f, more) == Frame(f, more[0]) + Frames(f, more[1..]);
    assert tail[..4] == LE(|f.body(lost)|, 4);
    U32Inverse(tail[..4], |f.body(lost)|);
    ScanBehind(f, rs, tail);
    assert Frames(f, rs) + Frame(f, lost)[..4] + Frames(f, more) == Frames(f, rs) + tail;
  }

  // The record ends inside the body that was lost, or stands where that body does not decode.
  ghost predicate Exposes<R>(f: Format<R>, lost: R, r: R) {
    var n := |f.body(lost)|;
    Writable(f, r) && (|Frame(f, r)| < n || f.decode(Frame(f, r)[..n]).Err?)
  }

  lemma StrayPrefixExposed<R>(f: Format<R>, rs: seq<R>, lost: R, r: R)
    requires AllWritable(f, rs) && Writable(f, lost) && Exposes(f, lost, r)
    ensures var scan := ScanAll(f, Frames(f, rs) + Frame(f, lost)[..4] + Frames(f, [r]));
            scan.records == rs && scan.error.Some?
  {
    var n, prefix, frame := |f.body(lost)|, Frame(f, lost)[..4], Frame(f, r);
    var tail := prefix + frame;
    FramesSnoc(f, [], r);
    assert [] + [r] == [r] && Frames(f, []) + frame == frame;
    assert tail[..4] == prefix == LE(n, 4);
    U32Inverse(tail[..4], n);
    assert |tail| >= 4 + n ==> tail[4..4 + n] == frame[..n];
    assert ScanAll(f, tail).records == [] && ScanAll(f, tail).error.Some?;
    ScanBehind(f, rs, tail);
    assert rs + [] == rs;
    Associative(Frames(f, rs), prefix, frame);
  }

  // Whatever writable records are appended, they are read behind those that were complete.
  ghost predicate GoesOn<R(!new)>(f: Format<R>, file: seq<byte>, rs: seq<R>) {
    forall more: seq<R> {:trigger Frames(f, more)} :: AllWritable(f, more) ==>
      ScanAll(f, file + Frames(f, more)) == Scan(rs + more, None)
  }

  // After a cut the file can be appended to exactly when the cut is between two records.
  lemma GoesOnExactlyWhen<R(!new)>(f: Format<R>, rs: seq<R>, n: nat, k: nat, probe: R)
    requires AllWritable(f, rs) && n <= |Frames(f, rs)| && CutAt(f, rs, n, k)
    requires k < |rs| ==> Exposes(f, rs[k], probe)
    ensures GoesOn(f, Frames(f, rs)[..n], rs[..k]) <==> n == |Frames(f, rs[..k])|
  {
    var file, left := Frames(f, rs)[..n], n - |Frames(f, rs[..k])|;
    BeforeCut(f, rs, k);
    if left == 0 {
      assert file == Frames(f, rs[..k]);
      forall more: seq<R> {:trigger Frames(f, more)} | AllWritable(f, more)
        ensures ScanAll(f, file + Frames(f, more)) == Scan(rs[..k] + more, None)
      {
        FramesAppend(f, rs[..k], more);
        WholeFile(f, rs[..k] + more);
      }
    } else if left == 4 {
      BeforeCut(f, rs, k + 1);
      assert rs[..k + 1] == rs[..k] + [rs[k]];
      FramesSnoc(f, rs[..k], rs[k]);
      assert file == Frames(f, rs[..k]) + Frame(f, rs[k])[..4];
      StrayPrefixExposed(f, rs[..k], rs[k], probe);
      assert AllWritable(f, [probe]);
      assert ScanAll(f, file + Frames(f, [probe])).error.Some?;
    } else {
      CutFile(f, rs, n, k);
      assert file + Frames(f, []) == file;
    }
  }

  lemma BeforeCut<R>(f: Format<R>, rs: seq<R>, k: nat)
    requires k <= |rs|
    ensures Frames(f, rs) == Frames(f, rs[..k]) + Frames(f, rs[k..])
  {
    assert rs == rs[..k] + rs[k..];
    FramesAppend(f, rs[..k], rs[k..]);
  }

  lemma {:induction false} ScanBehind<R>(f: Format<R>, rs: seq<R>, tail: seq<byte>)
    requires AllWritable(f, rs)
    ensures ScanAll(f, Frames(f, rs) + tail) == Scan(rs + ScanAll(f, tail).records, ScanAll(f, tail).error)
  {
    var behind := ScanAll(f, tail);
    if rs == [] {
      assert [] + tail == tail && [] + behind.records == behind.records;
    } else {
      var first, others := FrameOf(f)(rs[0]), Frames(f, rs[1..]);
      ScanBehind(f, rs[1..], tail);
      ScanFrame(f, rs[0], others + tail);
      Associative(first, others, tail);
      Associative([rs[0]], rs[1..], behind.records);
      assert [rs[0]] + rs[1..] == rs;
    }
  }

  lemma Associative<T>(a: seq<T>, b: seq<T>, c: seq<T>)
    ensures (a + b) + c == a + (b + c)
  {
  }
}
