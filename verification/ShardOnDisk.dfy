// The shard with the real matcher over the real write-ahead log.
module ShardOnDisk {
  import opened Wrappers
  import opened Convert
  import opened Shard
  import opened ShardRuns
  import opened Logs
  import R = Recovery
  import G = GroupCommit
  import E = EngineRuns
  import L = LogRuns
  import D = EngineOnDisk
  import F = Framing
  import S = SegmentedLog
  import Wal = WalRecord
  import M = Matcher

  type Setup = D.Setting<M.Book, SavedBook, Wal.Record>

  // A command is read as it was encoded, whatever number its record has.
  ghost predicate Decodes(encode: R.Command -> Wal.Record, decode: Wal.Record -> R.Payload) {
    forall c, n: nat {:trigger encode(c).(seqId := n)} :: n < 0x1_0000_0000_0000_0000 ==>
      decode(encode(c).(seqId := n)) == R.Of(c)
  }

  function SetupOf(env: G.Env<M.Book, SavedBook>, symbols: set<string>, crc: F.Crc, encode: R.Command -> Wal.Record,
                   decode: Wal.Record -> R.Payload): Setup {
    D.Setting(env, Registered(symbols), WalCodec(crc), encode, decode)
  }

  lemma SetupIsLawful(setting: Setting, env: G.Env<M.Book, SavedBook>, symbols: set<string>, crc: F.Crc,
                      encode: R.Command -> Wal.Record, decode: Wal.Record -> R.Payload)
    requires env.m == ShardMachine(setting) && TickingAlways(setting) && Decodes(encode, decode)
    ensures D.Laws(SetupOf(env, symbols, crc, encode, decode), GoodBooks(), SizedOrders())
  {
    ShardObeysLaws(setting, symbols);
    BothAreNumbering(crc, crc);
    WalIsExposing(crc);
    var codec := WalCodec(crc);
    forall c {:trigger encode(c)} ensures L.Legible(codec, encode(c)) {
      WalIsLegible(crc, [L.Append(encode(c), false, true, true)]);
      assert [L.Append(encode(c), false, true, true)][0].Append?;
    }
    forall c, n: nat {:trigger codec.withSeq(encode(c), n)} | n < 0x1_0000_0000_0000_0000
      ensures decode(codec.withSeq(encode(c), n)) == R.Of(c)
    {
      assert codec.withSeq(encode(c), n) == encode(c).(seqId := n);
    }
  }

  // Over every run of the shard, with appends, syncs and rotations that may fail and crashes at any
  // byte: it is up exactly when no crash has cut through a record, and while it is up, all that memory
  // has performed is among the records that no crash can take, and its books are what they make.
  lemma EveryShardRunOnDisk(setting: Setting, env: G.Env<M.Book, SavedBook>, symbols: set<string>, crc: F.Crc,
                            encode: R.Command -> Wal.Record, decode: Wal.Record -> R.Payload, steps: seq<D.Step>)
    requires env.m == ShardMachine(setting) && TickingAlways(setting) && Decodes(encode, decode)
    requires var setup := SetupOf(env, symbols, crc, encode, decode);
             D.IsRun(setup, steps) && forall i :: 0 <= i < |steps| ==> D.Fits(SizedOrders(), steps[i])
    ensures var setup := SetupOf(env, symbols, crc, encode, decode);
            var d := D.After(setup, steps);
            && (d.up <==> D.NeverTorn(setup, steps))
            && d.st.segments.synced <= |d.st.segments.current|
            && (d.up ==>
                  && D.Matches(setup, d.t.core.log, S.All(d.st.segments))
                  && E.Carried(env.m, Registered(symbols), d.t.marks.applied) == Some(d.t.core.mem.live.books)
                  && forall e :: e in d.t.marks.applied ==>
                       && 1 <= e.walSeq <= |S.Durable(d.st.segments)|
                       && e == R.Entry(e.walSeq, decode(S.Durable(d.st.segments)[e.walSeq - 1])))
  {
    var setup := SetupOf(env, symbols, crc, encode, decode);
    SetupIsLawful(setting, env, symbols, crc, encode, decode);
    D.EveryRunIsSound(setup, GoodBooks(), SizedOrders(), steps);
    D.EveryRunIsDurableOnDisk(setup, GoodBooks(), SizedOrders(), steps);
  }
}
