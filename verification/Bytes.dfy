// Little-endian integers, byte buffers that are filled in place, and byte streams that are read.
module Bytes {
  import opened Multiples

  type byte = x: int | 0 <= x < 256
  type u16 = x: int | 0 <= x < 0x1_0000
  type u32 = x: int | 0 <= x < 0x1_0000_0000
  type u64 = x: int | 0 <= x < 0x1_0000_0000_0000_0000
  type i64 = x: int | -0x8000_0000_0000_0000 <= x < 0x8000_0000_0000_0000

  function Pow256(w: nat): (p: nat)
    ensures p > 0
  {
    if w == 0 then 1 else 256 * Pow256(w - 1)
  }

  lemma Widths()
    ensures Pow256(2) == 0x1_0000 && Pow256(4) == 0x1_0000_0000 && Pow256(8) == 0x1_0000_0000_0000_0000
  {
  }

  // The lowest byte comes first.
  function LE(n: nat, w: nat): (s: seq<byte>)
    ensures |s| == w
  {
    if w == 0 then [] else [n % 256] + LE(n / 256, w - 1)
  }

  function FromLE(s: seq<byte>): nat {
    if s == [] then 0 else s[0] + 256 * FromLE(s[1..])
  }

  lemma {:induction false} FromLEBounded(s: seq<byte>)
    ensures FromLE(s) < Pow256(|s|)
  {
    if s != [] { FromLEBounded(s[1..]); }
  }

  lemma {:induction false} FromLEOfLE(n: nat, w: nat)
    requires n < Pow256(w)
    ensures FromLE(LE(n, w)) == n
  {
    if w > 0 {
      FromLEOfLE(n / 256, w - 1);
      assert LE(n, w)[1..] == LE(n / 256, w - 1);
    }
  }

  lemma {:induction false} LEOfFromLE(s: seq<byte>)
    ensures LE(FromLE(s), |s|) == s
  {
    if s != [] {
      LEOfFromLE(s[1..]);
      assert FromLE(s) % 256 == s[0] && FromLE(s) / 256 == FromLE(s[1..]);
    }
  }

  // The w bytes from `at` on are the lowest w bytes of n, the lowest first; those of a negative n
  // are those of its two's complement.
  ghost predicate HasNumber(s: seq<byte>, at: nat, w: nat, n: int) {
    at + w <= |s| && forall i :: 0 <= i < w ==> s[at + i] == n / Pow256(i) % 256
  }

  lemma {:induction false} LEIsNumbered(n: nat, w: nat)
    ensures HasNumber(LE(n, w), 0, w, n)
  {
    if w > 0 {
      LEIsNumbered(n / 256, w - 1);
      forall i | 0 <= i < w ensures LE(n, w)[i] == n / Pow256(i) % 256 {
        if i > 0 {
          assert LE(n, w)[i] == LE(n / 256, w - 1)[0 + (i - 1)];
          DivideTwice(n, Pow256(i - 1));
        }
      }
    }
  }

  lemma DivideTwice(n: int, d: int)
    requires d > 0
    ensures n / 256 / d == n / (256 * d)
  {
    var half := n / 256;
    var q, r := half / d, half % d;
    assert n == 256 * half + n % 256 && half == d * q + r;
    assert 256 * (d * q) == (256 * d) * q;
    QuotientIs(n, 256 * d, q, 256 * r + n % 256);
  }

  lemma QuotientIs(n: int, d: int, q: int, r: int)
    requires d > 0 && n == d * q + r && 0 <= r < d
    ensures n / d == q
  {
    var e := n / d;
    assert n == d * e + n % d;
    if e > q {
      ProductGrows(d, e, q + 1);
    } else if e < q {
      ProductGrows(d, q, e + 1);
    }
  }

  // Numbers that differ by a multiple of 256^w have the same w lowest bytes.
  lemma {:induction false} SameLowBytes(n: int, k: int, w: nat, i: nat)
    requires i < w
    ensures (n + k * Pow256(w)) / Pow256(i) % 256 == n / Pow256(i) % 256
    decreases w
  {
    var high := k * Pow256(w - 1);
    Shifted(k, Pow256(w - 1));
    LowByte(n, high);
    if i > 0 {
      DivideTwice(n, Pow256(i - 1));
      DivideTwice(n + 256 * high, Pow256(i - 1));
      SameLowBytes(n / 256, k, w - 1, i - 1);
    }
  }

  lemma Shifted(k: int, p: nat)
    ensures k * (256 * p) == 256 * (k * p)
  {
  }

  lemma LowByte(n: int, high: int)
    ensures (n + 256 * high) % 256 == n % 256 && (n + 256 * high) / 256 == n / 256 + high
  {
  }

  // What stands in front of an encoded number and behind it only moves it.
  lemma NumberIsIn(s: seq<byte>, front: seq<byte>, back: seq<byte>, w: nat, n: nat)
    requires s == front + LE(n, w) + back
    ensures HasNumber(s, |front|, w, n)
  {
    LEIsNumbered(n, w);
    forall i | 0 <= i < w ensures s[|front| + i] == n / Pow256(i) % 256 {
      assert s[|front| + i] == LE(n, w)[0 + i];
    }
  }

  // The same for a time, also for one before the epoch.
  lemma TimeIsIn(s: seq<byte>, front: seq<byte>, back: seq<byte>, t: i64)
    requires s == front + LE(Unsigned(t), 8) + back
    ensures HasNumber(s, |front|, 8, t)
  {
    Widths();
    NumberIsIn(s, front, back, 8, Unsigned(t));
    forall i | 0 <= i < 8 ensures Unsigned(t) / Pow256(i) % 256 == t / Pow256(i) % 256 {
      if t < 0 { SameLowBytes(t, 1, 8, i); }
    }
  }

  // Two's complement.
  function Unsigned(t: i64): u64 { if t < 0 then t + 0x1_0000_0000_0000_0000 else t }
  function Signed(n: u64): i64 { if n >= 0x8000_0000_0000_0000 then n - 0x1_0000_0000_0000_0000 else n }

  function U16(s: seq<byte>): u16
    requires |s| == 2
  {
    FromLEBounded(s); Widths(); FromLE(s)
  }

  function U32(s: seq<byte>): u32
    requires |s| == 4
  {
    FromLEBounded(s); Widths(); FromLE(s)
  }

  function U64(s: seq<byte>): u64
    requires |s| == 8
  {
    FromLEBounded(s); Widths(); FromLE(s)
  }

  // A slice is an encoding of n exactly when it decodes to n.
  lemma U16Inverse(s: seq<byte>, n: u16)
    requires |s| == 2
    ensures U16(s) == n <==> s == LE(n, 2)
  {
    Widths(); FromLEOfLE(n, 2); LEOfFromLE(s);
  }

  lemma U32Inverse(s: seq<byte>, n: u32)
    requires |s| == 4
    ensures U32(s) == n <==> s == LE(n, 4)
  {
    Widths(); FromLEOfLE(n, 4); LEOfFromLE(s);
  }

  lemma U64Inverse(s: seq<byte>, n: u64)
    requires |s| == 8
    ensures U64(s) == n <==> s == LE(n, 8)
  {
    Widths(); FromLEOfLE(n, 8); LEOfFromLE(s);
  }

  // The buffer starts with what has been written; the rest is as it was.
  ghost predicate Filled(buffer: seq<byte>, written: seq<byte>, was: seq<byte>) {
    && |buffer| == |was| && |written| <= |was|
    && buffer[..|written|] == written && buffer[|written|..] == was[|written|..]
  }

  method Put(frame: array<byte>, off: nat, data: seq<byte>, ghost written: seq<byte>, ghost was: seq<byte>)
    requires Filled(frame[..], written, was) && |written| == off && off + |data| <= frame.Length
    modifies frame
    ensures Filled(frame[..], written + data, was)
  {
    for i := 0 to |data|
      invariant Filled(frame[..], written + data[..i], was)
    {
      frame[off + i] := data[i];
      assert written + data[..i + 1] == written + data[..i] + [data[i]];
    }
    assert data[..|data|] == data;
  }

  method PutLE(frame: array<byte>, off: nat, w: nat, n: nat, ghost written: seq<byte>, ghost was: seq<byte>)
    requires Filled(frame[..], written, was) && |written| == off && off + w <= frame.Length
    modifies frame
    ensures Filled(frame[..], written + LE(n, w), was)
  {
    var rest := n;
    ghost var s: seq<byte> := [];
    for i := 0 to w
      invariant |s| == i && s + LE(rest, w - i) == LE(n, w)
      invariant Filled(frame[..], written + s, was)
    {
      frame[off + i] := rest % 256;
      assert written + (s + [rest % 256]) == written + s + [rest % 256];
      assert s + [rest % 256] + LE(rest / 256, w - i - 1) == s + LE(rest, w - i);
      s := s + [rest % 256];
      rest := rest / 256;
    }
    assert s + LE(rest, 0) == s;
  }

  datatype ReadError = EOF | UnexpectedEOF

  // A file open for reading.
  class ByteReader {
    const data: seq<byte>
    var pos: nat

    ghost predicate Valid() reads this { pos <= |data| }

    ghost function Rest(): seq<byte>
      requires Valid()
      reads this
    {
      data[pos..]
    }

    constructor (data: seq<byte>)
      ensures Valid() && Rest() == data && this.data == data
    {
      this.data, pos := data, 0;
    }

    // EOF only when nothing at all can be read.
    method ReadFull(n: nat) returns (buf: seq<byte>, err: ReadOutcome)
      requires Valid() && n > 0
      modifies this
      ensures Valid()
      ensures |old(Rest())| == 0 <==> err == Failed(EOF)
      ensures 0 < |old(Rest())| < n <==> err == Failed(UnexpectedEOF)
      ensures err == Done ==> |old(Rest())| >= n && buf == old(Rest())[..n] && Rest() == old(Rest())[n..]
      ensures err != Done ==> Rest() == []
    {
      if pos == |data| {
        return [], Failed(EOF);
      }
      if |data| - pos < n {
        buf := data[pos..];
        pos := |data|;
        return buf, Failed(UnexpectedEOF);
      }
      buf, err := data[pos..pos + n], Done;
      pos := pos + n;
    }
  }

  datatype ReadOutcome = Done | Failed(error: ReadError)
}
