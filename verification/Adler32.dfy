/** The running Adler-32 checksum of auxprogs/valgrind-di-server.c.

The sums are `UInt` values, so every addition below carries the proof that it does not
overflow 32 bits.  The reference is the byte-at-a-time definition of section 2.2 of
RFC 1950. */
module Adler32 {
  newtype byte = x: int | 0 <= x < 0x100
  newtype uint32 = x: int | 0 <= x < 0x1_0000_0000

  const BASE: nat := 65521
  const NMAX: nat := 5552

  datatype Sums = Sums(a: nat, b: nat)

  // ---------------------------------------------------------------- definition

  /** One byte of RFC 1950, section 2.2. */
  function Step(s: Sums, x: byte): Sums {
    var a := (s.a + x as nat) % BASE;
    Sums(a, (s.b + a) % BASE)
  }

  /** The definition: reduce after every byte. */
  function Fold(s: Sums, buf: seq<byte>): Sums
    decreases |buf|
  {
    if buf == [] then s else Fold(Step(s, buf[0]), buf[1..])
  }

  /** The same sums with all reductions left out. */
  function Raw(s: Sums, buf: seq<byte>): Sums
    decreases |buf|
  {
    if buf == [] then s
    else Raw(Sums(s.a + buf[0] as nat, s.b + s.a + buf[0] as nat), buf[1..])
  }

  function Reduce(s: Sums): Sums {
    Sums(s.a % BASE, s.b % BASE)
  }

  /** A checksum word and the two sums it packs. */
  function Pack(s: Sums): uint32
    requires s.a < 0x1_0000 && s.b < 0x1_0000
  {
    (s.a + s.b * 0x1_0000) as uint32
  }

  function Unpack(adler: uint32): (s: Sums)
    ensures s.a < 0x1_0000 && s.b < 0x1_0000 && Pack(s) == adler
  {
    Sums(adler as nat % 0x1_0000, adler as nat / 0x1_0000)
  }

  /** Both halves are reduced: true of 1 and of every checksum computed from it. */
  predicate IsChecksum(adler: uint32) {
    Unpack(adler).a < BASE && Unpack(adler).b < BASE
  }

  function Checksum(adler: uint32, buf: seq<byte>): (r: uint32)
    requires IsChecksum(adler)
    ensures IsChecksum(r)
  {
    FoldReduced(Unpack(adler), buf);
    PackUnpack(Fold(Unpack(adler), buf));
    Pack(Fold(Unpack(adler), buf))
  }

  lemma PackUnpack(s: Sums)
    requires s.a < 0x1_0000 && s.b < 0x1_0000
    ensures Unpack(Pack(s)) == s
  {
    assert (s.a + s.b * 0x1_0000) / 0x1_0000 == s.b;
  }

  lemma {:induction false} FoldReduced(s: Sums, buf: seq<byte>)
    requires s.a < BASE && s.b < BASE
    ensures Fold(s, buf).a < BASE && Fold(s, buf).b < BASE
    decreases |buf|
  {
    if buf != [] { FoldReduced(Step(s, buf[0]), buf[1..]); }
  }

  // ---------------------------------------------------------------- deferring the reduction

  lemma ModPlus(x: nat, y: nat, z: nat)
    requires x % BASE == y % BASE
    ensures (x + z) % BASE == (y + z) % BASE
  {
    var q, r := x / BASE, y / BASE;
    assert x + z == (y + z) + BASE * (q - r);
    ModShift(y + z, q - r, x + z);
  }

  lemma ModShift(x: nat, q: int, y: nat)
    requires y == x + BASE * q
    ensures y % BASE == x % BASE
  {
    var xq := x / BASE;
    assert y == BASE * (xq + q) + x % BASE;
  }

  lemma ModBoth(x: nat, y: nat, u: nat, v: nat)
    requires x % BASE == y % BASE && u % BASE == v % BASE
    ensures (x + u) % BASE == (y + v) % BASE
  {
    ModPlus(x, y, u);
    ModPlus(u, v, y);
  }

  /** Reducing once at the end gives what reducing after every byte gives. */
  lemma {:induction false} RawReduces(s: Sums, t: Sums, buf: seq<byte>)
    requires Reduce(s) == Reduce(t)
    ensures Reduce(Raw(s, buf)) == Reduce(Fold(t, buf))
    decreases |buf|
  {
    if buf != [] {
      var x := buf[0] as nat;
      ModPlus(s.a, t.a, x);
      var a := (t.a + x) % BASE;
      ModBoth(s.b, t.b, s.a + x, a);
      RawReduces(Sums(s.a + x, s.b + s.a + x), Step(t, buf[0]), buf[1..]);
    }
  }

  lemma RawNothing(s: Sums)
    ensures Raw(s, []) == s
  {
  }

  lemma {:induction false} RawConcat(s: Sums, x: seq<byte>, y: seq<byte>)
    ensures Raw(s, x + y) == Raw(Raw(s, x), y)
    decreases |x|
  {
    if x == [] {
      assert x + y == y;
    } else {
      assert (x + y)[1..] == x[1..] + y;
      RawConcat(Sums(s.a + x[0] as nat, s.b + s.a + x[0] as nat), x[1..], y);
    }
  }

  lemma {:induction false} FoldConcat(s: Sums, x: seq<byte>, y: seq<byte>)
    ensures Fold(s, x + y) == Fold(Fold(s, x), y)
    decreases |x|
  {
    if x == [] {
      assert x + y == y;
    } else {
      assert (x + y)[1..] == x[1..] + y;
      FoldConcat(Step(s, x[0]), x[1..], y);
    }
  }

  /** Checksumming in pieces is checksumming the concatenation. */
  lemma ChecksumConcat(adler: uint32, x: seq<byte>, y: seq<byte>)
    requires IsChecksum(adler)
    ensures Checksum(adler, x + y) == Checksum(Checksum(adler, x), y)
  {
    FoldConcat(Unpack(adler), x, y);
    FoldReduced(Unpack(adler), x);
    PackUnpack(Fold(Unpack(adler), x));
  }

  // ---------------------------------------------------------------- as sums over the bytes

  /** The bytes added up, and added up once for every byte from each on. */
  function Total(buf: seq<byte>): nat
    decreases |buf|
  {
    if buf == [] then 0 else buf[0] as nat + Total(buf[1..])
  }

  function Weighted(buf: seq<byte>): nat
    decreases |buf|
  {
    if buf == [] then 0 else |buf| * buf[0] as nat + Weighted(buf[1..])
  }

  lemma {:induction false} RawSums(s: Sums, buf: seq<byte>)
    ensures Raw(s, buf) == Sums(s.a + Total(buf), s.b + |buf| * s.a + Weighted(buf))
    decreases |buf|
  {
    if buf != [] {
      var x, n := buf[0] as nat, |buf| - 1;
      RawSums(Sums(s.a + x, s.b + s.a + x), buf[1..]);
      Spread(n, s.a, x);
    }
  }

  lemma Spread(n: nat, a: nat, x: nat)
    ensures n * (a + x) + (a + x) == (n + 1) * a + (n + 1) * x
  {
  }

  /** The checksum of a buffer, by its bytes: the low half is the start plus all bytes, the high half
      the start plus every value the low half takes on, both modulo 65521. */
  lemma ChecksumSums(adler: uint32, buf: seq<byte>)
    requires IsChecksum(adler)
    ensures var a, b := adler as nat % 65536, adler as nat / 65536;
            Checksum(adler, buf) as nat ==
            (a + Total(buf)) % 65521 + (b + |buf| * a + Weighted(buf)) % 65521 * 65536
  {
    hide Fold, Total, Weighted;
    FoldSums(Unpack(adler), buf);
  }

  lemma FoldSums(s: Sums, buf: seq<byte>)
    requires s.a < BASE && s.b < BASE
    ensures Fold(s, buf) == Sums((s.a + Total(buf)) % 65521, (s.b + |buf| * s.a + Weighted(buf)) % 65521)
  {
    hide Raw, Fold, Total, Weighted;
    RawReduces(s, s, buf);
    RawSums(s, buf);
    FoldReduced(s, buf);
    SmallMod(Fold(s, buf).a);
    SmallMod(Fold(s, buf).b);
  }

  // ---------------------------------------------------------------- 32-bit bounds

  function Triangle(n: nat): nat {
    if n == 0 then 0 else n + Triangle(n - 1)
  }

  lemma {:induction false} TriangleClosed(n: nat)
    ensures 2 * Triangle(n) == n * (n + 1)
  {
    if n > 0 { TriangleClosed(n - 1); }
  }

  lemma {:induction false} TriangleMonotone(m: nat, n: nat)
    requires m <= n
    ensures Triangle(m) <= Triangle(n)
    decreases n - m
  {
    if m < n { TriangleMonotone(m + 1, n); }
  }

  /** How far n bytes can push the unreduced sums. */
  lemma {:induction false} RawBound(s: Sums, buf: seq<byte>, a0: nat)
    requires s.a <= a0
    ensures Raw(s, buf).a <= a0 + 255 * |buf|
    ensures Raw(s, buf).b <= s.b + |buf| * a0 + 255 * Triangle(|buf|)
    decreases |buf|
  {
    if buf != [] {
      var x, n := buf[0] as nat, |buf| - 1;
      RawBound(Sums(s.a + x, s.b + s.a + x), buf[1..], a0 + 255);
      assert n * (a0 + 255) == n * a0 + 255 * n;
      assert |buf| * a0 == n * a0 + a0;
    }
  }

  /** NMAX bytes fit, whatever the two 16-bit halves start from. */
  lemma BlockFits(s: Sums, buf: seq<byte>)
    requires s.a < 0x1_0000 && s.b < 0x1_0000 && |buf| <= NMAX
    ensures Raw(s, buf).a < 0x1_0000_0000 && Raw(s, buf).b < 0x1_0000_0000
  {
    RawBound(s, buf, 0xFFFF);
    TriangleMonotone(|buf|, NMAX);
    TriangleClosed(NMAX);
  }

  lemma ShortFits(s: Sums, buf: seq<byte>)
    requires s.a < 0x1_0000 && s.b < 0x1_0000 && |buf| < 16
    ensures Raw(s, buf).a < 2 * BASE && Raw(s, buf).b < 32 * BASE
  {
    RawBound(s, buf, 0xFFFF);
    TriangleMonotone(|buf|, 15);
    TriangleClosed(15);
  }

  // ---------------------------------------------------------------- MOD and MOD4

  function Pow2(k: nat): nat {
    if k == 0 then 1 else 2 * Pow2(k - 1)
  }

  /** One line of the MOD macros. */
  method CondSub(x: uint32, ghost k: nat, m: uint32) returns (r: uint32)
    requires m as nat == BASE * Pow2(k)
    requires x as nat < 2 * m as nat
    ensures r < m && r as nat % BASE == x as nat % BASE
  {
    r := x;
    if r >= m { r := r - m; }
    ModShift(r as nat, if x >= m then Pow2(k) else 0, x as nat);
  }

  method Mod(x: uint32) returns (r: uint32)
    ensures r as nat == x as nat % BASE
  {
    r := x;
    assert Pow2(8) == 256;
    r := CondSub(r, 16, 65521 * 65536);
    r := CondSub(r, 15, 65521 * 32768);
    r := CondSub(r, 14, 65521 * 16384);
    r := CondSub(r, 13, 65521 * 8192);
    r := CondSub(r, 12, 65521 * 4096);
    r := CondSub(r, 11, 65521 * 2048);
    r := CondSub(r, 10, 65521 * 1024);
    r := CondSub(r, 9, 65521 * 512);
    r := CondSub(r, 8, 65521 * 256);
    r := CondSub(r, 7, 65521 * 128);
    r := CondSub(r, 6, 65521 * 64);
    r := CondSub(r, 5, 65521 * 32);
    r := Mod4(r);
  }

  method Mod4(x: uint32) returns (r: uint32)
    requires x < 65521 * 32
    ensures r as nat == x as nat % BASE
  {
    r := x;
    r := CondSub(r, 4, 65521 * 16);
    r := CondSub(r, 3, 65521 * 8);
    r := CondSub(r, 2, 65521 * 4);
    r := CondSub(r, 1, 65521 * 2);
    r := CondSub(r, 0, 65521);
  }

  // ---------------------------------------------------------------- adler32

  /** Where a run of unreduced additions stands: the sums over buf[from..i], started from s. */
  ghost predicate Running(s: Sums, buf: seq<byte>, from: nat, i: nat, adler: uint32, sum2: uint32) {
    && from <= i <= |buf|
    && s.a < 0x1_0000 && s.b < 0x1_0000
    && Sums(adler as nat, sum2 as nat) == Raw(s, buf[from..i])
  }

  method Do1(buf: seq<byte>, i: nat, adler: uint32, sum2: uint32, ghost s: Sums, ghost from: nat)
    returns (a: uint32, b: uint32)
    requires Running(s, buf, from, i, adler, sum2) && i < |buf| && i + 1 - from <= NMAX
    ensures Running(s, buf, from, i + 1, a, b)
  {
    BlockFits(s, buf[from..i + 1]);
    assert buf[from..i + 1] == buf[from..i] + [buf[i]];
    RawConcat(s, buf[from..i], [buf[i]]);
    a := adler + buf[i] as uint32;
    b := sum2 + a;
  }

  method Do4(buf: seq<byte>, i: nat, adler: uint32, sum2: uint32, ghost s: Sums, ghost from: nat)
    returns (a: uint32, b: uint32)
    requires Running(s, buf, from, i, adler, sum2) && i + 4 <= |buf| && i + 4 - from <= NMAX
    ensures Running(s, buf, from, i + 4, a, b)
  {
    a, b := Do1(buf, i, adler, sum2, s, from);
    a, b := Do1(buf, i + 1, a, b, s, from);
    a, b := Do1(buf, i + 2, a, b, s, from);
    a, b := Do1(buf, i + 3, a, b, s, from);
  }

  method Do16(buf: seq<byte>, i: nat, adler: uint32, sum2: uint32, ghost s: Sums, ghost from: nat)
    returns (a: uint32, b: uint32)
    requires Running(s, buf, from, i, adler, sum2) && i + 16 <= |buf| && i + 16 - from <= NMAX
    ensures Running(s, buf, from, i + 16, a, b)
  {
    a, b := Do4(buf, i, adler, sum2, s, from);
    a, b := Do4(buf, i + 4, a, b, s, from);
    a, b := Do4(buf, i + 8, a, b, s, from);
    a, b := Do4(buf, i + 12, a, b, s, from);
  }

  /** The loop that takes single bytes to the end of the buffer. */
  method Tail(buf: seq<byte>, i0: nat, adler: uint32, sum2: uint32, ghost s: Sums, ghost from: nat)
    returns (a: uint32, b: uint32)
    requires Running(s, buf, from, i0, adler, sum2) && |buf| - from <= NMAX
    ensures Running(s, buf, from, |buf|, a, b)
  {
    var i := i0;
    a, b := adler, sum2;
    while i < |buf|
      invariant Running(s, buf, from, i, a, b)
    {
      a, b := Do1(buf, i, a, b, s, from);
      i := i + 1;
    }
  }

  /** Ends a run: one reduction of each sum stands for a reduction per byte. */
  method FinishRun(buf: seq<byte>, i: nat, adler: uint32, sum2: uint32, ghost s: Sums, ghost from: nat, ghost start: Sums)
    returns (a: uint32, b: uint32)
    requires Running(s, buf, from, i, adler, sum2) && Reduce(s) == Reduce(Fold(start, buf[..from]))
    ensures Sums(a as nat, b as nat) == Reduce(Fold(start, buf[..i]))
  {
    a := Mod(adler);
    b := Mod(sum2);
    RawReduces(s, Fold(start, buf[..from]), buf[from..i]);
    assert buf[..i] == buf[..from] + buf[from..i];
    FoldConcat(start, buf[..from], buf[from..i]);
  }

  /** Blocks of NMAX bytes, each in NMAX/16 rounds of 16, one reduction per block. */
  method Blocks(buf: seq<byte>, adler: uint32, sum2: uint32, ghost start: Sums) returns (i: nat, a: uint32, b: uint32)
    requires start == Sums(adler as nat, sum2 as nat) && adler < 0x1_0000 && sum2 < 0x1_0000
    ensures i <= |buf| < i + NMAX && a < 0x1_0000 && b < 0x1_0000
    ensures Reduce(Sums(a as nat, b as nat)) == Reduce(Fold(start, buf[..i]))
    ensures i > 0 ==> Sums(a as nat, b as nat) == Reduce(Fold(start, buf[..i]))
  {
    i, a, b := 0, adler, sum2;
    assert buf[..0] == [];
    while |buf| - i >= NMAX
      invariant i <= |buf| && a < 0x1_0000 && b < 0x1_0000
      invariant Reduce(Sums(a as nat, b as nat)) == Reduce(Fold(start, buf[..i]))
      invariant i > 0 ==> Sums(a as nat, b as nat) == Reduce(Fold(start, buf[..i]))
    {
      ghost var s, from := Sums(a as nat, b as nat), i;
      var n := NMAX / 16;
      while n > 0
        invariant n <= NMAX / 16 && i == from + NMAX - 16 * n
        invariant Running(s, buf, from, i, a, b)
      {
        a, b := Do16(buf, i, a, b, s, from);
        i := i + 16;
        n := n - 1;
      }
      a, b := FinishRun(buf, i, a, b, s, from, start);
    }
  }

  /** The bytes after the last full block: rounds of 16, then single bytes, one reduction. */
  method Rest(buf: seq<byte>, i0: nat, adler: uint32, sum2: uint32, ghost start: Sums) returns (a: uint32, b: uint32)
    requires i0 < |buf| && |buf| - i0 < NMAX && adler < 0x1_0000 && sum2 < 0x1_0000
    requires Reduce(Sums(adler as nat, sum2 as nat)) == Reduce(Fold(start, buf[..i0]))
    ensures Sums(a as nat, b as nat) == Reduce(Fold(start, buf))
  {
    ghost var s := Sums(adler as nat, sum2 as nat);
    var i := i0;
    a, b := adler, sum2;
    while |buf| - i >= 16
      invariant i0 <= i <= |buf| && Running(s, buf, i0, i, a, b)
    {
      a, b := Do16(buf, i, a, b, s, i0);
      i := i + 16;
    }
    a, b := Tail(buf, i, a, b, s, i0);
    a, b := FinishRun(buf, |buf|, a, b, s, i0, start);
    assert buf[..|buf|] == buf;
  }

  datatype Buffer = Null | Bytes(bytes: seq<byte>)

  /** adler32.  For a running checksum the result is the RFC's; for any other starting word
      both halves still agree with it modulo 65521.  A null buffer yields the initial value. */
  method Adler32(adler0: uint32, buf: Buffer) returns (r: uint32)
    ensures buf.Null? ==> r == 1
    ensures buf.Bytes? ==> Reduce(Unpack(r)) == Reduce(Fold(Unpack(adler0), buf.bytes))
    ensures buf.Bytes? && IsChecksum(adler0) ==> r == Checksum(adler0, buf.bytes)
  {
    hide Unpack, Reduce, Fold, Checksum;
    if buf.Null? { return 1; }
    var a, b := Sum(adler0, buf.bytes);
    ghost var s := Sums(a as nat, b as nat);
    r := a + b * 0x1_0000;
    assert r == Pack(s);
    PackUnpack(s);
    if IsChecksum(adler0) { ReducedChecksum(adler0, buf.bytes, s); }
  }

  lemma ReducedChecksum(adler: uint32, buf: seq<byte>, s: Sums)
    requires IsChecksum(adler) && s.a < 0x1_0000 && s.b < 0x1_0000
    requires s == Reduce(Fold(Unpack(adler), buf))
    ensures Pack(s) == Checksum(adler, buf)
  {
    hide Unpack, Fold;
    FoldReduced(Unpack(adler), buf);
    var f := Fold(Unpack(adler), buf);
    SmallMod(f.a);
    SmallMod(f.b);
  }

  method Sum(adler0: uint32, bytes: seq<byte>) returns (a: uint32, b: uint32)
    ensures a < 0x1_0000 && b < 0x1_0000
    ensures Reduce(Sums(a as nat, b as nat)) == Reduce(Fold(Unpack(adler0), bytes))
    ensures IsChecksum(adler0) ==> Sums(a as nat, b as nat) == Reduce(Fold(Unpack(adler0), bytes))
  {
    hide Unpack, Reduce, Fold;
    ghost var start := Unpack(adler0);
    a, b := Split(adler0);
    if |bytes| == 1 {
      assert bytes == [bytes[0]];
      a, b := OneByte(a, b, bytes[0]);
    } else if |bytes| < 16 {
      a, b := Short(a, b, bytes);
      ReduceTwice(Fold(start, bytes));
    } else {
      var i;
      i, a, b := Blocks(bytes, a, b, start);
      if i < |bytes| {
        a, b := Rest(bytes, i, a, b, start);
      } else {
        assert bytes[..i] == bytes;
      }
      ReduceTwice(Fold(start, bytes));
    }
  }

  lemma ReduceTwice(s: Sums)
    ensures Reduce(Reduce(s)) == Reduce(s) && Reduce(s).a < BASE && Reduce(s).b < BASE
  {
  }

  method Split(adler: uint32) returns (a: uint32, b: uint32)
    ensures Sums(a as nat, b as nat) == Unpack(adler)
  {
    b := adler / 0x1_0000;
    a := adler % 0x1_0000;
  }

  lemma SmallMod(x: nat)
    requires x < 2 * BASE
    ensures x % BASE == if x >= BASE then x - BASE else x
  {
  }

  method OneByte(adler: uint32, sum2: uint32, x: byte) returns (a: uint32, b: uint32)
    requires adler < 0x1_0000 && sum2 < 0x1_0000
    ensures a < 0x1_0000 && b < 0x1_0000
    ensures var s := Sums(adler as nat, sum2 as nat);
            && Reduce(Sums(a as nat, b as nat)) == Reduce(Fold(s, [x]))
            && (s.a < BASE && s.b < BASE ==> Sums(a as nat, b as nat) == Reduce(Fold(s, [x])))
  {
    ghost var s := Sums(adler as nat, sum2 as nat);
    assert Fold(s, [x]) == Step(s, x);
    a := adler + x as uint32;
    SmallMod(a as nat);
    if a >= 65521 { a := a - 65521; }
    b := sum2 + a;
    SmallMod(a as nat);
    if b >= 65521 {
      ModShift(b as nat - BASE, 1, b as nat);
      b := b - 65521;
    }
    if s.a < BASE && s.b < BASE { SmallMod(b as nat); }
  }

  method Short(adler: uint32, sum2: uint32, bytes: seq<byte>) returns (a: uint32, b: uint32)
    requires adler < 0x1_0000 && sum2 < 0x1_0000 && |bytes| < 16
    ensures Sums(a as nat, b as nat) == Reduce(Fold(Sums(adler as nat, sum2 as nat), bytes))
  {
    hide Raw, Fold;
    ghost var s := Sums(adler as nat, sum2 as nat);
    assert bytes[0..0] == [] && Raw(s, []) == s by { RawNothing(s); }
    a, b := Tail(bytes, 0, adler, sum2, s, 0);
    assert bytes[0..|bytes|] == bytes;
    ShortFits(s, bytes);
    RawReduces(s, s, bytes);
    SmallMod(a as nat);
    if a >= 65521 { a := a - 65521; }
    b := Mod4(b);
  }
}
