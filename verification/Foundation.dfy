/**
 Package integrity: the hand-written SHA-256 against a functional rendering of FIPS 180-4
 (sections 5.1.1 and 6.2.2), its padding, its constants, and the digest comparison.

 The loops are proved for any machine of words; `REAL` is the 32-bit one.
 */
module Foundation {
  import opened Primes
  import opened Word32

  type byte = b: int | 0 <= b < 256

  datatype Quad = Quad(b0: byte, b1: byte, b2: byte, b3: byte)

  datatype Machine<!W> = Machine(
    roundConstant: nat -> W, initialHash: nat -> W, fromBytes: Quad -> W, toBytes: W -> Quad,
    add: (W, W) -> W, and: (W, W) -> W, xor: (W, W) -> W, not: W -> W,
    rotr: (W, nat) -> W, shr: (W, nat) -> W)

  /** The 32-bit machine; its words are numbers below 2^32, and its bitwise operations work on their bits. */
  const REAL: Machine<uint32> := Machine(
    RoundConstant32, InitialHash32, FromBytes32, ToBytes32, Add32, And32, Xor32, Not32, RotateRight32, ShiftRight32)

  function RoundConstant32(t: nat): uint32 { if t < |K| then K[t].fraction else 0 }

  function InitialHash32(t: nat): uint32 { if t < |H0| then H0[t].fraction else 0 }

  function FromBytes32(q: Quad): uint32 { q.b0 * 0x100_0000 + q.b1 * 0x1_0000 + q.b2 * 0x100 + q.b3 }

  function ToBytes32(x: uint32): Quad { Quad(x / 0x100_0000, x / 0x1_0000 % 256, x / 0x100 % 256, x % 256) }

  // ---------------------------------------------------------------- the constants

  /** The first 32 bits `fraction` of the fractional part of a root of `prime` whose integer part is `whole`. */
  datatype Root = Root(prime: int, whole: int, fraction: uint32) {
    function Scaled(): int { whole * 0x1_0000_0000 + fraction }
  }

  predicate IsCubeRoot(r: Root) {
    var x, n := r.Scaled(), r.prime * 0x1_0000_0000_0000_0000_0000_0000;
    x * x * x <= n < (x + 1) * (x + 1) * (x + 1)
  }

  predicate IsSquareRoot(r: Root) {
    var x, n := r.Scaled(), r.prime * 0x1_0000_0000_0000_0000;
    x * x <= n < (x + 1) * (x + 1)
  }

  /** Sections 4.2.2 and 5.3.3 say what the constants are; the types hold the tables to it. */
  type CubeRoot = r: Root | IsCubeRoot(r) && r.prime < 361 && Sieved(r.prime) witness Root(2, 1, 0x428a2f98)
  type SquareRoot = r: Root | IsSquareRoot(r) witness Root(2, 1, 0x6a09e667)

  const K0: seq<CubeRoot> := [
    Root(2, 1, 0x428a2f98), Root(3, 1, 0x71374491), Root(5, 1, 0xb5c0fbcf), Root(7, 1, 0xe9b5dba5),
    Root(11, 2, 0x3956c25b), Root(13, 2, 0x59f111f1), Root(17, 2, 0x923f82a4), Root(19, 2, 0xab1c5ed5)]
  const K1: seq<CubeRoot> := [
    Root(23, 2, 0xd807aa98), Root(29, 3, 0x12835b01), Root(31, 3, 0x243185be), Root(37, 3, 0x550c7dc3),
    Root(41, 3, 0x72be5d74), Root(43, 3, 0x80deb1fe), Root(47, 3, 0x9bdc06a7), Root(53, 3, 0xc19bf174)]
  const K2: seq<CubeRoot> := [
    Root(59, 3, 0xe49b69c1), Root(61, 3, 0xefbe4786), Root(67, 4, 0x0fc19dc6), Root(71, 4, 0x240ca1cc),
    Root(73, 4, 0x2de92c6f), Root(79, 4, 0x4a7484aa), Root(83, 4, 0x5cb0a9dc), Root(89, 4, 0x76f988da)]
  const K3: seq<CubeRoot> := [
    Root(97, 4, 0x983e5152), Root(101, 4, 0xa831c66d), Root(103, 4, 0xb00327c8), Root(107, 4, 0xbf597fc7),
    Root(109, 4, 0xc6e00bf3), Root(113, 4, 0xd5a79147), Root(127, 5, 0x06ca6351), Root(131, 5, 0x14292967)]
  const K4: seq<CubeRoot> := [
    Root(137, 5, 0x27b70a85), Root(139, 5, 0x2e1b2138), Root(149, 5, 0x4d2c6dfc), Root(151, 5, 0x53380d13),
    Root(157, 5, 0x650a7354), Root(163, 5, 0x766a0abb), Root(167, 5, 0x81c2c92e), Root(173, 5, 0x92722c85)]
  const K5: seq<CubeRoot> := [
    Root(179, 5, 0xa2bfe8a1), Root(181, 5, 0xa81a664b), Root(191, 5, 0xc24b8b70), Root(193, 5, 0xc76c51a3),
    Root(197, 5, 0xd192e819), Root(199, 5, 0xd6990624), Root(211, 5, 0xf40e3585), Root(223, 6, 0x106aa070)]
  const K6: seq<CubeRoot> := [
    Root(227, 6, 0x19a4c116), Root(229, 6, 0x1e376c08), Root(233, 6, 0x2748774c), Root(239, 6, 0x34b0bcb5),
    Root(241, 6, 0x391c0cb3), Root(251, 6, 0x4ed8aa4a), Root(257, 6, 0x5b9cca4f), Root(263, 6, 0x682e6ff3)]
  const K7: seq<CubeRoot> := [
    Root(269, 6, 0x748f82ee), Root(271, 6, 0x78a5636f), Root(277, 6, 0x84c87814), Root(281, 6, 0x8cc70208),
    Root(283, 6, 0x90befffa), Root(293, 6, 0xa4506ceb), Root(307, 6, 0xbef9a3f7), Root(311, 6, 0xc67178f2)]
  const K: seq<CubeRoot> := K0 + K1 + K2 + K3 + K4 + K5 + K6 + K7

  const H0: seq<SquareRoot> := [
    Root(2, 1, 0x6a09e667), Root(3, 1, 0xbb67ae85), Root(5, 2, 0x3c6ef372), Root(7, 2, 0xa54ff53a),
    Root(11, 3, 0x510e527f), Root(13, 3, 0x9b05688c), Root(17, 4, 0x1f83d9ab), Root(19, 4, 0x5be0cd19)]

  // ---------------------------------------------------------------- FIPS 180-4, functionally

  function Ch<W>(m: Machine<W>, x: W, y: W, z: W): W { m.xor(m.and(x, y), m.and(m.not(x), z)) }

  function Maj<W>(m: Machine<W>, x: W, y: W, z: W): W { m.xor(m.xor(m.and(x, y), m.and(x, z)), m.and(y, z)) }

  function Xor3<W>(m: Machine<W>, x: W, y: W, z: W): W { m.xor(m.xor(x, y), z) }

  function BigSigma0<W>(m: Machine<W>, x: W): W { Xor3(m, m.rotr(x, 2), m.rotr(x, 13), m.rotr(x, 22)) }

  function BigSigma1<W>(m: Machine<W>, x: W): W { Xor3(m, m.rotr(x, 6), m.rotr(x, 11), m.rotr(x, 25)) }

  function SmallSigma0<W>(m: Machine<W>, x: W): W { Xor3(m, m.rotr(x, 7), m.rotr(x, 18), m.shr(x, 3)) }

  function SmallSigma1<W>(m: Machine<W>, x: W): W { Xor3(m, m.rotr(x, 17), m.rotr(x, 19), m.shr(x, 10)) }

  function Sum4<W>(m: Machine<W>, x: W, y: W, z: W, u: W): W { m.add(m.add(m.add(x, y), z), u) }

  /** W_t of a block; the four terms are added in the source's order, see `StandardOrder`. */
  function Schedule<W>(m: Machine<W>, block: seq<byte>, t: nat): W
    requires |block| == 64 && t < 64
  {
    if t < 16 then m.fromBytes(Quad(block[4 * t], block[4 * t + 1], block[4 * t + 2], block[4 * t + 3]))
    else Sum4(m, Schedule(m, block, t - 16), SmallSigma0(m, Schedule(m, block, t - 15)),
              Schedule(m, block, t - 7), SmallSigma1(m, Schedule(m, block, t - 2)))
  }

  datatype Registers<+W> = Registers(a: W, b: W, c: W, d: W, e: W, f: W, g: W, h: W)

  function Round<W>(m: Machine<W>, r: Registers<W>, k: W, w: W): Registers<W> {
    var t1 := m.add(Sum4(m, r.h, BigSigma1(m, r.e), Ch(m, r.e, r.f, r.g), k), w);
    var t2 := m.add(BigSigma0(m, r.a), Maj(m, r.a, r.b, r.c));
    Registers(m.add(t1, t2), r.a, r.b, r.c, m.add(r.d, t1), r.e, r.f, r.g)
  }

  function Rounds<W>(m: Machine<W>, r: Registers<W>, block: seq<byte>, t: nat): Registers<W>
    requires |block| == 64 && t <= 64
  {
    if t == 0 then r else Round(m, Rounds(m, r, block, t - 1), m.roundConstant(t - 1), Schedule(m, block, t - 1))
  }

  function Plus<W>(m: Machine<W>, r: Registers<W>, s: Registers<W>): Registers<W> {
    Registers(m.add(r.a, s.a), m.add(r.b, s.b), m.add(r.c, s.c), m.add(r.d, s.d),
              m.add(r.e, s.e), m.add(r.f, s.f), m.add(r.g, s.g), m.add(r.h, s.h))
  }

  /** There are as many rounds as bytes in a block. */
  function Compress<W>(m: Machine<W>, r: Registers<W>, block: seq<byte>): Registers<W>
    requires |block| == 64
  {
    Plus(m, r, Rounds(m, r, block, |block|))
  }

  function Initial<W>(m: Machine<W>): Registers<W> {
    Registers(m.initialHash(0), m.initialHash(1), m.initialHash(2), m.initialHash(3),
              m.initialHash(4), m.initialHash(5), m.initialHash(6), m.initialHash(7))
  }

  function Block(message: seq<byte>, n: nat): (b: seq<byte>)
    requires 64 * n + 64 <= |message|
    ensures |b| == 64
  {
    message[64 * n..64 * n + 64]
  }

  /** The hash value after the first n blocks. */
  function HashBlocks<W>(m: Machine<W>, message: seq<byte>, n: nat): Registers<W>
    requires 64 * n <= |message|
  {
    if n == 0 then Initial(m) else Compress(m, HashBlocks(m, message, n - 1), Block(message, n - 1))
  }

  /** A number below 2^64 in eight bytes, most significant first: its value is read back by `Number`. */
  function BigEndian(n: nat, k: nat): (r: seq<byte>)
    ensures |r| == k
  {
    if k == 0 then [] else BigEndian(n / 256, k - 1) + [n % 256]
  }

  function Number(s: seq<byte>): nat {
    if s == [] then 0 else 256 * Number(s[..|s| - 1]) + s[|s| - 1]
  }

  function Zeros(k: nat): (r: seq<byte>)
    ensures |r| == k && forall i | 0 <= i < k :: r[i] == 0
  {
    if k == 0 then [] else Zeros(k - 1) + [0]
  }

  /** The zero bytes between the marker and the length. */
  function ZeroCount(n: nat): nat { (55 - n) % 64 }

  const TWO_64: nat := 0x1_0000_0000_0000_0000

  /** Section 5.1.1; for messages under 2^61 bytes the length field holds the length in bits exactly. */
  function Pad(data: seq<byte>): (r: seq<byte>)
    ensures |r| == |data| + 9 + ZeroCount(|data|)
  {
    data + [0x80] + Zeros(ZeroCount(|data|)) + BigEndian(8 * |data| % TWO_64, 8)
  }

  lemma PaddedLength(n: nat)
    ensures (n + 9 + ZeroCount(n)) % 64 == 0 && ZeroCount(n) < 64
  {
  }

  function QuadBytes(q: Quad): (r: seq<byte>)
    ensures |r| == 4
  {
    [q.b0, q.b1, q.b2, q.b3]
  }

  function BytesOf<W>(m: Machine<W>, words: seq<W>): (d: seq<byte>)
    ensures |d| == 4 * |words|
  {
    if words == [] then []
    else
      var last := |words| - 1;
      BytesOf(m, words[..last]) + QuadBytes(m.toBytes(words[last]))
  }

  function Words<W>(r: Registers<W>): seq<W> { [r.a, r.b, r.c, r.d, r.e, r.f, r.g, r.h] }

  function Digest<W>(m: Machine<W>, data: seq<byte>): (d: seq<byte>)
    ensures |d| == 32
  {
    BytesOf(m, Words(HashBlocks(m, Pad(data), |Pad(data)| / 64)))
  }

  // ---------------------------------------------------------------- the procedure

  lemma ZeroCountReached(n: nat, k: nat)
    requires k <= ZeroCount(n)
    ensures (n + 1 + k) % 64 == 56 <==> k == ZeroCount(n)
  {
    var z := ZeroCount(n);
    assert (n + 1 + z) % 64 == 56;
    assert n + 1 + z == n + 1 + k + (z - k);
  }

  method PadMessage(data: seq<byte>) returns (message: seq<byte>)
    ensures message == Pad(data)
  {
    var bitlen := 8 * |data| % TWO_64;
    message := data + [0x80];
    ghost var k: nat := 0;
    PaddedLength(|data|);
    ZeroCountReached(|data|, 0);
    while |message| % 64 != 56
      invariant k <= ZeroCount(|data|) && message == data + [0x80] + Zeros(k)
      invariant |message| % 64 == 56 <==> k == ZeroCount(|data|)
      decreases ZeroCount(|data|) - k
    {
      ZeroCountReached(|data|, k + 1);
      message, k := message + [0], k + 1;
    }
    message := message + BigEndian(bitlen, 8);
  }

  method FillSchedule<W>(m: Machine<W>, block: seq<byte>) returns (w: array<W>)
    requires |block| == 64
    ensures fresh(w) && w.Length == 64 && forall t | 0 <= t < 64 :: w[t] == Schedule(m, block, t)
  {
    var zero := m.roundConstant(0);
    w := new W[64](_ => zero);
    LoadBlock(m, block, w);
    ExtendSchedule(m, block, w);
  }

  method LoadBlock<W>(m: Machine<W>, block: seq<byte>, w: array<W>)
    requires |block| == 64 && w.Length == 64
    modifies w
    ensures forall t | 0 <= t < 16 :: w[t] == Schedule(m, block, t)
  {
    for i := 0 to 16
      invariant forall t | 0 <= t < i :: w[t] == Schedule(m, block, t)
    {
      w[i] := m.fromBytes(Quad(block[4 * i], block[4 * i + 1], block[4 * i + 2], block[4 * i + 3]));
    }
  }

  method ExtendSchedule<W>(m: Machine<W>, block: seq<byte>, w: array<W>)
    requires |block| == 64 && w.Length == 64 && forall t | 0 <= t < 16 :: w[t] == Schedule(m, block, t)
    modifies w
    ensures forall t | 0 <= t < 64 :: w[t] == Schedule(m, block, t)
  {
    for i := 16 to 64
      invariant forall t | 0 <= t < i :: w[t] == Schedule(m, block, t)
    {
      var s0 := m.xor(m.xor(m.rotr(w[i - 15], 7), m.rotr(w[i - 15], 18)), m.shr(w[i - 15], 3));
      var s1 := m.xor(m.xor(m.rotr(w[i - 2], 17), m.rotr(w[i - 2], 19)), m.shr(w[i - 2], 10));
      w[i] := m.add(m.add(m.add(w[i - 16], s0), w[i - 7]), s1);
    }
  }

  ghost function State<W>(h: array<W>): Registers<W>
    requires h.Length == 8
    reads h
  {
    Registers(h[0], h[1], h[2], h[3], h[4], h[5], h[6], h[7])
  }

  method ProcessBlock<W>(m: Machine<W>, block: seq<byte>, hash: array<W>)
    requires |block| == 64 && hash.Length == 8
    modifies hash
    ensures State(hash) == Compress(m, old(State(hash)), block)
  {
    ghost var start := State(hash);
    var r := HashBlock(m, block, hash);
    AddRegisters(m, hash, r);
  }

  method HashBlock<W>(m: Machine<W>, block: seq<byte>, hash: array<W>) returns (r: Registers<W>)
    requires |block| == 64 && hash.Length == 8
    ensures Plus(m, State(hash), r) == Compress(m, State(hash), block)
  {
    var w := FillSchedule(m, block);
    r := RunRounds(m, block, w, Registers(hash[0], hash[1], hash[2], hash[3], hash[4], hash[5], hash[6], hash[7]));
  }

  method RunRounds<W>(m: Machine<W>, block: seq<byte>, w: array<W>, start: Registers<W>) returns (r: Registers<W>)
    requires |block| == 64 && w.Length == 64 && forall t | 0 <= t < 64 :: w[t] == Schedule(m, block, t)
    ensures r == Rounds(m, start, block, |block|)
  {
    var a, b, c, d, e, f, g, hh := start.a, start.b, start.c, start.d, start.e, start.f, start.g, start.h;
    for i := 0 to |block|
      invariant Registers(a, b, c, d, e, f, g, hh) == Rounds(m, start, block, i)
    {
      var s1 := m.xor(m.xor(m.rotr(e, 6), m.rotr(e, 11)), m.rotr(e, 25));
      var ch := m.xor(m.and(e, f), m.and(m.not(e), g));
      var t1 := m.add(m.add(m.add(m.add(hh, s1), ch), m.roundConstant(i)), w[i]);
      var s0 := m.xor(m.xor(m.rotr(a, 2), m.rotr(a, 13)), m.rotr(a, 22));
      var maj := m.xor(m.xor(m.and(a, b), m.and(a, c)), m.and(b, c));
      var t2 := m.add(s0, maj);
      hh := g;
      g := f;
      f := e;
      e := m.add(d, t1);
      d := c;
      c := b;
      b := a;
      a := m.add(t1, t2);
    }
    r := Registers(a, b, c, d, e, f, g, hh);
  }

  method AddRegisters<W>(m: Machine<W>, hash: array<W>, r: Registers<W>)
    requires hash.Length == 8
    modifies hash
    ensures State(hash) == Plus(m, old(State(hash)), r)
  {
    hash[0] := m.add(hash[0], r.a);
    hash[1] := m.add(hash[1], r.b);
    hash[2] := m.add(hash[2], r.c);
    hash[3] := m.add(hash[3], r.d);
    hash[4] := m.add(hash[4], r.e);
    hash[5] := m.add(hash[5], r.f);
    hash[6] := m.add(hash[6], r.g);
    hash[7] := m.add(hash[7], r.h);
  }

  method WordsToBytes<W>(m: Machine<W>, words: seq<W>) returns (out: seq<byte>)
    ensures out == BytesOf(m, words)
  {
    out := [];
    for i := 0 to |words|
      invariant out == BytesOf(m, words[..i])
    {
      assert words[..i + 1][..i] == words[..i];
      out := out + QuadBytes(m.toBytes(words[i]));
    }
    assert words[..|words|] == words;
  }

  lemma HashWords<W>(hash: array<W>)
    requires hash.Length == 8
    ensures hash[..] == Words(State(hash))
  {
    var s := hash[..];
    assert |s| == 8 && s[0] == hash[0] && s[1] == hash[1] && s[2] == hash[2] && s[3] == hash[3];
    assert s[4] == hash[4] && s[5] == hash[5] && s[6] == hash[6] && s[7] == hash[7];
  }

  method HashAll<W>(m: Machine<W>, message: seq<byte>, hash: array<W>)
    requires |message| % 64 == 0 && hash.Length == 8 && State(hash) == Initial(m)
    modifies hash
    ensures State(hash) == HashBlocks(m, message, |message| / 64)
  {
    for n := 0 to |message| / 64
      invariant State(hash) == HashBlocks(m, message, n)
    {
      ProcessBlock(m, message[64 * n..64 * n + 64], hash);
    }
  }

  function Joined(message: seq<byte>, n: nat): (s: seq<byte>)
    requires 64 * n <= |message|
  {
    if n == 0 then [] else Joined(message, n - 1) + Block(message, n - 1)
  }

  /** The blocks are the message, cut into pieces of 64 bytes. */
  lemma {:induction false} BlocksAreTheMessage(message: seq<byte>, n: nat)
    requires 64 * n <= |message|
    ensures Joined(message, n) == message[..64 * n]
  {
    if n > 0 {
      BlocksAreTheMessage(message, n - 1);
      assert message[..64 * n] == message[..64 * (n - 1)] + message[64 * (n - 1)..64 * n];
    }
  }

  method HashMessage<W>(m: Machine<W>, data: seq<byte>) returns (out: seq<byte>)
    ensures out == Digest(m, data)
  {
    var hash := new W[8](i requires 0 <= i < 8 => m.initialHash(i));
    var message := PadMessage(data);
    PaddedLength(|data|);
    HashAll(m, message, hash);
    HashWords(hash);
    out := WordsToBytes(m, hash[..]);
  }

  method Sha256(data: seq<byte>) returns (out: seq<byte>)
    ensures out == Digest(REAL, data)
  {
    out := HashMessage(REAL, data);
  }

  // ---------------------------------------------------------------- the words' functions

  ghost predicate AddsInAnyOrder<W(!new)>(m: Machine<W>) {
    && (forall x, y :: m.add(x, y) == m.add(y, x))
    && (forall x, y, z :: m.add(m.add(x, y), z) == m.add(x, m.add(y, z)))
  }

  lemma RealAddsInAnyOrder()
    ensures AddsInAnyOrder(REAL)
  {
    forall x: uint32, y: uint32, z: uint32 ensures Add32(Add32(x, y), z) == Add32(x, Add32(y, z)) {
      AddAssociates(x, y, z);
    }
  }

  lemma AddAssociates(x: uint32, y: uint32, z: uint32)
    ensures Add32(Add32(x, y), z) == Add32(x, Add32(y, z))
  {
  }

  /** Section 6.2.2 writes the schedule's terms in the opposite order; to such an addition, that is the same sum. */
  lemma StandardOrder<W(!new)>(m: Machine<W>, block: seq<byte>, t: nat)
    requires AddsInAnyOrder(m) && |block| == 64 && 16 <= t < 64
    ensures Schedule(m, block, t) ==
      Sum4(m, SmallSigma1(m, Schedule(m, block, t - 2)), Schedule(m, block, t - 7),
           SmallSigma0(m, Schedule(m, block, t - 15)), Schedule(m, block, t - 16))
  {
    Reversed(m, Schedule(m, block, t - 16), SmallSigma0(m, Schedule(m, block, t - 15)),
             Schedule(m, block, t - 7), SmallSigma1(m, Schedule(m, block, t - 2)));
  }

  lemma Reversed<W(!new)>(m: Machine<W>, x: W, y: W, z: W, u: W)
    requires AddsInAnyOrder(m)
    ensures Sum4(m, x, y, z, u) == Sum4(m, u, z, y, x)
  {
    assert m.add(m.add(x, y), z) == m.add(z, m.add(y, x)) == m.add(m.add(z, y), x);
    assert m.add(u, m.add(m.add(z, y), x)) == m.add(m.add(u, m.add(z, y)), x) == m.add(m.add(m.add(u, z), y), x);
  }

  /** Ch takes each bit from y where x has a one and from z elsewhere; Maj takes the bit that two of three have. */
  lemma ChAndMajByBits(x: uint32, y: uint32, z: uint32, i: nat)
    requires i < 32
    ensures Bit(Ch(REAL, x, y, z), i) <==> if Bit(x, i) then Bit(y, i) else Bit(z, i)
    ensures Bit(Maj(REAL, x, y, z), i) <==>
      (Bit(x, i) && Bit(y, i)) || (Bit(x, i) && Bit(z, i)) || (Bit(y, i) && Bit(z, i))
  {
    ChByBits(x, y, z, i);
    MajByBits(x, y, z, i);
  }

  lemma ChByBits(x: uint32, y: uint32, z: uint32, i: nat)
    requires i < 32
    ensures Bit(Ch(REAL, x, y, z), i) <==> if Bit(x, i) then Bit(y, i) else Bit(z, i)
  {
    var xy, other := And32(x, y), And32(Not32(x), z);
    assert Bit(xy, i) <==> Bit(x, i) && Bit(y, i) by { BitsOfAndXor(x, y, i); }
    assert Bit(other, i) <==> !Bit(x, i) && Bit(z, i) by {
      BitsOfNot(x, i);
      BitsOfAndXor(Not32(x), z, i);
    }
    BitsOfAndXor(xy, other, i);
  }

  lemma MajByBits(x: uint32, y: uint32, z: uint32, i: nat)
    requires i < 32
    ensures Bit(Maj(REAL, x, y, z), i) <==>
      (Bit(x, i) && Bit(y, i)) || (Bit(x, i) && Bit(z, i)) || (Bit(y, i) && Bit(z, i))
  {
    var xy, xz, yz := And32(x, y), And32(x, z), And32(y, z);
    assert Bit(xy, i) <==> Bit(x, i) && Bit(y, i) by { BitsOfAndXor(x, y, i); }
    assert Bit(xz, i) <==> Bit(x, i) && Bit(z, i) by { BitsOfAndXor(x, z, i); }
    assert Bit(yz, i) <==> Bit(y, i) && Bit(z, i) by { BitsOfAndXor(y, z, i); }
    BitOfXors(xy, xz, yz, i);
  }

  lemma BitOfXors(x: uint32, y: uint32, z: uint32, i: nat)
    requires i < 32
    ensures Bit(Xor32(Xor32(x, y), z), i) <==> ((Bit(x, i) != Bit(y, i)) != Bit(z, i))
  {
    BitsOfAndXor(x, y, i);
    BitsOfAndXor(Xor32(x, y), z, i);
  }

  // ---------------------------------------------------------------- what the padding keeps

  function Power256(k: nat): nat { if k == 0 then 1 else 256 * Power256(k - 1) }

  lemma {:induction false} NumberOfBigEndian(n: nat, k: nat)
    requires n < Power256(k)
    ensures Number(BigEndian(n, k)) == n
    decreases k
  {
    if k > 0 {
      var s := BigEndian(n, k);
      assert s[..|s| - 1] == BigEndian(n / 256, k - 1);
      NumberOfBigEndian(n / 256, k - 1);
    }
  }

  lemma EightBytes()
    ensures Power256(8) == TWO_64
  {
    assert Power256(1) == 256 && Power256(2) == 0x1_0000 && Power256(3) == 0x100_0000 && Power256(4) == 0x1_0000_0000;
    assert Power256(5) == 0x100_0000_0000 && Power256(6) == 0x1_0000_0000_0000 && Power256(7) == 0x100_0000_0000_0000;
  }

  /** The padded length is the least multiple of 64 with room for the marker and the length. */
  lemma PaddingIsShortest(data: seq<byte>, n: nat)
    requires n % 64 == 0 && n >= |data| + 9
    ensures |Pad(data)| % 64 == 0 && |Pad(data)| <= n
  {
    PaddedLength(|data|);
    LeastMultiple(|data| + 9, ZeroCount(|data|), n);
  }

  lemma LeastMultiple(least: nat, gap: nat, n: nat)
    requires (least + gap) % 64 == 0 && gap < 64 && n % 64 == 0 && n >= least
    ensures n >= least + gap
  {
  }

  lemma DropsTo<T>(s: seq<T>, t: seq<T>)
    ensures (s + t)[|s|..] == t && (s + t)[..|s|] == s
  {
  }

  lemma LastEight(data: seq<byte>)
    ensures |Pad(data)| >= 8 && Pad(data)[|Pad(data)| - 8..] == BigEndian(8 * |data| % TWO_64, 8)
  {
    DropsTo(data + [0x80] + Zeros(ZeroCount(|data|)), BigEndian(8 * |data| % TWO_64, 8));
  }

  lemma FieldHolds(n: nat, k: nat)
    requires k == 8 && n < TWO_64
    ensures Number(BigEndian(n % TWO_64, k)) == n
  {
    assert n % TWO_64 == n;
    EightBytes();
    NumberOfBigEndian(n, k);
  }

  /** The last eight bytes of a padded message say how long the message is. */
  lemma LengthIsStored(data: seq<byte>, padded: seq<byte>)
    requires 8 * |data| < TWO_64 && padded == Pad(data)
    ensures |padded| >= 8 && Number(padded[|padded| - 8..]) == 8 * |data|
  {
    LastEight(data);
    FieldHolds(8 * |data|, 8);
  }

  /** The message is a prefix of what it is padded to, so no two messages pad alike. */
  lemma PaddingIsInjective(data1: seq<byte>, data2: seq<byte>)
    requires 8 * |data1| < TWO_64 && 8 * |data2| < TWO_64
    requires Pad(data1) == Pad(data2)
    ensures data1 == data2
  {
    var padded := Pad(data1);
    LengthIsStored(data1, padded);
    LengthIsStored(data2, padded);
    PrefixIsKept(data1);
    PrefixIsKept(data2);
  }

  lemma PrefixIsKept(data: seq<byte>)
    ensures Pad(data)[..|data|] == data
  {
    var tail := [0x80] + Zeros(ZeroCount(|data|)) + BigEndian(8 * |data| % TWO_64, 8);
    assert Pad(data) == data + tail;
    DropsTo(data, tail);
  }

  // ---------------------------------------------------------------- what the digest's bytes say

  lemma FourBytes(q: Quad)
    ensures Number(QuadBytes(q)) == FromBytes32(q)
  {
    var s := QuadBytes(q);
    assert s[..3][..2] == s[..2] && s[..2][..1] == s[..1] && s[..1][..0] == [];
    assert Number(s[..1]) == q.b0;
    assert Number(s[..2]) == 256 * q.b0 + q.b1;
    assert Number(s[..3]) == 256 * Number(s[..2]) + q.b2;
  }

  /** Words are loaded from four bytes and stored in four bytes, most significant first. */
  lemma WordsAreBigEndian(q: Quad, x: uint32)
    ensures FromBytes32(q) == Number(QuadBytes(q)) && Number(QuadBytes(ToBytes32(x))) == x
  {
    FourBytes(q);
    FourBytes(ToBytes32(x));
    Split(x);
  }

  lemma Split(x: uint32)
    ensures FromBytes32(ToBytes32(x)) == x
  {
    assert x == 256 * (x / 0x100) + x % 256;
    assert x / 0x100 == 256 * (x / 0x1_0000) + x / 0x100 % 256 by { TwiceDivided(x, 0x100); }
    assert x / 0x1_0000 == 256 * (x / 0x100_0000) + x / 0x1_0000 % 256 by { TwiceDivided(x, 0x1_0000); }
  }

  lemma TwiceDivided(x: nat, d: nat)
    requires d == 0x100 || d == 0x1_0000
    ensures x / d / 256 == x / (d * 256)
  {
  }

  /** The number whose digits in base 2^32 are the words, most significant first. */
  function NumberOfWords(words: seq<uint32>): nat {
    if words == [] then 0 else 0x1_0000_0000 * NumberOfWords(words[..|words| - 1]) + words[|words| - 1]
  }

  lemma NumberOfFourMore(s: seq<byte>, q: Quad)
    ensures Number(s + QuadBytes(q)) == 0x1_0000_0000 * Number(s) + FromBytes32(q)
  {
    var one, two, three := s + [q.b0], s + [q.b0, q.b1], s + [q.b0, q.b1, q.b2];
    var four := s + QuadBytes(q);
    assert one[..|s|] == s && two[..|s| + 1] == one && three[..|s| + 2] == two && four[..|s| + 3] == three;
    assert Number(one) == 256 * Number(s) + q.b0;
    assert Number(two) == 256 * Number(one) + q.b1;
    assert Number(three) == 256 * Number(two) + q.b2;
    assert Number(four) == 256 * Number(three) + q.b3;
  }

  lemma {:induction false} BytesSpellTheWords(words: seq<uint32>)
    ensures Number(BytesOf(REAL, words)) == NumberOfWords(words)
  {
    if words != [] {
      var last := |words| - 1;
      BytesSpellTheWords(words[..last]);
      NumberOfFourMore(BytesOf(REAL, words[..last]), ToBytes32(words[last]));
      Split(words[last]);
    }
  }

  // ---------------------------------------------------------------- the digest comparison

  /** The lower-case hexadecimal digits, as ASCII. */
  const HEX: seq<bv8> := [48, 49, 50, 51, 52, 53, 54, 55, 56, 57, 97, 98, 99, 100, 101, 102]

  function Hex(bytes: seq<byte>): (s: seq<bv8>)
    ensures |s| == 2 * |bytes|
  {
    if bytes == [] then []
    else
      var last := |bytes| - 1;
      Hex(bytes[..last]) + [HEX[bytes[last] / 16], HEX[bytes[last] % 16]]
  }

  method ToHex(h: seq<byte>) returns (out: seq<bv8>)
    ensures out == Hex(h)
  {
    out := [];
    for i := 0 to |h|
      invariant out == Hex(h[..i])
    {
      assert h[..i + 1][..i] == h[..i];
      out := out + [HEX[h[i] / 16], HEX[h[i] % 16]];
    }
    assert h[..|h|] == h;
  }

  /** The value of a hexadecimal digit, by the ranges of its letters; 16 if it is none. */
  function DigitValue(c: bv8): nat {
    if 48 <= c <= 57 then c as int - 48
    else if 97 <= c <= 102 then c as int - 87
    else 16
  }

  function Base16(s: seq<bv8>): nat {
    if s == [] then 0 else 16 * Base16(s[..|s| - 1]) + DigitValue(s[|s| - 1])
  }

  lemma HexDigit(v: nat)
    requires v < 16
    ensures DigitValue(HEX[v]) == v
  {
  }

  /** Every character is one of 0 to 9 and a to f, and read in base 16 they spell the number the bytes spell. */
  lemma {:induction false} HexSpellsTheBytes(s: seq<byte>)
    ensures Base16(Hex(s)) == Number(s) && forall i | 0 <= i < 2 * |s| :: DigitValue(Hex(s)[i]) < 16
  {
    if s != [] {
      var last := |s| - 1;
      var shorter := Hex(s[..last]);
      HexSpellsTheBytes(s[..last]);
      HexDigit(s[last] / 16);
      HexDigit(s[last] % 16);
      NumberOfTwoMore(shorter, HEX[s[last] / 16], HEX[s[last] % 16]);
    }
  }

  lemma NumberOfTwoMore(s: seq<bv8>, a: bv8, b: bv8)
    ensures Base16(s + [a, b]) == 256 * Base16(s) + 16 * DigitValue(a) + DigitValue(b)
  {
    var one, two := s + [a], s + [a, b];
    assert one[..|s|] == s && two[..|s| + 1] == one;
    assert Base16(one) == 16 * Base16(s) + DigitValue(a);
  }

  /** The text of a digest, read in base 16, is the number that the eight words spell in base 2^32. */
  lemma DigestTextSpellsTheWords(data: seq<byte>)
    ensures var padded := Pad(data);
      Base16(Hex(Digest(REAL, data))) == NumberOfWords(Words(HashBlocks(REAL, padded, |padded| / 64)))
  {
    HexSpellsTheBytes(Digest(REAL, data));
    var padded := Pad(data);
    BytesSpellTheWords(Words(HashBlocks(REAL, padded, |padded| / 64)));
  }

  method Sha256Hex(data: seq<byte>) returns (out: seq<bv8>)
    ensures out == Hex(Digest(REAL, data))
  {
    var h := Sha256(data);
    out := ToHex(h);
  }

  function Lower(c: bv8): bv8 { if 65 <= c <= 90 then c + 32 else c }

  ghost predicate EqualsIgnoringCase(expected: seq<bv8>, actual: seq<bv8>) {
    |expected| == |actual| && forall i | 0 <= i < |actual| :: Lower(expected[i]) == actual[i]
  }

  lemma AccumulatedDifference(diff: bv8, a: bv8, b: bv8)
    ensures diff | (a ^ b) == 0 <==> diff == 0 && a == b
  {
  }

  /** The comparison reads every pair of bytes, whatever it has found so far; only the lengths decide how many. */
  method SameText(expected: seq<bv8>, actual: seq<bv8>) returns (ok: bool, ghost pairsRead: nat)
    ensures ok <==> EqualsIgnoringCase(expected, actual)
    ensures pairsRead == if |expected| == |actual| then |actual| else 0
  {
    pairsRead := 0;
    if |actual| != |expected| { return false, pairsRead; }
    var diff: bv8 := 0;
    for i := 0 to |actual|
      invariant diff == 0 <==> forall j | 0 <= j < i :: Lower(expected[j]) == actual[j]
      invariant pairsRead == i
    {
      AccumulatedDifference(diff, actual[i], Lower(expected[i]));
      diff := diff | (actual[i] ^ Lower(expected[i]));
      pairsRead := pairsRead + 1;
    }
    return diff == 0, pairsRead;
  }

  /** The capital of a letter a to z. */
  function Capital(c: bv8): bv8 { if 97 <= c <= 122 then c - 32 else c }

  lemma DigitsLower(c: bv8, e: bv8)
    requires DigitValue(c) < 16
    ensures Lower(e) == c <==> e == c || e == Capital(c)
  {
  }

  /** Accepted are the digest's own text and what becomes of it when any of its letters are capitals. */
  lemma AcceptedExactly(expected: seq<bv8>, d: seq<byte>)
    ensures EqualsIgnoringCase(expected, Hex(d)) <==>
      |expected| == |Hex(d)| &&
      forall i | 0 <= i < |Hex(d)| :: expected[i] == Hex(d)[i] || expected[i] == Capital(Hex(d)[i])
    ensures EqualsIgnoringCase(Hex(d), Hex(d))
  {
    HexSpellsTheBytes(d);
    var text := Hex(d);
    forall i | 0 <= i < |text| ensures Lower(text[i]) == text[i] {
      DigitsLower(text[i], text[i]);
    }
    if |expected| == |text| {
      forall i | 0 <= i < |text|
        ensures Lower(expected[i]) == text[i] <==> expected[i] == text[i] || expected[i] == Capital(text[i])
      {
        DigitsLower(text[i], expected[i]);
      }
    }
  }

  method VerifyIntegrity(expected: seq<bv8>, data: seq<byte>) returns (ok: bool, ghost pairsRead: nat)
    ensures ok <==> EqualsIgnoringCase(expected, Hex(Digest(REAL, data)))
    ensures pairsRead == if |expected| == 64 then 64 else 0
  {
    var actual := Sha256Hex(data);
    ok, pairsRead := SameText(expected, actual);
  }

  lemma HexDigitsDiffer(x: nat, y: nat)
    requires x < 16 && y < 16 && HEX[x] == HEX[y]
    ensures x == y
  {
  }

  lemma LastTwo<T>(s: seq<T>, a: T, b: T)
    ensures var r := s + [a, b]; r[..|s|] == s && r[|s|] == a && r[|s| + 1] == b
  {
  }

  lemma HexEnds(s: seq<byte>)
    requires s != []
    ensures Hex(s)[..2 * (|s| - 1)] == Hex(s[..|s| - 1])
    ensures Hex(s)[2 * |s| - 2] == HEX[s[|s| - 1] / 16] && Hex(s)[2 * |s| - 1] == HEX[s[|s| - 1] % 16]
  {
    LastTwo(Hex(s[..|s| - 1]), HEX[s[|s| - 1] / 16], HEX[s[|s| - 1] % 16]);
  }

  lemma {:induction false} HexIsInjective(s: seq<byte>, t: seq<byte>)
    requires Hex(s) == Hex(t)
    ensures s == t
    decreases |s|
  {
    assert |s| == |t|;
    if s != [] {
      var last := |s| - 1;
      HexEnds(s);
      HexEnds(t);
      assert s[last] == t[last] by {
        HexDigitsDiffer(s[last] / 16, t[last] / 16);
        HexDigitsDiffer(s[last] % 16, t[last] % 16);
      }
      HexIsInjective(s[..last], t[..last]);
      assert s == s[..last] + [s[last]] && t == t[..last] + [t[last]];
    }
  }

  lemma OneTextOneHex(expected: seq<bv8>, d1: seq<byte>, d2: seq<byte>)
    requires EqualsIgnoringCase(expected, Hex(d1)) && EqualsIgnoringCase(expected, Hex(d2))
    ensures d1 == d2
  {
    var a, b := Hex(d1), Hex(d2);
    assert a == b by {
      assert |a| == |b| && forall i | 0 <= i < |a| :: a[i] == Lower(expected[i]) == b[i];
    }
    HexIsInjective(d1, d2);
  }

  /** Two contents pass against one expected text only with the same digest. */
  lemma OneTextOneDigest(expected: seq<bv8>, data1: seq<byte>, data2: seq<byte>)
    requires EqualsIgnoringCase(expected, Hex(Digest(REAL, data1)))
    requires EqualsIgnoringCase(expected, Hex(Digest(REAL, data2)))
    ensures Digest(REAL, data1) == Digest(REAL, data2)
  {
    OneTextOneHex(expected, Digest(REAL, data1), Digest(REAL, data2));
  }

  /** As many constants as the standard has, for the same primes: each the leading 32 fractional bits of a root. */
  lemma ConstantTables()
    ensures |K| == 64 && forall t, u | 0 <= t < u < 64 :: K[t].prime < K[u].prime
    ensures |H0| == 8 && forall t | 0 <= t < 8 :: H0[t].prime == K[t].prime
    ensures forall t | 0 <= t < 64 ::
      IsPrime(K[t].prime) && IsCubeRoot(K[t]) && REAL.roundConstant(t) == K[t].fraction
    ensures forall t | 0 <= t < 8 :: IsSquareRoot(H0[t]) && REAL.initialHash(t) == H0[t].fraction
  {
    forall t | 0 <= t < 64 ensures IsPrime(K[t].prime) {
      SievedIsPrime(K[t].prime);
    }
    Increasing();
  }

  ghost predicate Grows(table: seq<Root>, lo: int, hi: int) {
    && (forall t | 0 <= t < |table| :: lo < table[t].prime < hi)
    && (forall t, u | 0 <= t < u < |table| :: table[t].prime < table[u].prime)
  }

  lemma GrowsOn(a: seq<Root>, b: seq<Root>, lo: int, mid: int, hi: int)
    requires lo < mid < hi && Grows(a, lo, mid) && Grows(b, mid - 1, hi)
    ensures Grows(a + b, lo, hi)
  {
  }

  lemma FourGrow(a: seq<Root>, b: seq<Root>, c: seq<Root>, d: seq<Root>, n0: int, n1: int, n2: int, n3: int, n4: int)
    requires n0 < n1 < n2 < n3 < n4
    requires Grows(a, n0, n1) && Grows(b, n1 - 1, n2) && Grows(c, n2 - 1, n3) && Grows(d, n3 - 1, n4)
    ensures Grows(a + b + c + d, n0, n4)
  {
    GrowsOn(a, b, n0, n1, n2);
    GrowsOn(a + b, c, n0, n2, n3);
    GrowsOn(a + b + c, d, n0, n3, n4);
  }

  lemma TableGrows0()
    ensures Grows(K0, 1, 23)
  {
  }

  lemma TableGrows1()
    ensures Grows(K1, 22, 59)
  {
  }

  lemma TableGrows2()
    ensures Grows(K2, 58, 97)
  {
  }

  lemma TableGrows3()
    ensures Grows(K3, 96, 137)
  {
  }

  lemma TableGrows4()
    ensures Grows(K4, 136, 179)
  {
  }

  lemma TableGrows5()
    ensures Grows(K5, 178, 227)
  {
  }

  lemma TableGrows6()
    ensures Grows(K6, 226, 269)
  {
  }

  lemma TableGrows7()
    ensures Grows(K7, 268, 312)
  {
  }

  lemma LowerHalfGrows()
    ensures Grows(K0 + K1 + K2 + K3, 1, 137)
  {
    TableGrows0();
    TableGrows1();
    TableGrows2();
    TableGrows3();
    FourGrow(K0, K1, K2, K3, 1, 23, 59, 97, 137);
  }

  lemma Increasing()
    ensures Grows(K, 1, 312)
  {
    LowerHalfGrows();
    var lower := K0 + K1 + K2 + K3;
    TableGrows4();
    TableGrows5();
    TableGrows6();
    TableGrows7();
    GrowsOn(lower, K4, 1, 137, 179);
    FourGrow(lower + K4, K5, K6, K7, 1, 179, 227, 269, 312);
    assert K == lower + K4 + K5 + K6 + K7;
  }
}
