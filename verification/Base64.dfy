/**
 The hand-written Base64 pair (section 4 of RFC 4648). Both loops are proved against
 recursive functions over chunks, and those against each other and against the
 numbers the bytes and the letters spell.

 Bytes and words are numbers: a shift by k is a multiplication or division by 2^k, a
 mask a remainder, and an OR a sum, which `WordsDoNotOverlap` justifies on the machine's
 own 32-bit vectors.
 */
module Base64 {
  import opened Wrappers

  type byte = b: int | 0 <= b < 256

  const UPPER := "ABCDEFGHIJKLMNOPQRSTUVWXYZ"
  const LOWER := "abcdefghijklmnopqrstuvwxyz"
  const T := UPPER + LOWER + "0123456789+/"

  lemma WordsDoNotOverlap(b0: bv32, b1: bv32, b2: bv32, s0: bv32, s1: bv32, s2: bv32, s3: bv32)
    requires b0 < 256 && b1 < 256 && b2 < 256
    requires s0 < 64 && s1 < 64 && s2 < 64 && s3 < 64
    ensures (b0 << 16) | (b1 << 8) | b2 == (b0 << 16) + (b1 << 8) + b2 < 0x100_0000
    ensures (s0 << 18) | (s1 << 12) | (s2 << 6) | s3 == (s0 << 18) + (s1 << 12) + (s2 << 6) + s3 < 0x100_0000
  {
  }

  /** The six-bit value of a letter of the alphabet. */
  function Value(c: char): (r: Option<nat>)
    ensures r.Some? ==> r.value < 64
  {
    if 'A' <= c <= 'Z' then Some(c as int - 'A' as int)
    else if 'a' <= c <= 'z' then Some(c as int - 'a' as int + 26)
    else if '0' <= c <= '9' then Some(c as int - '0' as int + 52)
    else if c == '+' then Some(62)
    else if c == '/' then Some(63)
    else None
  }

  predicate IsLetter(c: char) { Value(c).Some? }

  /** The two alphabets, the encoder's table and the decoder's ranges, are inverse. */
  lemma TableMatchesRanges(v: nat)
    requires v < 64
    ensures |T| == 64 && Value(T[v]) == Some(v)
    ensures T[v] as int == if v < 26 then v + 'A' as int else if v < 52 then v - 26 + 'a' as int
      else if v < 62 then v - 52 + '0' as int else if v == 62 then '+' as int else '/' as int
  {
    assert v < 26 ==> UPPER[v] == ('A' as int + v) as char;
    assert 26 <= v < 52 ==> LOWER[v - 26] == ('a' as int + v - 26) as char;
    assert 52 <= v < 62 ==> "0123456789+/"[v - 52] == ('0' as int + v - 52) as char;
  }

  // ---------------------------------------------------------------- chunks

  function Drop<A>(s: seq<A>, n: nat): (r: seq<A>)
    ensures |r| == if |s| <= n then 0 else |s| - n
    ensures forall i | 0 <= i < |r| :: r[i] == s[n + i]
  {
    if |s| <= n then [] else s[n..]
  }

  function Take<A>(s: seq<A>, n: nat): (r: seq<A>)
    ensures |r| == if |s| <= n then |s| else n
    ensures forall i | 0 <= i < |r| :: r[i] == s[i]
  {
    if |s| <= n then s else s[..n]
  }

  lemma DropDrop<A>(s: seq<A>, m: nat, n: nat)
    ensures Drop(Drop(s, m), n) == Drop(s, m + n)
  {
  }

  // ---------------------------------------------------------------- encoding

  function ByteAt(data: seq<byte>, i: nat): byte { if i < |data| then data[i] else 0 }

  function Word(data: seq<byte>): nat { ByteAt(data, 0) * 0x1_0000 + ByteAt(data, 1) * 0x100 + ByteAt(data, 2) }

  function LetterOf(x: nat): (c: char)
    ensures Value(c) == Some(x % 64)
  {
    TableMatchesRanges(x % 64);
    T[x % 64]
  }

  function EncodeChunk(data: seq<byte>): (r: string)
    ensures |r| == 4 && IsLetter(r[0]) && IsLetter(r[1])
    ensures if |data| > 1 then IsLetter(r[2]) else r[2] == '='
    ensures if |data| > 2 then IsLetter(r[3]) else r[3] == '='
  {
    var n := Word(data);
    [LetterOf(n / 0x4_0000), LetterOf(n / 0x1000),
     if |data| > 1 then LetterOf(n / 0x40) else '=', if |data| > 2 then LetterOf(n) else '=']
  }

  function Encode(data: seq<byte>): string
    decreases |data|
  {
    if data == [] then "" else EncodeChunk(Take(data, 3)) + Encode(Drop(data, 3))
  }

  method EncodeBytes(data: seq<byte>) returns (out: string)
    ensures out == Encode(data)
  {
    out := "";
    var i := 0;
    while i < |data|
      invariant 0 <= i && out + Encode(Drop(data, i)) == Encode(data)
      decreases |data| - i
    {
      var quad := EncodeThree(Take(data[i..], 3));
      EncodeStep(out, data, i);
      out := out + quad;
      i := i + 3;
    }
  }

  lemma EncodeStep(out: string, data: seq<byte>, i: nat)
    requires i < |data|
    ensures out + EncodeChunk(Take(data[i..], 3)) + Encode(Drop(data, i + 3)) == out + Encode(Drop(data, i))
  {
    DropDrop(data, i, 3);
    assert data[i..] == Drop(data, i);
    var quad, rest := EncodeChunk(Take(data[i..], 3)), Encode(Drop(data, i + 3));
    assert out + quad + rest == out + (quad + rest);
  }

  /** The body of the chunk loop: the four characters pushed for one chunk. */
  method EncodeThree(chunk: seq<byte>) returns (quad: string)
    requires 0 < |chunk| <= 3
    ensures quad == EncodeChunk(chunk)
  {
    var b1: byte := if |chunk| > 1 then chunk[1] else 0;
    var b2: byte := if |chunk| > 2 then chunk[2] else 0;
    var n := chunk[0] * 0x1_0000 + b1 * 0x100 + b2;
    TableMatchesRanges(0);
    quad := [T[n / 0x4_0000 % 64]];
    quad := quad + [T[n / 0x1000 % 64]];
    quad := quad + [if |chunk| > 1 then T[n / 0x40 % 64] else '='];
    quad := quad + [if |chunk| > 2 then T[n % 64] else '='];
  }

  // ---------------------------------------------------------------- decoding

  predicate IsAsciiSpace(c: char) { c == ' ' || c == '\t' || c == '\n' || c == '\U{0C}' || c == '\r' }

  predicate IsSkipped(c: char) { IsAsciiSpace(c) || c == '=' }

  function Clean(s: string): string {
    if s == [] then []
    else if IsSkipped(s[0]) then Clean(s[1..])
    else [s[0]] + Clean(s[1..])
  }

  predicate AllLetters(s: string) { forall i | 0 <= i < |s| :: IsLetter(s[i]) }

  /** 2^18, 2^12, 2^6, 1: where a chunk's letters go. */
  function Place(i: nat): nat { if i == 0 then 0x4_0000 else if i == 1 then 0x1000 else if i == 2 then 0x40 else 1 }

  function Gather(s: string): nat
    requires |s| <= 4 && AllLetters(s)
  {
    if s == [] then 0
    else
      var last := |s| - 1;
      Gather(s[..last]) + Value(s[last]).value * Place(last)
  }

  function LowByte(n: nat): byte { n % 256 }

  function DecodeChunk(s: string): seq<byte>
    requires |s| <= 4 && AllLetters(s)
  {
    var n := Gather(s);
    if |s| > 3 then [LowByte(n / 0x1_0000), LowByte(n / 0x100), LowByte(n)]
    else if |s| > 2 then [LowByte(n / 0x1_0000), LowByte(n / 0x100)]
    else [LowByte(n / 0x1_0000)]
  }

  function DecodeLetters(s: string): seq<byte>
    requires AllLetters(s)
    decreases |s|
  {
    if s == [] then [] else DecodeChunk(Take(s, 4)) + DecodeLetters(Drop(s, 4))
  }

  /** None stands for the "invalid base64" error. */
  function Decode(s: string): Option<seq<byte>> {
    var letters := Clean(s);
    if AllLetters(letters) then Some(DecodeLetters(letters)) else None
  }

  method DecodeText(s: string) returns (r: Option<seq<byte>>)
    ensures r == Decode(s)
  {
    var bytes := Clean(s);
    var out: seq<byte> := [];
    var at := 0;
    while at < |bytes|
      invariant 0 <= at && AllLetters(Take(bytes, at))
      invariant AllLetters(bytes) ==> out + DecodeLetters(Drop(bytes, at)) == DecodeLetters(bytes)
      decreases |bytes| - at
    {
      var chunk := Take(bytes[at..], 4);
      var piece := DecodeFour(chunk);
      if piece.None? {
        NotAllLetters(bytes, at);
        return None;
      }
      MoreLetters(bytes, at);
      if AllLetters(bytes) { DecodeStep(out, bytes, at); }
      out := out + piece.value;
      at := at + 4;
    }
    assert Take(bytes, at) == bytes && Drop(bytes, at) == [] && out + [] == out;
    return Some(out);
  }

  lemma NotAllLetters(bytes: string, at: nat)
    requires at < |bytes| && !AllLetters(Take(bytes[at..], 4))
    ensures !AllLetters(bytes)
  {
    var k :| 0 <= k < |Take(bytes[at..], 4)| && !IsLetter(Take(bytes[at..], 4)[k]);
    assert bytes[at + k] == bytes[at..][k];
  }

  lemma MoreLetters(bytes: string, at: nat)
    requires at < |bytes| && AllLetters(Take(bytes, at)) && AllLetters(Take(bytes[at..], 4))
    ensures AllLetters(Take(bytes, at + 4))
  {
    var t := Take(bytes, at + 4);
    forall k | 0 <= k < |t| ensures IsLetter(t[k]) {
      assert t[k] == bytes[k];
      if k < at { assert bytes[k] == Take(bytes, at)[k]; }
      else { assert bytes[k] == bytes[at..][k - at] == Take(bytes[at..], 4)[k - at]; }
    }
  }

  lemma DecodeStep(out: seq<byte>, bytes: string, at: nat)
    requires at < |bytes| && AllLetters(bytes)
    ensures out + DecodeChunk(Take(bytes[at..], 4)) + DecodeLetters(Drop(bytes, at + 4)) ==
            out + DecodeLetters(Drop(bytes, at))
  {
    DropDrop(bytes, at, 4);
    assert bytes[at..] == Drop(bytes, at);
    var piece, rest := DecodeChunk(Take(Drop(bytes, at), 4)), DecodeLetters(Drop(bytes, at + 4));
    assert out + piece + rest == out + (piece + rest);
  }

  /** The body of the chunk loop: the bytes pushed for one chunk. */
  method DecodeFour(chunk: string) returns (r: Option<seq<byte>>)
    requires 0 < |chunk| <= 4
    ensures if AllLetters(chunk) then r == Some(DecodeChunk(chunk)) else r == None
  {
    var n := 0;
    for i := 0 to |chunk|
      invariant AllLetters(chunk[..i]) && n == Gather(chunk[..i])
    {
      var v := Value(chunk[i]);
      if v.None? { return None; }
      assert chunk[..i + 1][..i] == chunk[..i];
      n := n + v.value * Place(i);
    }
    assert chunk[..|chunk|] == chunk;
    var out: seq<byte> := [n / 0x1_0000 % 256];
    if |chunk| > 2 { out := out + [n / 0x100 % 256]; }
    if |chunk| > 3 { out := out + [n % 256]; }
    assert out == DecodeChunk(chunk);
    return Some(out);
  }

  // ---------------------------------------------------------------- theorems

  /** The letters of an encoded chunk, padding dropped. */
  function LettersOf(data: seq<byte>): (s: string)
    requires 0 < |data| <= 3
    ensures AllLetters(s) && |s| == |data| + 1
  {
    EncodeChunk(data)[..|data| + 1]
  }

  lemma GatherStep(s: string, i: nat)
    requires i < |s| <= 4 && AllLetters(s)
    ensures Gather(s[..i + 1]) == Gather(s[..i]) + Value(s[i]).value * Place(i)
  {
    assert s[..i + 1][..i] == s[..i];
  }

  /** Reading off a 24-bit word's sextets loses nothing. */
  lemma Sextets(n: nat)
    requires n < 0x100_0000
    ensures n / 0x4_0000 % 64 * 64 + n / 0x1000 % 64 == n / 0x1000
    ensures n / 0x1000 * 64 + n / 0x40 % 64 == n / 0x40
    ensures n / 0x40 * 64 + n % 64 == n
  {
    assert n / 0x4_0000 == n / 0x1000 / 64;
    assert n / 0x1000 == n / 0x40 / 64;
  }

  lemma ChunkWord(data: seq<byte>)
    requires 0 < |data| <= 3
    ensures var n := Word(data);
      && n < 0x100_0000
      && n / 0x1_0000 == ByteAt(data, 0) && n / 0x100 % 256 == ByteAt(data, 1) && n % 256 == ByteAt(data, 2)
      && (|data| < 3 ==> n % 64 == 0) && (|data| < 2 ==> n / 0x40 % 64 == 0)
  {
    var n := Word(data);
    var b0: int, b1: int, b2: int := ByteAt(data, 0), ByteAt(data, 1), ByteAt(data, 2);
    assert n / 0x100 == b0 * 0x100 + b1 && n % 0x100 == b2;
    if |data| < 3 { assert n / 0x40 == b0 * 0x400 + b1 * 4; }
  }

  lemma GatherInverts(data: seq<byte>)
    requires 0 < |data| <= 3
    ensures Gather(LettersOf(data)) == Word(data)
  {
    var s, n := LettersOf(data), Word(data);
    ChunkWord(data);
    Sextets(n);
    assert s[..0] == [] && s[..|s|] == s;
    GatherStep(s, 0);
    GatherStep(s, 1);
    assert Gather(s[..2]) == n / 0x1000 * 0x1000;
    if |data| > 1 { GatherStep(s, 2); }
    if |data| > 2 { GatherStep(s, 3); }
  }

  lemma ChunkRoundTrip(data: seq<byte>)
    requires 0 < |data| <= 3
    ensures DecodeChunk(LettersOf(data)) == data
  {
    GatherInverts(data);
    ChunkWord(data);
    var s, n := LettersOf(data), Word(data);
    assert |DecodeChunk(s)| == |data|;
    assert LowByte(n / 0x1_0000) == data[0];
    assert |data| > 1 ==> LowByte(n / 0x100) == data[1];
    assert |data| > 2 ==> LowByte(n) == data[2];
  }

  lemma {:induction false} CleanAppend(s: string, t: string)
    ensures Clean(s + t) == Clean(s) + Clean(t)
    decreases |s|
  {
    if s == [] {
      assert s + t == t;
    } else {
      assert (s + t)[1..] == s[1..] + t;
      CleanAppend(s[1..], t);
    }
  }

  lemma CleanChunk(data: seq<byte>)
    requires 0 < |data| <= 3
    ensures Clean(EncodeChunk(data)) == LettersOf(data)
  {
    var s := EncodeChunk(data);
    assert !IsSkipped(s[0]) && !IsSkipped(s[1]);
    assert s == [s[0]] + ([s[1]] + ([s[2]] + [s[3]]));
    assert s[1..][1..][1..] == [s[3]] && s[1..][1..] == [s[2], s[3]];
    assert Clean([s[3]]) == if |data| > 2 then [s[3]] else [];
    assert Clean([s[2], s[3]]) == if |data| > 2 then [s[2], s[3]] else if |data| > 1 then [s[2]] else [];
  }

  lemma {:induction false} CleanEncoded(data: seq<byte>)
    ensures AllLetters(Clean(Encode(data)))
    ensures data != [] ==> Clean(Encode(data)) == LettersOf(Take(data, 3)) + Clean(Encode(Drop(data, 3)))
    ensures |Clean(Encode(data))| > 0 <==> data != []
    decreases |data|
  {
    if data != [] {
      CleanAppend(EncodeChunk(Take(data, 3)), Encode(Drop(data, 3)));
      CleanChunk(Take(data, 3));
      CleanEncoded(Drop(data, 3));
    }
  }

  lemma DecodeHead(head: string, rest: string)
    requires AllLetters(head) && AllLetters(rest) && 0 < |head| <= 4 && (|head| < 4 ==> rest == [])
    ensures AllLetters(head + rest) && DecodeLetters(head + rest) == DecodeChunk(head) + DecodeLetters(rest)
  {
    assert Take(head + rest, 4) == head && Drop(head + rest, 4) == rest;
  }

  /** Decoding undoes encoding, for every byte string. */
  lemma {:induction false} DecodeInvertsEncode(data: seq<byte>)
    ensures Decode(Encode(data)) == Some(data)
    decreases |data|
  {
    CleanEncoded(data);
    if data != [] {
      var head, tail := Take(data, 3), Drop(data, 3);
      DecodeInvertsEncode(tail);
      CleanEncoded(tail);
      ChunkRoundTrip(head);
      assert DecodeLetters(LettersOf(head) + Clean(Encode(tail))) == head + tail by {
        DecodeHead(LettersOf(head), Clean(Encode(tail)));
      }
      assert data == head + tail;
    }
  }

  lemma EncodeIsInjective(data1: seq<byte>, data2: seq<byte>)
    requires Encode(data1) == Encode(data2)
    ensures data1 == data2
  {
    DecodeInvertsEncode(data1);
    DecodeInvertsEncode(data2);
  }

  predicate HasShape(s: string, n: nat) {
    var pad := if n % 3 == 0 then 0 else 3 - n % 3;
    && |s| == (n + 2) / 3 * 4
    && forall i | 0 <= i < |s| :: if i < |s| - pad then IsLetter(s[i]) else s[i] == '='
  }

  lemma ShapeGrows(chunk: string, s: string, n: nat)
    requires |chunk| == 4 && AllLetters(chunk) && HasShape(s, n)
    ensures HasShape(chunk + s, n + 3)
  {
  }

  lemma ChunkShape(data: seq<byte>)
    requires 0 < |data| <= 3
    ensures HasShape(EncodeChunk(data), |data|)
    ensures |data| == 3 ==> AllLetters(EncodeChunk(data))
  {
  }

  /** Four characters for every three bytes begun; letters, then only the padding the length calls for. */
  lemma {:induction false} EncodedShape(data: seq<byte>)
    ensures HasShape(Encode(data), |data|)
    decreases |data|
  {
    if |data| > 3 {
      EncodedShape(Drop(data, 3));
      ChunkShape(Take(data, 3));
      ShapeGrows(EncodeChunk(Take(data, 3)), Encode(Drop(data, 3)), |data| - 3);
    } else if data != [] {
      assert Take(data, 3) == data && Encode(Drop(data, 3)) == "";
      assert Encode(data) == EncodeChunk(data);
      ChunkShape(data);
    }
  }

  /** Text is accepted exactly when everything besides white space and padding is a letter. */
  lemma {:induction false} DecodeAccepts(s: string)
    ensures Decode(s).Some? <==> forall i | 0 <= i < |s| :: IsSkipped(s[i]) || IsLetter(s[i])
    decreases |s|
  {
    if s != [] {
      DecodeAccepts(s[1..]);
      var rest := Clean(s[1..]);
      assert forall i | 1 <= i < |s| :: s[i] == s[1..][i - 1];
      if !IsSkipped(s[0]) {
        assert Clean(s)[0] == s[0] && forall i | 0 <= i < |rest| :: Clean(s)[i + 1] == rest[i];
        assert AllLetters(Clean(s)) <==> IsLetter(s[0]) && AllLetters(rest);
      }
    }
  }

  // ---- what the text spells

  /** The number written after `acc` by the bytes in base 256, and by the letters in base 64. */
  function Bytes256(acc: nat, data: seq<byte>): nat
    decreases |data|
  {
    if data == [] then acc else Bytes256(acc * 256 + data[0], data[1..])
  }

  function Letters64(acc: nat, s: string): nat
    requires AllLetters(s)
    decreases |s|
  {
    if s == [] then acc else Letters64(acc * 64 + Value(s[0]).value, s[1..])
  }

  lemma {:induction false} LettersAppend(acc: nat, s: string, t: string)
    requires AllLetters(s) && AllLetters(t)
    ensures AllLetters(s + t) && Letters64(acc, s + t) == Letters64(Letters64(acc, s), t)
    decreases |s|
  {
    if s == [] {
      assert s + t == t;
    } else {
      assert (s + t)[1..] == s[1..] + t;
      LettersAppend(acc * 64 + Value(s[0]).value, s[1..], t);
    }
  }

  lemma {:induction false} BytesAppend(acc: nat, s: seq<byte>, t: seq<byte>)
    ensures Bytes256(acc, s + t) == Bytes256(Bytes256(acc, s), t)
    decreases |s|
  {
    if s == [] {
      assert s + t == t;
    } else {
      assert (s + t)[1..] == s[1..] + t;
      BytesAppend(acc * 256 + s[0], s[1..], t);
    }
  }

  /** x with the zero bits that n bytes leave in their last letter. */
  function Filled(x: nat, n: nat): nat { if n % 3 == 0 then x else if n % 3 == 1 then x * 16 else x * 4 }

  lemma LetterStep(acc: nat, s: string, i: nat)
    requires AllLetters(s) && i < |s|
    ensures Letters64(acc, s[i..]) == Letters64(acc * 64 + Value(s[i]).value, s[i + 1..])
  {
    assert s[i..][1..] == s[i + 1..];
  }

  lemma ByteStep(acc: nat, data: seq<byte>, i: nat)
    requires i < |data|
    ensures Bytes256(acc, data[i..]) == Bytes256(acc * 256 + data[i], data[i + 1..])
  {
    assert data[i..][1..] == data[i + 1..];
  }

  lemma FirstTwoLetters(acc: nat, data: seq<byte>)
    requires 0 < |data| <= 3
    ensures Letters64(acc, LettersOf(data)) == Letters64(acc * 0x1000 + Word(data) / 0x1000, LettersOf(data)[2..])
  {
    var s, n := LettersOf(data), Word(data);
    ChunkWord(data);
    Sextets(n);
    assert s[0..] == s;
    LetterStep(acc, s, 0);
    LetterStep(acc * 64 + n / 0x4_0000 % 64, s, 1);
  }

  lemma ChunkLetters(acc: nat, data: seq<byte>)
    requires 0 < |data| <= 3
    ensures Letters64(acc, LettersOf(data)) ==
      if |data| == 1 then acc * 0x1000 + Word(data) / 0x1000
      else if |data| == 2 then acc * 0x4_0000 + Word(data) / 0x40
      else acc * 0x100_0000 + Word(data)
  {
    var s, n := LettersOf(data), Word(data);
    ChunkWord(data);
    FirstTwoLetters(acc, data);
    Sextets(n);
    assert s[|s|..] == [];
    if |data| > 1 { LetterStep(acc * 0x1000 + n / 0x1000, s, 2); }
    if |data| > 2 { LetterStep(acc * 0x4_0000 + n / 0x40, s, 3); }
  }

  lemma ChunkBytes(acc: nat, data: seq<byte>)
    requires 0 < |data| <= 3
    ensures Bytes256(acc, data) ==
      if |data| == 1 then acc * 256 + data[0]
      else if |data| == 2 then (acc * 256 + data[0]) * 256 + data[1]
      else ((acc * 256 + data[0]) * 256 + data[1]) * 256 + data[2]
  {
    assert data[0..] == data && data[|data|..] == [];
    ByteStep(acc, data, 0);
    if |data| > 1 { ByteStep(acc * 256 + data[0], data, 1); }
    if |data| > 2 { ByteStep((acc * 256 + data[0]) * 256 + data[1], data, 2); }
  }

  /** The word of a short chunk ends in zeros. */
  lemma ShortWord(data: seq<byte>)
    requires 0 < |data| < 3
    ensures var b0: int, b1: int := ByteAt(data, 0), ByteAt(data, 1);
      if |data| == 1 then Word(data) / 0x1000 == b0 * 16 else Word(data) / 0x40 == (b0 * 256 + b1) * 4
  {
  }

  lemma ChunkFilled(acc: nat, data: seq<byte>)
    requires 0 < |data| <= 3
    ensures Filled(Bytes256(acc, data), |data|) ==
      if |data| == 1 then acc * 0x1000 + Word(data) / 0x1000
      else if |data| == 2 then acc * 0x4_0000 + Word(data) / 0x40
      else acc * 0x100_0000 + Word(data)
  {
    ChunkBytes(acc, data);
    if |data| < 3 { ShortWord(data); }
  }

  lemma ChunkSpells(acc: nat, data: seq<byte>)
    requires 0 < |data| <= 3
    ensures Letters64(acc, LettersOf(data)) == Filled(Bytes256(acc, data), |data|)
  {
    ChunkLetters(acc, data);
    ChunkFilled(acc, data);
  }

  /** The letters spell the same number as the bytes, shifted left by the 0, 4 or 2 bits that fill the last letter. */
  lemma {:induction false} EncodingSpellsTheBytes(acc: nat, data: seq<byte>)
    ensures AllLetters(Clean(Encode(data)))
    ensures Letters64(acc, Clean(Encode(data))) == Filled(Bytes256(acc, data), |data|)
    decreases |data|, 1
  {
    CleanEncoded(data);
    if 0 < |data| < 3 {
      assert Take(data, 3) == data && Clean(Encode(Drop(data, 3))) == "";
      assert LettersOf(data) + "" == LettersOf(data);
      ChunkSpells(acc, data);
    } else if data != [] {
      SpellsChunkByChunk(acc, data);
    }
  }

  lemma {:induction false} SpellsChunkByChunk(acc: nat, data: seq<byte>)
    requires 3 <= |data|
    ensures AllLetters(Clean(Encode(data)))
    ensures Letters64(acc, Clean(Encode(data))) == Filled(Bytes256(acc, data), |data|)
    decreases |data|, 0
  {
    CleanEncoded(data);
    var head, rest := Take(data, 3), Drop(data, 3);
    ChunkSpells(acc, head);
    EncodingSpellsTheBytes(Bytes256(acc, head), rest);
    Spliced(acc, head, rest, LettersOf(head), Clean(Encode(rest)));
    assert data == head + rest;
  }

  lemma Spliced(acc: nat, head: seq<byte>, rest: seq<byte>, letters: string, more: string)
    requires |head| == 3 && AllLetters(letters) && AllLetters(more)
    requires Letters64(acc, letters) == Bytes256(acc, head)
    requires Letters64(Bytes256(acc, head), more) == Filled(Bytes256(Bytes256(acc, head), rest), |rest|)
    ensures AllLetters(letters + more)
    ensures Letters64(acc, letters + more) == Filled(Bytes256(acc, head + rest), |head + rest|)
  {
    LettersAppend(acc, letters, more);
    BytesAppend(acc, head, rest);
    assert |rest| % 3 == |head + rest| % 3;
  }
}
