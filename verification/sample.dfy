/** A stream with trees of its own, as it stands in a file. */
module DeflateSample {
  import opened Base
  import opened BitStream
  import opened Huffman
  import opened Deflate
  import opened DeflateGrammar
  import opened DeflateStreams
  import opened Arithmetic

  /** The last block, with its own trees: byte 0 alone. */
  ghost function ZeroBlock(): Block {
    var k := OddBlock(1, 1);
    Dynamic(k.nlen, k.ndist, k.vals, k.ls, k.lens, [Literal(0)])
  }

  /** The bits of it: kind 2, no more than 257 and 1 lengths, 14 more than 4 three-bit values (17 to 70, those of 18, 0, 5
      and 1 being 2), the lengths (1, 138 zeros, 117 zeros, 1 and 1) and the two codes. */
  predicate Dot(i: nat) {
    || i in {0, 2, 14, 15, 16, 24, 27, 45, 69} || 72 <= i <= 83 || i in {85, 87, 89, 90, 92, 94, 96}
  }

  ghost predicate Dotted(b: seq<bit>) {
    |b| == 104 && forall i | 0 <= i < 97 :: b[i] == 1 <==> Dot(i)
  }

  /** A stretch of bits that are the same. */
  lemma {:induction false} SameBits(b: seq<bit>, p: nat, n: nat, v: nat)
    requires p + n <= |b| && v < 2 && forall i | p <= i < p + n :: b[i] as int == v
    ensures Lsb(b, p, n) == v * (Pow2(n) - 1)
    decreases n
  {
    if n > 0 { SameBits(b, p + 1, n - 1, v); }
  }

  lemma Next(b: seq<bit>, p: nat, n: nat)
    requires p + n <= |b| && n > 0
    ensures Lsb(b, p, n) == (b[p] as int) + 2 * Lsb(b, p + 1, n - 1)
  {
  }

  lemma Counts(b: seq<bit>)
    requires Dotted(b)
    ensures |b| == 104 && b[0] == 1 && Lsb(b, 1, 2) == 2 && Lsb(b, 3, 5) == 0 && Lsb(b, 8, 5) == 0 && Lsb(b, 13, 4) == 14
  {
    hide Lsb;
    Next(b, 1, 2);
    SameBits(b, 2, 1, 1);
    SameBits(b, 3, 5, 0);
    SameBits(b, 8, 5, 0);
    Next(b, 13, 4);
    SameBits(b, 14, 3, 1);
    assert Pow2(1) == 2 && Pow2(3) == 8;
  }

  lemma {:induction false} Values(b: seq<bit>, n: nat)
    requires Dotted(b) && n <= 18
    ensures Threes(b, 17, n) == VALS[..n]
    decreases n
  {
    if n > 0 {
      Values(b, n - 1);
      OneValue(b, n - 1);
      assert VALS[..n] == VALS[..n - 1] + [VALS[n - 1]];
    }
  }

  lemma OneValue(b: seq<bit>, j: nat)
    requires Dotted(b) && j < 18
    ensures Lsb(b, 17 + 3 * j, 3) == VALS[j]
  {
    var p := 17 + 3 * j;
    assert b[p] == 0 && b[p + 2] == 0 && (b[p + 1] == 1 <==> j == 2 || j == 3 || j == 9 || j == 17);
    hide Lsb, Dotted;
    Next(b, p, 3);
    Next(b, p + 1, 2);
    SameBits(b, p + 2, 1, 0);
  }

  lemma HeaderStands(b: seq<bit>)
    requires Dotted(b)
    ensures At(b, 0, [1] + LsbBits(2, 2)) && At(b, 3, WriteHeader(ZeroBlock())) && |WriteHeader(ZeroBlock())| == 68
  {
    hide Lsb, LsbBits, Threes, WriteThrees, Dotted;
    Counts(b);
    Values(b, 18);
    assert VALS[..18] == VALS;
    HeadIsRead(b, 0, 1, 2);
    HeaderParts(ZeroBlock(), b, 3);
  }

  // ---- the two codes ----

  lemma OneBit()
    ensures MsbBits(0, 1) == [0] && MsbBits(1, 1) == [1] && MsbBits(1, 2) == [0, 1] && MsbBits(3, 2) == [1, 1]
  {
    assert MsbBits(0, 0) == [];
  }

  /** The code of the lengths: 0, 1, 5 and 18 in that order, two bits each. */
  lemma LengthCodes(cl: seq<nat>)
    requires cl == Deal(VALS)
    ensures CodeBits(cl, 1) == [0, 1] && CodeBits(cl, 18) == [1, 1]
  {
    LengthCode(cl);
    hide Deal, Good, MsbBits;
    assert FirstCode(cl, 1) == 0;
    NoneBetween(cl, 0, 19, 1);
    assert FirstCode(cl, 2) == 0;
    SameLength(cl, 0, 1, 2);
    SameLength(cl, 1, 2, 2);
    NoneBetween(cl, 2, 5, 2);
    SameLength(cl, 5, 6, 2);
    NoneBetween(cl, 6, 18, 2);
    assert Code(cl, 1) == 1 && Code(cl, 18) == 3;
    OneBit();
  }

  lemma LiteralCodes(lit: seq<nat>)
    requires lit == Lits()
    ensures HasCode(lit, 0) && CodeBits(lit, 0) == [0] && HasCode(lit, 256) && CodeBits(lit, 256) == [1]
  {
    hide MsbBits;
    assert lit[0] == 1 && lit[256] == 1 && forall i | 1 <= i < 256 :: lit[i] == 0;
    SameLength(lit, 0, 1, 1);
    NoneBetween(lit, 1, 256, 1);
    assert Code(lit, 0) == 0 && Code(lit, 256) == 1;
    OneBit();
  }

  // ---- what follows the header ----

  lemma TwoBits(b: seq<bit>, p: nat, u: bit, v: bit)
    requires p + 2 <= |b| && b[p] == u && b[p + 1] == v
    ensures At(b, p, [u, v])
  {
  }

  /** Symbol 18 with its seven extra bits. */
  lemma LongRun(b: seq<bit>, p: nat, cl: seq<nat>, x: nat)
    requires |cl| == 19 && cl[18] == 2 && CodeBits(cl, 18) == [1, 1]
    requires p + 9 <= |b| && b[p] == 1 && b[p + 1] == 1 && x < 128 && Lsb(b, p + 2, 7) == x
    ensures At(b, p, WriteLen(ManyZeros(x), cl)) && |WriteLen(ManyZeros(x), cl)| == 9
  {
    hide Lsb, LsbBits, At;
    assert Pow2(7) == 128;
    TwoBits(b, p, 1, 1);
    NumberIsRead(b, p + 2, 7, x);
    AtJoin(b, p, CodeBits(cl, 18), LsbBits(x, 7));
  }

  lemma Runs(b: seq<bit>)
    requires Dotted(b)
    ensures Lsb(b, 75, 7) == 127 && Lsb(b, 84, 7) == 106
  {
    hide Lsb;
    SameBits(b, 75, 7, 1);
    Next(b, 84, 7);
    Next(b, 85, 6);
    Next(b, 86, 5);
    Next(b, 87, 4);
    Next(b, 88, 3);
    SameBits(b, 89, 2, 1);
    assert Pow2(7) == 128 && Pow2(2) == 4;
  }

  lemma OneMoreLen(b: seq<bit>, p: nat, t: LenSym, rest: seq<LenSym>, cl: seq<nat>)
    requires CanWriteLen(t, cl) && CanWriteLens(rest, cl)
    requires At(b, p, WriteLen(t, cl)) && At(b, p + |WriteLen(t, cl)|, WriteLens(rest, cl))
    ensures CanWriteLens([t] + rest, cl) && At(b, p, WriteLens([t] + rest, cl))
    ensures |WriteLens([t] + rest, cl)| == |WriteLen(t, cl)| + |WriteLens(rest, cl)|
  {
    assert ([t] + rest)[1..] == rest;
    AtJoin(b, p, WriteLen(t, cl), WriteLens(rest, cl));
  }

  lemma LensStand(b: seq<bit>, cl: seq<nat>, ls: seq<LenSym>)
    requires Dotted(b) && cl == Deal(VALS) && ls == [Len(1), ManyZeros(127), ManyZeros(106), Len(1), Len(1)]
    ensures CanWriteLens(ls, cl) && At(b, 71, WriteLens(ls, cl)) && |WriteLens(ls, cl)| == 24
  {
    LensBits(b);
    LengthCode(cl);
    LengthCodes(cl);
    hide Lsb, Deal, Good, CodeBits, Lengths, Dotted;
    TwoBits(b, 71, 0, 1);
    TwoBits(b, 91, 0, 1);
    TwoBits(b, 93, 0, 1);
    LongRun(b, 73, cl, 127);
    LongRun(b, 82, cl, 106);
    AllLens(b, cl, ls);
  }

  lemma LensBits(b: seq<bit>)
    requires Dotted(b)
    ensures |b| == 104 && b[71] == 0 && b[72] == b[73] == b[74] == b[82] == b[83] == 1
    ensures b[91] == b[93] == 0 && b[92] == b[94] == 1
    ensures Lsb(b, 75, 7) == 127 && Lsb(b, 84, 7) == 106
  {
    Runs(b);
    hide Lsb;
  }

  lemma Ends(b: seq<bit>, cl: seq<nat>)
    requires |cl| == 19 && cl[1] == cl[18] == 2 && CodeBits(cl, 1) == [0, 1] && At(b, 93, [0, 1])
    ensures CanWriteLen(Len(1), cl) && CanWriteLen(ManyZeros(127), cl) && CanWriteLen(ManyZeros(106), cl)
    ensures WriteLen(Len(1), cl) == [0, 1] && CanWriteLens([], cl) && WriteLens([], cl) == [] && At(b, 95, [])
  {
    hide CodeBits;
  }

  lemma AllLens(b: seq<bit>, cl: seq<nat>, ls: seq<LenSym>)
    requires ls == [Len(1), ManyZeros(127), ManyZeros(106), Len(1), Len(1)]
    requires |cl| == 19 && cl[1] == cl[18] == 2 && CodeBits(cl, 1) == [0, 1]
    requires At(b, 71, [0, 1]) && At(b, 91, [0, 1]) && At(b, 93, [0, 1])
    requires At(b, 73, WriteLen(ManyZeros(127), cl)) && At(b, 82, WriteLen(ManyZeros(106), cl))
    requires |WriteLen(ManyZeros(127), cl)| == |WriteLen(ManyZeros(106), cl)| == 9
    ensures CanWriteLens(ls, cl) && At(b, 71, WriteLens(ls, cl)) && |WriteLens(ls, cl)| == 24
  {
    Ends(b, cl);
    hide At, WriteLen, WriteLens, CanWriteLens, CodeBits;
    var d, e := [Len(1)] + [], [Len(1)] + ([Len(1)] + []);
    OneMoreLen(b, 93, Len(1), [], cl);
    OneMoreLen(b, 91, Len(1), d, cl);
    OneMoreLen(b, 82, ManyZeros(106), e, cl);
    OneMoreLen(b, 73, ManyZeros(127), [ManyZeros(106)] + e, cl);
    OneMoreLen(b, 71, Len(1), [ManyZeros(127)] + ([ManyZeros(106)] + e), cl);
    assert ls == [Len(1)] + ([ManyZeros(127)] + ([ManyZeros(106)] + e));
  }

  lemma TokensStand(b: seq<bit>, lit: seq<nat>, dist: seq<nat>)
    requires Dotted(b) && lit == Lits()
    ensures CanWriteAll([Literal(0)], lit, dist) && WriteAll([Literal(0)], lit, dist) == [0, 1]
    ensures At(b, 95, [0, 1])
  {
    TwoBits(b, 95, 0, 1);
    LiteralCodes(lit);
    hide CodeBits, Lits, At, Dotted;
    assert [Literal(0)][1..] == [];
    assert WriteAll([], lit, dist) == [1];
  }

  lemma ZeroParts(k: Block)
    requires k == ZeroBlock()
    ensures k.Dynamic? && k.nlen == 257 && k.ndist == 1 && k.vals == VALS && k.ts == [Literal(0)]
    ensures k.ls == [Len(1), ManyZeros(127), ManyZeros(106), Len(1), Len(1)]
    ensures k.lens[..257] == Lits() && k.lens[257..] == Repeat(1, 1) && |k.lens| == 258
    ensures ExpandLens(k.ls, []) == Some(k.lens) && CanWriteHeader(k)
  {
    assert |Lits()| == 257;
    hide Deal, Good, ExpandLens, Lits, CanWriteLens, CanWriteAll;
    OddIsWritable(1, 1);
    OddLengths(1, 1);
  }

  lemma OneLiteral(k: Block, out: seq<byte>)
    requires k.Dynamic? && k.ts == [Literal(0)] && CanWriteStream([k], 0)
    ensures StreamMeaning([k], 0, out) == Some(out + [0])
  {
    hide CanWriteBlock, WriteBlock;
    assert k.ts[1..] == [];
    assert Expand([], out + [0]) == Some(out + [0]);
    assert Expand(k.ts, out) == Some(out + [0]);
  }

  lemma BlockIsValid(out: seq<byte>)
    ensures CanWriteStream([ZeroBlock()], 0) && StreamMeaning([ZeroBlock()], 0, out) == Some(out + [0])
  {
    var k := ZeroBlock();
    ZeroParts(k);
    LengthsCanBeWritten(Deal(VALS), k.ls);
    LitsAreComplete(Lits());
    LiteralCodes(Lits());
    OneFits(k.lens[257..]);
    OneIsWritten(Lits(), k.lens[257..]);
    hide *;
    OnePiece(k);
    OneLiteral(k, out);
  }

  lemma OnePiece(k: Block)
    requires k.Dynamic? && |k.vals| <= 19 && |k.lens| == k.nlen + k.ndist && CanWriteHeader(k)
    requires CanWriteLens(k.ls, Deal(k.vals)) && ExpandLens(k.ls, []) == Some(k.lens)
    requires Good(k.lens[..k.nlen]) && !OverSubscribed(k.lens[k.nlen..])
    requires CanWriteAll(k.ts, k.lens[..k.nlen], k.lens[k.nlen..])
    ensures CanWriteStream([k], 0)
  {
    hide Deal, Good, CanWriteHeader, CanWriteLens, CanWriteAll, ExpandLens, WriteBlock, OverSubscribed;
  }

  lemma OneIsWritten(lit: seq<nat>, dist: seq<nat>)
    requires HasCode(lit, 0) && HasCode(lit, 256)
    ensures CanWriteAll([Literal(0)], lit, dist)
  {
  }

  lemma LengthsCanBeWritten(cl: seq<nat>, ls: seq<LenSym>)
    requires cl == Deal(VALS) && ls == [Len(1), ManyZeros(127), ManyZeros(106), Len(1), Len(1)]
    ensures CanWriteLens(ls, cl)
  {
    LengthCode(cl);
  }

  lemma OneFits(dist: seq<nat>)
    requires dist == Repeat(1, 1)
    ensures !OverSubscribed(dist)
  {
    assert Pow2(14) == 16384;
    SumOfRun(dist, 0, 1, 1, 16384);
  }

  lemma BlockStands(b: seq<bit>, out: seq<byte>)
    requires Dotted(b)
    ensures StreamAt([ZeroBlock()], b, 0, out, out + [0], 97)
  {
    var k := ZeroBlock();
    ZeroParts(k);
    BlockIsValid(out);
    HeaderStands(b);
    LensStand(b, Deal(VALS), k.ls);
    TokensStand(b, Lits(), k.lens[257..]);
    hide *;
    StandsTogether(k, b, out);
  }

  lemma StandsTogether(k: Block, b: seq<bit>, out: seq<byte>)
    requires k.Dynamic? && k.nlen == 257 && k.ndist == 1 && 4 <= |k.vals| <= 19 && CanWriteStream([k], 0)
    requires k.lens[..257] == Lits() && StreamMeaning([k], 0, out) == Some(out + [0])
    requires At(b, 0, [1] + LsbBits(2, 2)) && At(b, 3, WriteHeader(k)) && |WriteHeader(k)| == 68
    requires At(b, 71, WriteLens(k.ls, Deal(k.vals))) && |WriteLens(k.ls, Deal(k.vals))| == 24
    requires WriteAll(k.ts, k.lens[..257], k.lens[257..]) == [0, 1] && At(b, 95, [0, 1])
    ensures StreamAt([k], b, 0, out, out + [0], 97)
  {
    hide At, WriteHeader, WriteLens, WriteAll, Deal, LsbBits, Good, CanWriteHeader, CanWriteLens, CanWriteAll, ExpandLens,
      Lits, StreamMeaning;
    var h, w, t := WriteHeader(k), WriteLens(k.ls, Deal(k.vals)), WriteAll(k.ts, k.lens[..257], k.lens[257..]);
    AtJoin(b, 3, h, w);
    AtJoin(b, 3, h + w, t);
    AtEnd(b, 3, (h + w) + t);
    AtJoin(b, 0, [1] + LsbBits(2, 2), ((h + w) + t) + []);
    assert WriteStream([k], 0) == ([1] + LsbBits(2, 2)) + (((h + w) + t) + []);
  }

  // ---- the bytes ----

  /** The bits of one byte. */
  lemma Eight(input: seq<byte>, i: nat, w: seq<bit>)
    requires i < |input| && |w| == 8 && Spelt(w) == input[i]
    ensures |BitsOf(input)| == 8 * |input| && forall j | 0 <= j < 8 :: BitsOf(input)[8 * i + j] == w[j]
  {
    hide BitsOf, Spelt;
    ByteIs(input, i, w);
    forall j | 0 <= j < 8 ensures BitsOf(input)[8 * i + j] == w[j] {
      assert BitsOf(input)[8 * i..8 * i + 8][j] == BitsOf(input)[8 * i + j];
    }
  }

  /** The thirteen bytes of a file that holds one zero byte. */
  const FILE: seq<byte> := [0x05, 0xC0, 0x01, 0x09, 0x00, 0x20, 0x00, 0x00, 0x20, 0xFF, 0xAF, 0x56, 0x01]

  function Bit(i: nat): bit { if Dot(i) then 1 else 0 }

  function Dots(i: nat): (w: seq<bit>)
    ensures |w| == 8 && forall j | 0 <= j < 8 :: w[j] == Bit(8 * i + j)
  {
    seq<bit>(8, j requires 0 <= j < 8 => Bit(8 * i + j))
  }

  lemma DotsAre(i: nat)
    requires i < 13
    ensures Spelt(Dots(i)) == FILE[i]
  {
  }

  lemma FileIsDotted(input: seq<byte>)
    requires input == FILE
    ensures Dotted(BitsOf(input))
  {
    hide Spelt, BitsOf, Dot;
    forall k | 0 <= k < 97 ensures BitsOf(input)[k] == 1 <==> Dot(k) {
      var i := k / 8;
      DotsAre(i);
      Eight(input, i, Dots(i));
      var j := k % 8;
      assert k == 8 * i + j && Dots(i)[j] == Bit(8 * i + j);
    }
  }

  /** They are a DEFLATE stream with trees of its own, and stand for one zero byte. */
  lemma ZeroByte(out: seq<byte>)
    ensures var b := BitsOf(FILE);
            RunStream(Format, b, 0, out) == RunStream(Program, b, 0, out) == Some((out + [0], 97))
  {
    var b, k := BitsOf(FILE), ZeroBlock();
    ZeroParts(k);
    FileIsDotted(FILE);
    BlockStands(b, out);
    Counts(b);
    hide *;
    Read(k, b, out);
  }

  lemma Read(k: Block, b: seq<bit>, out: seq<byte>)
    requires StreamAt([k], b, 0, out, out + [0], 97) && k.Dynamic? && k.ndist <= 30 && 0 < |b| && b[0] == 1
    ensures RunStream(Format, b, 0, out) == RunStream(Program, b, 0, out) == Some((out + [0], 97))
  {
    hide RunStream, ParseHeader, ParseTrees, Meets, CanWriteStream, WriteStream, StreamMeaning, Lsb;
    WrittenStreamRuns([k], b, 0, out, out + [0], 97);
    ProgramIsFormat(b, 0, out);
    LoneHeader(k, b, 0);
    FewDistances(b, out);
  }

  lemma FewDistances(b: seq<bit>, out: seq<byte>)
    requires |b| >= 3 && b[0] == 1 && ParseHeader(Format, b, 3).Some? && ParseHeader(Format, b, 3).value.0.ndist <= 30
    ensures !Meets(ManyDistances, b, 0, out)
  {
    hide ParseHeader, RunBody, Lsb;
  }
}
