/** Whole DEFLATE streams: what is accepted, what it means, and the two places where the program is not the format. */
module DeflateStreams {
  import opened Base
  import opened BitStream
  import opened Huffman
  import opened Deflate
  import opened DeflateGrammar
  import opened Arithmetic

  /** A nonempty list of valid blocks, the first starting at bit p. */
  ghost predicate CanWriteStream(ks: seq<Block>, p: nat)
    decreases |ks|
  {
    && ks != [] && CanWriteBlock(ks[0], p + 3)
    && (|ks| > 1 ==> CanWriteStream(ks[1..], p + 3 + |WriteBlock(ks[0], p + 3)|))
  }

  /** Each block behind its last-block bit and its two-bit kind (RFC 1951, section 3.2.3). */
  ghost function WriteStream(ks: seq<Block>, p: nat): seq<bit>
    requires CanWriteStream(ks, p)
    decreases |ks|
  {
    hide CanWriteBlock, WriteBlock;
    var w := WriteBlock(ks[0], p + 3);
    var head := [if |ks| == 1 then 1 else 0] + LsbBits(ks[0].Kind(), 2);
    head + (w + (if |ks| == 1 then [] else WriteStream(ks[1..], p + 3 + |w|)))
  }

  ghost function StreamMeaning(ks: seq<Block>, p: nat, out: seq<byte>): Option<seq<byte>>
    requires CanWriteStream(ks, p)
    decreases |ks|
  {
    hide CanWriteBlock, WriteBlock, BlockMeaning;
    match BlockMeaning(ks[0], p + 3, out)
    case None => None
    case Some(o) => if |ks| == 1 then Some(o) else StreamMeaning(ks[1..], p + 3 + |WriteBlock(ks[0], p + 3)|, o)
  }

  ghost predicate StreamAt(ks: seq<Block>, b: seq<bit>, p: nat, out: seq<byte>, o: seq<byte>, q: nat) {
    && CanWriteStream(ks, p)
    && At(b, p, WriteStream(ks, p)) && q == p + |WriteStream(ks, p)|
    && StreamMeaning(ks, p, out) == Some(o)
  }

  /** The three-bit block header. */
  lemma HeadIsRead(b: seq<bit>, p: nat, last: bit, kind: nat)
    requires kind < 4
    ensures At(b, p, [last] + LsbBits(kind, 2)) <==> p + 3 <= |b| && b[p] == last && Lsb(b, p + 1, 2) == kind
  {
    hide Lsb, LsbBits;
    AtJoin(b, p, [last], LsbBits(kind, 2));
    assert Pow2(2) == 4;
    NumberIsRead(b, p + 1, 2, kind);
  }

  lemma {:induction false} WrittenStreamRuns(ks: seq<Block>, b: seq<bit>, p: nat, out: seq<byte>, o: seq<byte>, q: nat)
    requires StreamAt(ks, b, p, out, o, q)
    ensures RunStream(Format, b, p, out) == Some((o, q))
    decreases |ks|
  {
    hide RunBody, WriteBlock, CanWriteBlock, BlockMeaning, At, Lsb, LsbBits;
    var w := WriteBlock(ks[0], p + 3);
    var e := p + 3 + |w|;
    var rest := if |ks| == 1 then [] else WriteStream(ks[1..], e);
    var last: bit := if |ks| == 1 then 1 else 0;
    AtJoin(b, p, [last] + LsbBits(ks[0].Kind(), 2), w + rest);
    AtJoin(b, p + 3, w, rest);
    HeadIsRead(b, p, last, ks[0].Kind());
    var m := BlockMeaning(ks[0], p + 3, out).value;
    WrittenBlockRuns(ks[0], b, p + 3, out, m, e);
    if |ks| > 1 { WrittenStreamRuns(ks[1..], b, e, m, o, q); }
  }

  lemma {:induction false} RunStreamWasWritten(b: seq<bit>, p: nat, out: seq<byte>, o: seq<byte>, q: nat)
    returns (ks: seq<Block>)
    requires RunStream(Format, b, p, out) == Some((o, q))
    ensures StreamAt(ks, b, p, out, o, q)
    decreases |b| - p
  {
    hide RunBody, WriteBlock, CanWriteBlock, BlockMeaning, At, Lsb, LsbBits;
    var kind := Lsb(b, p + 1, 2);
    var (m, e) := RunBody(Format, kind, b, p + 3, out).value;
    var k := BlockWasWritten(kind, b, p + 3, out, m, e);
    var w := WriteBlock(k, p + 3);
    var head := [b[p]] + LsbBits(kind, 2);
    HeadIsRead(b, p, b[p], kind);
    if b[p] == 1 {
      ks := [k];
      AtEnd(b, p + 3, w);
      AtJoin(b, p, head, w + []);
    } else {
      var more := RunStreamWasWritten(b, e, m, o, q);
      ks := [k] + more;
      assert ks[1..] == more;
      AtJoin(b, p + 3, w, WriteStream(more, e));
      AtJoin(b, p, head, w + WriteStream(more, e));
    }
  }

  lemma AtEnd(b: seq<bit>, p: nat, w: seq<bit>)
    ensures At(b, p, w + []) <==> At(b, p, w)
  {
    assert w + [] == w;
  }

  /** The format, as a reader, accepts exactly the valid streams and gives each its meaning. */
  lemma FormatIsExact(b: seq<bit>, p: nat, out: seq<byte>, o: seq<byte>, q: nat)
    ensures RunStream(Format, b, p, out) == Some((o, q)) <==> exists ks :: StreamAt(ks, b, p, out, o, q)
  {
    hide RunStream, StreamAt;
    if RunStream(Format, b, p, out) == Some((o, q)) {
      var ks := RunStreamWasWritten(b, p, out, o, q);
    }
    if ks :| StreamAt(ks, b, p, out, o, q) {
      WrittenStreamRuns(ks, b, p, out, o, q);
    }
  }

  // ---- the program is not quite the format ----

  /** The two departures, both in the trees of a dynamic block: a distance tree with more codes than there is room
      for, which the program lets through, and a header of more than 30 distance lengths, which it refuses. */
  datatype Departure = OverfullTree | ManyDistances

  ghost predicate DepartsAt(d: Departure, b: seq<bit>, p: nat) {
    match d
    case OverfullTree => ParseTrees(Program, b, p).Some? && OverSubscribed(ParseTrees(Program, b, p).value.0.dist)
    case ManyDistances => ParseHeader(Format, b, p).Some? && ParseHeader(Format, b, p).value.0.ndist > 30
  }

  /** The program meets a departure before it stops. */
  ghost predicate Meets(d: Departure, b: seq<bit>, p: nat, out: seq<byte>)
    decreases |b| - p
  {
    p + 3 <= |b| &&
    ( || (Lsb(b, p + 1, 2) == 2 && DepartsAt(d, b, p + 3))
      || (match RunBlock(Program, b, p, out)
          case None => false
          case Some((o, q)) => b[p] != 1 && Meets(d, b, q, o)))
  }

  lemma TreesDiffer(b: seq<bit>, p: nat)
    ensures DepartsAt(OverfullTree, b, p) ==> ParseTrees(Format, b, p) == None
    ensures DepartsAt(ManyDistances, b, p) ==> ParseTrees(Program, b, p) == None
    ensures !DepartsAt(OverfullTree, b, p) && !DepartsAt(ManyDistances, b, p) ==>
              ParseTrees(Format, b, p) == ParseTrees(Program, b, p)
  {
    hide Threes, Deal, RunLens, Good, OverSubscribed, Lsb;
  }

  /** Apart from the two departures the program is the format; at the first it accepts what is not valid, at the
      second it refuses. */
  lemma {:induction false} ProgramIsFormat(b: seq<bit>, p: nat, out: seq<byte>)
    ensures Meets(OverfullTree, b, p, out) ==> RunStream(Format, b, p, out) == None
    ensures Meets(ManyDistances, b, p, out) ==> RunStream(Program, b, p, out) == None
    ensures !Meets(OverfullTree, b, p, out) && !Meets(ManyDistances, b, p, out) ==>
              RunStream(Format, b, p, out) == RunStream(Program, b, p, out)
    decreases |b| - p
  {
    hide RunTokens, RunStored, ParseHeader, ParseTrees, DepartsAt, Lsb, FixedLit, FixedDist;
    if p + 3 <= |b| {
      TreesDiffer(b, p + 3);
      if RunBlock(Program, b, p, out).Some? {
        var (o, q) := RunBlock(Program, b, p, out).value;
        ProgramIsFormat(b, q, o);
      }
    }
  }

  /** What the program makes of a byte string: apart from the two departures, the meaning of the valid stream there,
      exactly if there is one. */
  lemma AcceptedStreams(input: seq<byte>, prior: seq<byte>, o: seq<byte>, q: nat)
    ensures var b := BitsOf(input);
            var valid := exists ks :: StreamAt(ks, b, 0, prior, o, q);
            var accepted := RunStream(Program, b, 0, prior) == Some((o, q));
            && (accepted && !valid ==> Meets(OverfullTree, b, 0, prior))
            && (valid && !accepted ==> Meets(ManyDistances, b, 0, prior))
            && (Meets(OverfullTree, b, 0, prior) ==> !valid)
            && (Meets(ManyDistances, b, 0, prior) ==> !accepted)
  {
    hide *;
    ProgramIsFormat(BitsOf(input), 0, prior);
    FormatIsExact(BitsOf(input), 0, prior, o, q);
  }

  // ---- a stream as it stands in a file ----

  /** Thirty bits: the last block, of fixed codes; the letter a (10010001); a match of length 8 (0000110) at distance 1
      (00000); and the end (0000000). */
  const NINE: seq<bit> := [1, 1, 0, 1, 0, 0, 1, 0, 0, 0, 1, 0, 0, 0, 0, 1, 1, 0, 0, 0, 0, 0, 0, 0, 0, 0, 0, 0, 0, 0]

  const LETTER: byte := 0x61

  /** The four bytes 4B 84 01 00 are a DEFLATE stream and stand for nine letters a. */
  lemma NineLetters(out: seq<byte>)
    ensures var b := BitsOf([0x4B, 0x84, 0x01, 0x00]);
            var o := out + [LETTER, LETTER, LETTER, LETTER, LETTER, LETTER, LETTER, LETTER, LETTER];
            RunStream(Format, b, 0, out) == RunStream(Program, b, 0, out) == Some((o, 30))
  {
    var b := BitsOf([0x4B, 0x84, 0x01, 0x00]);
    var ts := [Literal(LETTER), Match(5, 0, 0, 0)];
    NineBits([0x4B, 0x84, 0x01, 0x00]);
    NineWritten(ts);
    NineMean(ts, out);
    WrittenStreamRuns([Fixed(ts)], b, 0, out, Expand(ts, out).value, 30);
    ProgramIsFormat(b, 0, out);
    NoDeparture(b, out);
  }

  lemma NineBits(input: seq<byte>)
    requires |input| == 4 && input[0] == 0x4B && input[1] == 0x84 && input[2] == 0x01 && input[3] == 0x00
    ensures |BitsOf(input)| == 32 && BitsOf(input)[..30] == NINE
  {
    var u, v: seq<bit>, w: seq<bit>, z: seq<bit> := NINE[..8], NINE[8..16], NINE[16..24], NINE[24..] + [0, 0];
    NineSpells(u, v, w, z);
    NineJoins(NINE, z);
    hide BitsOf, NINE, Spelt;
    ByteIs(input, 0, u);
    ByteIs(input, 1, v);
    ByteIs(input, 2, w);
    ByteIs(input, 3, z);
    FourBytes(BitsOf(input), u, v, w, z);
  }

  lemma NineJoins(nine: seq<bit>, z: seq<bit>)
    requires |nine| == 30 && z == nine[24..] + [0, 0]
    ensures nine[..8] + nine[8..16] + nine[16..24] + z[..6] == nine
  {
    assert z[..6] == nine[24..];
  }

  lemma NineSpells(u: seq<bit>, v: seq<bit>, w: seq<bit>, z: seq<bit>)
    requires u == NINE[..8] && v == NINE[8..16] && w == NINE[16..24] && z == NINE[24..] + [0, 0]
    ensures |u| == |v| == |w| == |z| == 8
    ensures Spelt(u) == 0x4B && Spelt(v) == 0x84 && Spelt(w) == 0x01 && Spelt(z) == 0
  {
    assert forall k | 0 <= k < 8 :: v[k] == NINE[8 + k] && w[k] == NINE[16 + k];
    assert v[0] == v[1] == 0 && v[2] == 1 && v[3] == v[4] == v[5] == v[6] == 0 && v[7] == 1;
    assert w[0] == 1 && w[1] == w[2] == w[3] == w[4] == w[5] == w[6] == w[7] == 0;
  }

  function Spelt(w: seq<bit>): int
    requires |w| == 8
  {
    (w[0] as int) + 2 * ((w[1] as int) + 2 * ((w[2] as int) + 2 * ((w[3] as int) +
      2 * ((w[4] as int) + 2 * ((w[5] as int) + 2 * ((w[6] as int) + 2 * (w[7] as int)))))))
  }

  lemma FourBytes(b: seq<bit>, u: seq<bit>, v: seq<bit>, w: seq<bit>, z: seq<bit>)
    requires |b| == 32 && |z| == 8 && b[0..8] == u && b[8..16] == v && b[16..24] == w && b[24..32] == z
    ensures b[..30] == u + v + w + z[..6]
  {
  }

  /** The bits of a byte, the lowest first. */
  lemma ByteIs(input: seq<byte>, i: nat, w: seq<bit>)
    requires i < |input| && |w| == 8 && Spelt(w) == input[i]
    ensures BitsOf(input)[8 * i..8 * i + 8] == w
  {
    hide Lsb, LsbBits, BitsOf;
    LsbOfByte(input, i);
    NextBit(w, 0);
    NextBit(w, 1);
    NextBit(w, 2);
    NextBit(w, 3);
    NextBit(w, 4);
    NextBit(w, 5);
    NextBit(w, 6);
    NextBit(w, 7);
    assert Lsb(w, 0, 8) == input[i];
    LsbBitsAreRead(BitsOf(input), 8 * i, 8, input[i]);
    LsbBitsAreRead(w, 0, 8, input[i]);
    assert w[0..8] == w;
  }

  lemma NextBit(w: seq<bit>, p: nat)
    requires p < |w| == 8
    ensures Lsb(w, p, 8 - p) == (w[p] as int) + 2 * Lsb(w, p + 1, 7 - p) && (p == 7 ==> Lsb(w, p + 1, 7 - p) == 0)
  {
  }

  lemma NineWritten(ts: seq<Token>)
    requires ts == [Literal(LETTER), Match(5, 0, 0, 0)]
    ensures CanWriteStream([Fixed(ts)], 0) && WriteStream([Fixed(ts)], 0) == NINE
  {
    NineCodes();
    hide MsbBits, Code, FixedLit, FixedDist;
    assert LenExtra(5) == 0 && DistExtra(0) == 0 && Pow2(0) == 1;
    assert CanWriteBlock(Fixed(ts), 3);
    NineBody(ts);
    hide WriteAll, CanWriteAll;
    assert LsbBits(1, 2) == [1, 0] by { assert LsbBits(0, 1) == [0]; }
    assert Fixed(ts).Kind() == 1;
  }

  lemma NineBody(ts: seq<Token>)
    requires ts == [Literal(LETTER), Match(5, 0, 0, 0)] && CanWriteAll(ts, FixedLit(), FixedDist())
    ensures WriteAll(ts, FixedLit(), FixedDist()) == NINE[3..]
  {
    NineCodes();
    hide Code, MsbBits, FixedLit, FixedDist;
    var lit, dist := FixedLit(), FixedDist();
    assert ts[1..] == [Match(5, 0, 0, 0)] && ts[1..][1..] == [];
    assert LenExtra(5) == 0 && DistExtra(0) == 0;
    assert WriteRest(ts[1], dist) == [] + (CodeBits(dist, 0) + []) == [0, 0, 0, 0, 0];
    assert WriteAll([], lit, dist) == [0, 0, 0, 0, 0, 0, 0];
    assert WriteAll(ts[1..], lit, dist) == Write(ts[1], lit, dist) + WriteAll([], lit, dist);
    assert WriteAll(ts, lit, dist) == Write(ts[0], lit, dist) + WriteAll(ts[1..], lit, dist);
  }

  lemma NineCodes()
    ensures FixedLit()[0x61] == 8 && FixedLit()[262] == 7 && FixedLit()[256] == 7 && FixedDist()[0] == 5
    ensures CodeBits(FixedLit(), 0x61) == [1, 0, 0, 1, 0, 0, 0, 1]
    ensures CodeBits(FixedLit(), 262) == [0, 0, 0, 0, 1, 1, 0] && CodeBits(FixedLit(), 256) == [0, 0, 0, 0, 0, 0, 0]
    ensures CodeBits(FixedDist(), 0) == [0, 0, 0, 0, 0]
  {
    hide Code, FixedLit, FixedDist, MsbBits, CodeBits;
    WithCode(FixedLit(), 0x61, 0x91, 8) by { FixedCodes(0x61); }
    WithCode(FixedLit(), 262, 6, 7) by { FixedCodes(262); }
    WithCode(FixedLit(), 256, 0, 7) by { FixedCodes(256); }
    WithCode(FixedDist(), 0, 0, 5) by { FixedCodes(0); }
    LetterBits();
    MatchBits();
    ZeroBits(5);
    ZeroBits(7);
  }

  lemma WithCode(lens: seq<nat>, s: nat, v: nat, n: nat)
    requires s < |lens| && lens[s] == n && Code(lens, s) == v
    ensures lens[s] == n && CodeBits(lens, s) == MsbBits(v, n)
  {
  }

  lemma LetterBits()
    ensures MsbBits(0x91, 8) == [1, 0, 0, 1, 0, 0, 0, 1]
  {
    assert MsbBits(4, 3) == [1, 0, 0] && MsbBits(9, 4) == [1, 0, 0, 1];
    assert MsbBits(18, 5) == [1, 0, 0, 1, 0] && MsbBits(36, 6) == [1, 0, 0, 1, 0, 0];
    assert MsbBits(72, 7) == [1, 0, 0, 1, 0, 0, 0];
  }

  lemma MatchBits()
    ensures MsbBits(6, 7) == [0, 0, 0, 0, 1, 1, 0]
  {
    ZeroBits(4);
    assert MsbBits(1, 5) == [0, 0, 0, 0, 1] && MsbBits(3, 6) == [0, 0, 0, 0, 1, 1];
  }

  lemma {:induction false} ZeroBits(n: nat)
    ensures MsbBits(0, n) == seq<bit>(n, _ => 0)
    decreases n
  {
    if n > 0 { ZeroBits(n - 1); }
  }

  lemma NineMean(ts: seq<Token>, out: seq<byte>)
    requires ts == [Literal(LETTER), Match(5, 0, 0, 0)] && CanWriteStream([Fixed(ts)], 0)
    ensures Expand(ts, out) == Some(out + [LETTER, LETTER, LETTER, LETTER, LETTER, LETTER, LETTER, LETTER, LETTER])
    ensures StreamMeaning([Fixed(ts)], 0, out) == Expand(ts, out)
  {
    var one := out + [LETTER];
    var o := LzCopy(one, 1, 8);
    hide FixedLit, FixedDist, WriteBlock;
    assert ts[1..] == [Match(5, 0, 0, 0)] && ts[1..][1..] == [];
    assert LenBase(5) == 8 && DistBase(0) == 1 && ts[1].Length() == 8 && ts[1].Distance() == 1;
    assert Expand(ts, out) == Expand(ts[1..], one) == Some(o);
    forall i | |out| <= i < |o| ensures o[i] == LETTER {
      if i == |out| { assert o[..|one|] == one; } else { CopyIsPeriodic(one, 1, 8, i - |one|); }
    }
    assert o[..|one|] == one && o[..|out|] == one[..|out|] == out;
    assert o == out + [LETTER, LETTER, LETTER, LETTER, LETTER, LETTER, LETTER, LETTER, LETTER];
  }

  lemma NoDeparture(b: seq<bit>, out: seq<byte>)
    requires |b| == 32 && b[..30] == NINE
    ensures !Meets(OverfullTree, b, 0, out) && !Meets(ManyDistances, b, 0, out)
  {
    hide RunBody;
    assert b[0] == b[..30][0] && b[1] == b[..30][1] && b[2] == b[..30][2];
    assert Lsb(b, 1, 2) == 1 by { assert Lsb(b, 2, 1) == b[2] + 2 * Lsb(b, 3, 0); }
  }

  // ---- a block for each departure ----

  /** The lengths of the code-length symbols 18, 0, 5 and 1, in the order of the format: two bits each. */
  const VALS: seq<nat> := [0, 0, 2, 2, 0, 0, 0, 0, 0, 2, 0, 0, 0, 0, 0, 0, 0, 2]

  /** One code for byte 0 and one for the end of the block, of one bit each. */
  function Lits(): seq<nat> { [1] + Repeat(0, 255) + [1] }

  /** A block without tokens, and n distance codes of v bits each. */
  ghost function OddBlock(v: nat, n: nat): Block {
    Dynamic(257, n, VALS, [Len(1), ManyZeros(127), ManyZeros(106), Len(1)] + seq(n, _ => Len(v)), Lits() + Repeat(v, n), [])
  }

  lemma {:induction false} Dealt(vals: seq<nat>)
    requires |vals| <= 19
    ensures forall i | 0 <= i < 19 :: Deal(vals)[OrderAt(i)] == if i < |vals| then vals[i] else 0
    decreases |vals|
  {
    hide OrderAt;
    if vals != [] {
      var n := |vals| - 1;
      Dealt(vals[..n]);
      OrderIsInjective(n);
    }
  }

  lemma OrderIsInjective(n: nat)
    requires n < 19
    ensures forall i | 0 <= i < 19 && i != n :: OrderAt(i) != OrderAt(n)
  {
  }

  lemma LengthCode(cl: seq<nat>)
    requires cl == Deal(VALS)
    ensures forall s | 0 <= s < 19 :: cl[s] == if s == 0 || s == 1 || s == 5 || s == 18 then 2 else 0
    ensures Lengths(cl) && Good(cl)
  {
    Dealt(VALS);
    assert cl[OrderAt(0)] == 0 && cl[OrderAt(1)] == 0 && cl[OrderAt(2)] == 2 && cl[OrderAt(3)] == 2 && cl[OrderAt(4)] == 0;
    assert cl[OrderAt(5)] == 0 && cl[OrderAt(6)] == 0 && cl[OrderAt(7)] == 0 && cl[OrderAt(8)] == 0 && cl[OrderAt(9)] == 2;
    assert cl[OrderAt(10)] == 0 && cl[OrderAt(11)] == 0 && cl[OrderAt(12)] == 0 && cl[OrderAt(13)] == 0;
    assert cl[OrderAt(14)] == 0 && cl[OrderAt(15)] == 0 && cl[OrderAt(16)] == 0 && cl[OrderAt(17)] == 2 && cl[OrderAt(18)] == 0;
    LengthCodeIsGood(cl);
  }

  lemma LengthCodeIsGood(cl: seq<nat>)
    requires |cl| == 19 && forall s | 0 <= s < 19 :: cl[s] == if s == 0 || s == 1 || s == 5 || s == 18 then 2 else 0
    ensures Good(cl)
  {
    assert Pow2(13) == 8192;
    assert cl[0] == 2;
    SumOfRun(cl, 0, 2, 2, 8192);
    ZerosAddNothing(cl, 2, 5);
    SumOfRun(cl, 5, 6, 2, 8192);
    ZerosAddNothing(cl, 6, 18);
    SumOfRun(cl, 18, 19, 2, 8192);
  }

  lemma {:induction false} ZerosAddNothing(lens: seq<nat>, i: nat, j: nat)
    requires i <= j <= |lens| && forall k | i <= k < j :: lens[k] == 0
    ensures KraftSum(lens, j, MAX_BITS) == KraftSum(lens, i, MAX_BITS)
    decreases j - i
  {
    if i < j { ZerosAddNothing(lens, i, j - 1); }
  }

  lemma LitsAreComplete(lit: seq<nat>)
    requires lit == Lits()
    ensures Lengths(lit) && Good(lit) && HasCode(lit, 256)
  {
    assert Pow2(14) == 16384;
    assert lit[0] == 1;
    SumOfRun(lit, 0, 1, 1, 16384);
    ZerosAddNothing(lit, 1, 256);
    SumOfRun(lit, 256, 257, 1, 16384);
  }

  lemma OddLengths(v: nat, n: nat)
    ensures var k := OddBlock(v, n);
            && ExpandLens(k.ls, []) == Some(k.lens)
            && k.lens[..257] == Lits() && k.lens[257..] == Repeat(v, n)
  {
    var k := OddBlock(v, n);
    var tail := seq(n, _ => Len(v));
    var a, b, c := [1], [1] + Repeat(0, 138), [1] + Repeat(0, 138) + Repeat(0, 117);
    assert c == [1] + Repeat(0, 255);
    assert k.ls[1..] == [ManyZeros(127), ManyZeros(106), Len(1)] + tail;
    assert k.ls[1..][1..] == [ManyZeros(106), Len(1)] + tail;
    assert k.ls[1..][1..][1..] == [Len(1)] + tail;
    assert k.ls[1..][1..][1..][1..] == tail;
    assert ExpandLens(k.ls, []) == ExpandLens(k.ls[1..], a) by { assert [] + [1] == a; }
    assert ExpandLens(k.ls[1..], a) == ExpandLens([ManyZeros(106), Len(1)] + tail, b);
    assert ExpandLens([ManyZeros(106), Len(1)] + tail, b) == ExpandLens([Len(1)] + tail, c);
    assert ExpandLens([Len(1)] + tail, c) == ExpandLens(tail, c + [1]);
    LensFollow(c + [1], v, n);
  }

  lemma {:induction false} LensFollow(acc: seq<nat>, v: nat, n: nat)
    ensures ExpandLens(seq(n, _ => Len(v)), acc) == Some(acc + Repeat(v, n))
    decreases n
  {
    var t := seq(n, _ => Len(v));
    if n == 0 {
      assert acc + Repeat(v, 0) == acc;
    } else {
      assert t[1..] == seq(n - 1, _ => Len(v));
      LensFollow(acc + [v], v, n - 1);
      assert acc + [v] + Repeat(v, n - 1) == acc + Repeat(v, n);
    }
  }

  /** Everything of an odd block but its distance tree is valid. */
  lemma OddIsWritable(v: nat, n: nat)
    requires v == 1 || v == 5
    ensures var k := OddBlock(v, n);
            && (1 <= n <= 32 ==> CanWriteHeader(k))
            && CanWriteLens(k.ls, Deal(k.vals)) && CanWriteAll([], k.lens[..257], k.lens[257..])
  {
    hide Deal, Good;
    LengthCode(Deal(VALS));
    OddLengths(v, n);
    LitsAreComplete(OddBlock(v, n).lens[..257]);
  }

  /** A dynamic block that announces 32 distance codes, five bits each, as the fixed blocks have them, is valid. */
  lemma ManyDistancesAreValid(p: nat, out: seq<byte>)
    ensures CanWriteStream([OddBlock(5, 32)], p) && StreamMeaning([OddBlock(5, 32)], p, out) == Some(out)
  {
    hide Deal, Good, CanWriteHeader, CanWriteLens, ExpandLens, WriteBlock, OverSubscribed;
    OddIsWritable(5, 32);
    OddLengths(5, 32);
    LitsAreComplete(Lits());
    FivesFit(Repeat(5, 32));
  }

  lemma FivesFit(dist: seq<nat>)
    requires dist == Repeat(5, 32)
    ensures !OverSubscribed(dist)
  {
    assert Pow2(10) == 1024;
    SumOfRun(dist, 0, 32, 5, 1024);
  }

  /** A lone dynamic block, its three bits and its header read. */
  lemma LoneHeader(k: Block, b: seq<bit>, p: nat)
    requires k.Dynamic? && CanWriteStream([k], p) && At(b, p, WriteStream([k], p))
    ensures p + 3 <= |b| && Lsb(b, p + 1, 2) == 2
    ensures ParseHeader(Format, b, p + 3).Some? && ParseHeader(Format, b, p + 3).value.0.ndist == k.ndist
  {
    hide At, WriteHeader, WriteLens, WriteAll, Deal, CodeBits, ParseHeader, RunLens, LsbBits, Lsb, Good, OverSubscribed,
      CanWriteLens, CanWriteAll, ExpandLens;
    var w := WriteBlock(k, p + 3);
    var lit, dist := k.lens[..k.nlen], k.lens[k.nlen..];
    AtJoin(b, p, [1] + LsbBits(2, 2), w + []);
    AtEnd(b, p + 3, w);
    HeadIsRead(b, p, 1, 2);
    AtJoin(b, p + 3, WriteHeader(k) + WriteLens(k.ls, Deal(k.vals)), WriteAll(k.ts, lit, dist));
    AtJoin(b, p + 3, WriteHeader(k), WriteLens(k.ls, Deal(k.vals)));
    HeaderIsRead(k, b, p + 3);
  }

  /** Wherever it stands the program refuses it. */
  lemma ManyDistancesAreRefused(b: seq<bit>, p: nat, out: seq<byte>)
    requires CanWriteStream([OddBlock(5, 32)], p) && At(b, p, WriteStream([OddBlock(5, 32)], p))
    ensures RunStream(Program, b, p, out) == None && Meets(ManyDistances, b, p, out)
    ensures exists ks, q :: StreamAt(ks, b, p, out, out, q)
  {
    hide OddBlock, CanWriteStream, WriteStream, StreamMeaning, At, RunStream, Meets, ParseHeader, Lsb;
    var k := OddBlock(5, 32);
    Thirtytwo();
    ManyDistancesAreValid(p, out);
    assert StreamAt([k], b, p, out, out, p + |WriteStream([k], p)|);
    LoneHeader(k, b, p);
    MetAtOnce(ManyDistances, b, p, out);
    ProgramIsFormat(b, p, out);
  }

  lemma Thirtytwo()
    ensures OddBlock(5, 32).Dynamic? && OddBlock(5, 32).ndist == 32
  {
  }

  lemma MetAtOnce(d: Departure, b: seq<bit>, p: nat, out: seq<byte>)
    requires p + 3 <= |b| && Lsb(b, p + 1, 2) == 2 && DepartsAt(d, b, p + 3)
    ensures Meets(d, b, p, out)
  {
  }

  lemma ThreeOnes(dist: seq<nat>)
    requires dist == Repeat(1, 3)
    ensures OverSubscribed(dist)
  {
    assert Pow2(14) == 16384;
    SumOfRun(dist, 0, 3, 1, 16384);
  }

  ghost predicate OverfullWritable() {
    var k := OddBlock(1, 3);
    && CanWriteHeader(k) && CanWriteLens(k.ls, Deal(k.vals)) && CanWriteAll([], k.lens[..257], k.lens[257..])
  }

  lemma OverfullIsWritable()
    ensures OverfullWritable()
  {
    hide CanWriteHeader, CanWriteLens, CanWriteAll;
    OddIsWritable(1, 3);
  }

  /** A block with three distance codes of one bit each, written as if it were valid. */
  ghost function OverfullStream(): seq<bit>
    requires OverfullWritable()
  {
    var k := OddBlock(1, 3);
    ([1] + LsbBits(2, 2))
    + ((WriteHeader(k) + WriteLens(k.ls, Deal(k.vals))) + WriteAll([], k.lens[..257], k.lens[257..]))
  }

  /** Wherever that block stands the program accepts it, though no list of valid blocks is written so. */
  lemma OverfullTreeIsAccepted(b: seq<bit>, p: nat, prior: seq<byte>)
    requires OverfullWritable() && At(b, p, OverfullStream())
    ensures RunStream(Program, b, p, prior) == Some((prior, p + |OverfullStream()|)) && Meets(OverfullTree, b, p, prior)
    ensures !exists ks, o, q :: StreamAt(ks, b, p, prior, o, q)
  {
    hide At, WriteHeader, WriteLens, Deal, CodeBits, ParseHeader, RunLens, ExpandLens, LsbBits, Lsb, Good, OverSubscribed,
      CanWriteHeader, CanWriteLens, ParseToken, StreamAt, KraftSum;
    var k := OddBlock(1, 3);
    var lit, dist := k.lens[..257], k.lens[257..];
    OddLengths(1, 3);
    LitsAreComplete(lit);
    ThreeOnes(dist);
    var h, w, c := WriteHeader(k), WriteLens(k.ls, Deal(k.vals)), WriteAll([], lit, dist);
    AtJoin(b, p, [1] + LsbBits(2, 2), (h + w) + c);
    AtJoin(b, p + 3, h + w, c);
    AtJoin(b, p + 3, h, w);
    HeadIsRead(b, p, 1, 2);
    HeaderIsRead(k, b, p + 3);
    var e := p + 3 + |h|;
    OverfullLensRun(k, b, e, e + |w|);
    assert ParseHeader(Program, b, p + 3) == ParseHeader(Format, b, p + 3) by { SmallHeader(b, p + 3); }
    assert ParseTrees(Program, b, p + 3) == Some((Trees(lit, dist), e + |w|));
    NoTokens(lit, dist, b, e + |w|, prior);
    ProgramIsFormat(b, p, prior);
    forall ks, o, q ensures !StreamAt(ks, b, p, prior, o, q) {
      FormatIsExact(b, p, prior, o, q);
    }
  }

  lemma SmallHeader(b: seq<bit>, p: nat)
    requires ParseHeader(Format, b, p).Some? && ParseHeader(Format, b, p).value.0.ndist <= 30
    ensures ParseHeader(Program, b, p) == ParseHeader(Format, b, p)
  {
    hide Threes, Deal, Good, Lsb;
  }

  lemma OverfullLensRun(k: Block, b: seq<bit>, p: nat, q: nat)
    requires k == OddBlock(1, 3) && OverfullWritable()
    requires ExpandLens(k.ls, []) == Some(k.lens)
    requires At(b, p, WriteLens(k.ls, Deal(k.vals))) && q == p + |WriteLens(k.ls, Deal(k.vals))|
    ensures RunLens(Deal(k.vals), b, p, 260, []) == Some((k.lens, q))
  {
    hide At, WriteLens, Deal, Good, ExpandLens, RunLens, CanWriteLens, CanWriteAll;
    LengthCode(Deal(k.vals));
    Within(b, p, WriteLens(k.ls, Deal(k.vals)));
    WrittenLensRun(k.ls, Deal(k.vals), b, p, [], k.lens, q);
  }

  /** An end-of-block code alone, whatever the distance tree. */
  lemma NoTokens(lit: seq<nat>, dist: seq<nat>, b: seq<bit>, p: nat, out: seq<byte>)
    requires Lengths(lit) && Good(lit) && HasCode(lit, 256) && At(b, p, WriteAll([], lit, dist))
    ensures RunTokens(lit, dist, b, p, out) == Some((out, p + |WriteAll([], lit, dist)|))
  {
    hide DecodeSym, CodeBits, At, Good;
    SymbolIsRead(lit, b, p, 256, lit[256]);
  }

  /** Every string of bits stands at the front of some string of bytes, so both blocks occur as input. */
  lemma {:induction false} BitsAreBytes(w: seq<bit>) returns (input: seq<byte>)
    ensures At(BitsOf(input), 0, w)
    decreases |w|
  {
    if w == [] {
      input := [];
    } else {
      var n := if |w| < 8 then |w| else 8;
      var first := w[..n] + seq(8 - n, _ => 0);
      var rest := BitsAreBytes(w[n..]);
      hide ByteOf, At;
      input := [ByteOf(first, 0)] + rest;
      FirstByte(first, rest);
      assert BitsOf(input) == first + BitsOf(rest);
      Continued(w, first, BitsOf(rest), n);
    }
  }

  lemma Continued(w: seq<bit>, first: seq<bit>, more: seq<bit>, n: nat)
    requires |first| == 8 && n <= |w| && n <= 8 && (n < 8 ==> n == |w|)
    requires first[..n] == w[..n] && At(more, 0, w[n..])
    ensures At(first + more, 0, w)
  {
    var b := first + more;
    if n < 8 {
      assert b[..|w|] == first[..n];
    } else {
      assert b[..|w|] == first + more[..|w| - 8];
      assert w == w[..8] + w[8..];
    }
  }

  lemma FirstByte(first: seq<bit>, rest: seq<byte>)
    requires |first| == 8
    ensures BitsOf([ByteOf(first, 0)] + rest) == first + BitsOf(rest)
  {
    var input := [ByteOf(first, 0)] + rest;
    var b := BitsOf(input);
    LsbOfByte(input, 0);
    LsbBitsAreRead(b, 0, 8, ByteOf(first, 0));
    LsbBitsAreRead(first, 0, 8, ByteOf(first, 0));
    hide LsbBits, Lsb;
    assert b[..8] == b[0..8] == first[0..8] == first;
    LaterBits(ByteOf(first, 0), rest);
    hide BitsOf, ByteOf;
    assert b == b[..8] + b[8..];
  }

  lemma LaterBits(x: byte, rest: seq<byte>)
    ensures |BitsOf([x] + rest)| >= 8 && BitsOf([x] + rest)[8..] == BitsOf(rest)
  {
    var b := BitsOf([x] + rest);
    forall k: nat | k < |BitsOf(rest)| ensures b[8..][k] == BitsOf(rest)[k] {
      assert (k + 8) / 8 == k / 8 + 1 && (k + 8) % 8 == k % 8 && ([x] + rest)[k / 8 + 1] == rest[k / 8];
    }
  }

  // ---- meaning of a match ----

  /** An overlapping copy repeats the last d bytes for as long as it runs. */
  lemma CopyIsPeriodic(out: seq<byte>, d: nat, n: nat, k: nat)
    requires 1 <= d <= |out| && k < n
    ensures LzCopy(out, d, n)[|out| + k] == out[|out| - d + k % d]
  {
    hide LzCopy;
    CopyRepeats(out, d, n, k);
  }

  /** How far byte k of a match is into the bytes that it repeats. */
  function Phase(k: nat, d: nat): (r: nat)
    requires d > 0
    ensures r < d
  {
    k % d
  }

  lemma PhaseIs(k: nat, d: nat)
    requires d > 0
    ensures if k < d then Phase(k, d) == k else Phase(k, d) == Phase(k - d, d)
  {
    if k < d { Quotient(k, d, 0, k); } else { OneLess(k, d); }
  }

  /** Byte k of a match. */
  function Copied(out: seq<byte>, d: nat, n: nat, k: nat): byte
    requires 1 <= d <= |out| && k < n
  {
    LzCopy(out, d, n)[|out| + k]
  }

  lemma {:induction false} CopyRepeats(out: seq<byte>, d: nat, n: nat, k: nat)
    requires 1 <= d <= |out| && k < n
    ensures Copied(out, d, n, k) == out[|out| - d + Phase(k, d)]
    decreases n, k
  {
    hide Copied, Phase;
    CopyStep(out, d, n, k);
    PhaseIs(k, d);
    if k < n - 1 {
      CopyRepeats(out, d, n - 1, k);
    } else if k >= d {
      CopyRepeats(out, d, n - 1, k - d);
    }
  }

  /** The last byte of a copy is the one d places back, of the copy so far or of the output before it. */
  lemma CopyStep(out: seq<byte>, d: nat, n: nat, k: nat)
    requires 1 <= d <= |out| && k < n
    ensures k < n - 1 ==> Copied(out, d, n, k) == Copied(out, d, n - 1, k)
    ensures k == n - 1 && k >= d ==> Copied(out, d, n, k) == Copied(out, d, n - 1, k - d)
    ensures k == n - 1 && k < d ==> Copied(out, d, n, k) == out[|out| - d + k]
  {
    var r := LzCopy(out, d, n - 1);
    assert LzCopy(out, d, n) == r + [r[|r| - d]];
    assert k < d ==> r[|out| - d + k] == out[|out| - d + k] by { assert r[..|out|] == out; }
  }

  /** The first 28 length symbols cover 3 to 258 once each, in order: a range starts where the one before
      ends. Symbol 285 is a second name for 258. */
  lemma LengthRangesTile(i: nat)
    requires i < 28
    ensures LenBase(0) == 3 && LenBase(28) == 258
    ensures LenBase(i) + Pow2(LenExtra(i)) == if i == 27 then 259 else LenBase(i + 1)
  {
    var x := LenExtra(i);
    if i >= 8 {
      ShiftAdds(4 + i % 4, x);
      if i % 4 == 3 {
        ShiftOnce(4, x);
        LastLength(i, x);
      } else {
        assert LenExtra(i + 1) == x && (i + 1) % 4 == i % 4 + 1;
      }
    } else if i == 7 {
      assert Shl(4, 1) == 8;
    }
  }

  lemma LastLength(i: nat, x: nat)
    requires 8 <= i < 28 && i % 4 == 3 && x == LenExtra(i)
    ensures i == 27 ==> Shl(8, x) == 256
    ensures i < 27 ==> LenExtra(i + 1) == x + 1 && (i + 1) % 4 == 0
  {
    if i == 27 { assert Shl(8, 5) == 256; }
  }

  /** The distance symbols do the same for 1 to 32768. */
  lemma DistanceRangesTile(i: nat)
    requires i < 30
    ensures DistBase(0) == 1
    ensures DistBase(i) + Pow2(DistExtra(i)) == if i == 29 then 32769 else DistBase(i + 1)
  {
    var x := DistExtra(i);
    if i >= 2 {
      ShiftAdds(2 + i % 2, x);
      if i % 2 == 1 {
        ShiftOnce(2, x);
        LastDistance(i, x);
      } else {
        assert DistExtra(i + 1) == x && (i + 1) % 2 == 1;
      }
    } else if i == 1 {
      assert Shl(2, 0) == 2;
    }
  }

  lemma LastDistance(i: nat, x: nat)
    requires 2 <= i < 30 && i % 2 == 1 && x == DistExtra(i)
    ensures i == 29 ==> Shl(4, x) == 32768
    ensures i < 29 ==> DistExtra(i + 1) == x + 1 && (i + 1) % 2 == 0
  {
    if i == 29 { assert Shl(4, 13) == 32768; }
  }

  lemma {:induction false} ShiftAdds(v: nat, n: nat)
    ensures Shl(v, n) + Pow2(n) == Shl(v + 1, n)
  {
    if n > 0 { ShiftAdds(v, n - 1); }
  }

  lemma {:induction false} ShiftOnce(v: nat, n: nat)
    ensures Shl(2 * v, n) == Shl(v, n + 1)
  {
    if n > 0 { ShiftOnce(v, n - 1); }
  }
}
