/** The DEFLATE decoder: one pass over the bytes, appending to the output. */
module Inflate {
  import opened Base
  import opened BitStream
  import opened Huffman
  import opened Deflate

  /** The program's tables of bases and extra bits. */
  const LEN_BASE: seq<nat> :=
    [3, 4, 5, 6, 7, 8, 9, 10, 11, 13, 15, 17, 19, 23, 27, 31, 35, 43, 51, 59, 67, 83, 99, 115, 131, 163, 195, 227, 258]
  const LEN_EXTRA: seq<nat> :=
    [0, 0, 0, 0, 0, 0, 0, 0, 1, 1, 1, 1, 2, 2, 2, 2, 3, 3, 3, 3, 4, 4, 4, 4, 5, 5, 5, 5, 0]
  const DIST_BASE: seq<nat> :=
    [1, 2, 3, 4, 5, 7, 9, 13, 17, 25, 33, 49, 65, 97, 129, 193, 257, 385, 513, 769, 1025, 1537, 2049, 3073,
     4097, 6145, 8193, 12289, 16385, 24577]
  const DIST_EXTRA: seq<nat> :=
    [0, 0, 0, 0, 1, 1, 2, 2, 3, 3, 4, 4, 5, 5, 6, 6, 7, 7, 8, 8, 9, 9, 10, 10, 11, 11, 12, 12, 13, 13]

  lemma LengthBases(i: nat)
    requires i < 29
    ensures LEN_BASE[i] == LenBase(i)
  {
    if i < 16 {
      assert LenBase(8) == 11 && LenBase(9) == 13 && LenBase(10) == 15 && LenBase(11) == 17;
      assert LenBase(12) == 19 && LenBase(13) == 23 && LenBase(14) == 27 && LenBase(15) == 31;
    } else {
      LengthBasesAbove(i);
    }
  }

  lemma LengthBasesAbove(i: nat)
    requires 16 <= i < 29
    ensures LEN_BASE[i] == LenBase(i)
  {
    assert LenBase(16) == 35 && LenBase(17) == 43 && LenBase(18) == 51 && LenBase(19) == 59;
    assert LenBase(20) == 67 && LenBase(21) == 83 && LenBase(22) == 99 && LenBase(23) == 115;
    assert LenBase(24) == 131 && LenBase(25) == 163 && LenBase(26) == 195 && LenBase(27) == 227;
  }

  lemma DistanceBases(i: nat)
    requires i < 30
    ensures DIST_BASE[i] == DistBase(i)
  {
    if i < 16 {
      assert DistBase(2) == 3 && DistBase(3) == 4 && DistBase(4) == 5 && DistBase(5) == 7;
      assert DistBase(6) == 9 && DistBase(7) == 13 && DistBase(8) == 17 && DistBase(9) == 25;
      assert DistBase(10) == 33 && DistBase(11) == 49 && DistBase(12) == 65 && DistBase(13) == 97;
      assert DistBase(14) == 129 && DistBase(15) == 193;
    } else {
      DistanceBasesAbove(i);
    }
  }

  lemma DistanceBasesAbove(i: nat)
    requires 16 <= i < 30
    ensures DIST_BASE[i] == DistBase(i)
  {
    assert DistBase(16) == 257 && DistBase(17) == 385 && DistBase(18) == 513 && DistBase(19) == 769;
    assert DistBase(20) == 1025 && DistBase(21) == 1537 && DistBase(22) == 2049 && DistBase(23) == 3073;
    assert DistBase(24) == 4097 && DistBase(25) == 6145 && DistBase(26) == 8193 && DistBase(27) == 12289;
    assert DistBase(28) == 16385 && DistBase(29) == 24577;
  }

  lemma ExtraTables(i: nat)
    ensures i < 29 ==> LEN_EXTRA[i] == LenExtra(i)
    ensures i < 30 ==> DIST_EXTRA[i] == DistExtra(i)
  {
  }

  /** A copy with the program's tables. */
  method MatchRange(t: Token) returns (len: nat, d: nat)
    requires t.Match? && t.InRange()
    ensures len == t.Length() && d == t.Distance()
  {
    LengthBases(t.ls);
    DistanceBases(t.ds);
    len, d := LEN_BASE[t.ls] + t.lx, DIST_BASE[t.ds] + t.dx;
  }

  method LengthExtra(i: nat) returns (n: nat)
    requires i < 29
    ensures n == LenExtra(i)
  {
    ExtraTables(i);
    n := LEN_EXTRA[i];
  }

  method DistanceExtra(i: nat) returns (n: nat)
    requires i < 30
    ensures n == DistExtra(i)
  {
    ExtraTables(i);
    n := DIST_EXTRA[i];
  }

  method BuildFixed() returns (lit: Huff, dist: Huff)
    ensures Table(lit, FixedLit()) && Table(dist, FixedDist())
  {
    FixedTreesAreGood();
    var lens := FixedLengths();
    var ok;
    ok, lit := Build(lens);
    ok, dist := Build(FixedDist());
  }

  method FixedLengths() returns (r: seq<nat>)
    ensures r == FixedLit()
  {
    var lens := new nat[288];
    for i := 0 to 144
      invariant forall k | 0 <= k < i :: lens[k] == 8
    { lens[i] := 8; }
    for i := 144 to 256
      invariant forall k | 0 <= k < i :: lens[k] == if k < 144 then 8 else 9
    { lens[i] := 9; }
    for i := 256 to 280
      invariant forall k | 0 <= k < i :: lens[k] == if k < 144 then 8 else if k < 256 then 9 else 7
    { lens[i] := 7; }
    for i := 280 to 288
      invariant forall k | 0 <= k < i :: lens[k] == if k < 144 then 8 else if k < 256 then 9 else if k < 280 then 7 else 8
    { lens[i] := 8; }
    r := lens[..];
  }

  /** rd16: two bytes, low one first. */
  function Rd16(input: seq<byte>, i: nat): nat
    requires i + 2 <= |input|
  {
    (input[i] as int) + 256 * (input[i + 1] as int)
  }

  lemma Rd16IsLsb(b: Bits, i: nat)
    requires b.Valid() && i + 2 <= |b.input|
    ensures Rd16(b.input, i) == Lsb(b.bits, 8 * i, 16)
  {
    assert Lsb(b.bits, 8 * i, 8) == b.input[i] && Lsb(b.bits, 8 * (i + 1), 8) == b.input[i + 1];
    TakeByte(b.bits, 8 * i, 8, b.input[i + 1]);
    ShlEight(b.input[i + 1]);
  }

  lemma ShlEight(v: nat)
    ensures Shl(v, 8) == 256 * v
  {
    assert Shl(v, 4) == 2 * Shl(v, 3) == 4 * Shl(v, 2) == 8 * Shl(v, 1) == 16 * v;
    assert Shl(v, 8) == 2 * Shl(v, 7) == 4 * Shl(v, 6) == 8 * Shl(v, 5) == 16 * Shl(v, 4);
  }

  lemma {:induction false} BytesOfInput(b: Bits, i: nat, n: nat)
    requires b.Valid() && i + n <= |b.input|
    ensures Bytes(b.bits, 8 * i, n) == b.input[i..i + n]
    decreases n
  {
    hide Lsb;
    if n > 0 {
      BytesOfInput(b, i, n - 1);
      assert 8 * i + 8 * (n - 1) == 8 * (i + n - 1);
      assert Bytes(b.bits, 8 * i, n) == Bytes(b.bits, 8 * i, n - 1) + [ByteOf(b.bits, 8 * (i + n - 1))];
      assert b.input[i..i + n] == b.input[i..i + (n - 1)] + [b.input[i + n - 1]];
      assert Lsb(b.bits, 8 * (i + n - 1), 8) == b.input[i + n - 1];
    }
  }

  method Stored(b: Bits, out: seq<byte>) returns (ok: bool, res: seq<byte>)
    requires b.Valid() && !b.err
    modifies b
    ensures b.Valid()
    ensures ok == RunStored(b.bits, old(b.At()), out).Some?
    ensures ok ==> !b.err && (res, b.At()) == RunStored(b.bits, old(b.At()), out).value
    ensures !ok ==> res == out
  {
    ghost var p := b.At();
    res := out;
    b.Align();
    var pos := b.pos;
    StoredAt(b, p, pos, out);
    hide Lsb, Bytes, Shl, RunStored, NextByte;
    if pos + 4 > |b.input| { return false, out; }
    var len, nlen := Rd16(b.input, pos), Rd16(b.input, pos + 2);
    b.Skip(4);
    if nlen != 65535 - len { return false, out; }
    if b.pos + len > |b.input| { return false, out; }
    BytesOfInput(b, b.pos, len);
    res := out + b.input[b.pos..b.pos + len];
    b.Skip(len);
    ok := true;
  }

  /** A stored block that begins at byte pos. */
  lemma StoredAt(b: Bits, p: nat, pos: nat, out: seq<byte>)
    requires b.Valid() && 8 * pos == NextByte(p)
    ensures pos + 4 > |b.input| ==> RunStored(b.bits, p, out) == None
    ensures pos + 4 <= |b.input| ==>
              var len, nlen := Rd16(b.input, pos), Rd16(b.input, pos + 2);
              RunStored(b.bits, p, out) ==
              if nlen != 65535 - len || 8 * pos + 32 + 8 * len > |b.bits| then None
              else Some((out + Bytes(b.bits, 8 * pos + 32, len), 8 * pos + 32 + 8 * len))
  {
    hide Lsb, Bytes, Shl, Rd16;
    if pos + 4 <= |b.input| {
      Rd16IsLsb(b, pos);
      Rd16IsLsb(b, pos + 2);
      assert 8 * (pos + 2) == 8 * pos + 16;
    }
  }

  /** The body of a compressed block: literals and matches up to the end-of-block symbol. */
  method Tokens(b: Bits, lit: Huff, dist: Huff, ghost lens: Trees, prior: seq<byte>) returns (ok: bool, out: seq<byte>)
    requires b.Valid() && !b.err && Table(lit, lens.lit) && Table(dist, lens.dist)
    modifies b
    ensures b.Valid() && prior <= out
    ensures ok == RunTokens(lens.lit, lens.dist, b.bits, old(b.At()), prior).Some?
    ensures ok ==> !b.err && (out, b.At()) == RunTokens(lens.lit, lens.dist, b.bits, old(b.At()), prior).value
  {
    hide ParseToken;
    out := prior;
    ghost var want := RunTokens(lens.lit, lens.dist, b.bits, b.At(), prior);
    while true
      invariant b.Valid() && !b.err && prior <= out
      invariant RunTokens(lens.lit, lens.dist, b.bits, b.At(), out) == want
      decreases |b.bits| - b.At()
    {
      var found, t := NextToken(b, lit, dist, lens);
      if !found { return false, out; }
      match t
      case EndOfBlock => return true, out;
      case Literal(c) => out := out + [c];
      case Match(_, _, _, _) =>
        var len, d := MatchRange(t);
        if d > |out| { return false, out; }
        out := CopyBack(out, d, len);
    }
  }

  /** A literal or length symbol and, for a length, the rest of the match. */
  method NextToken(b: Bits, lit: Huff, dist: Huff, ghost lens: Trees) returns (ok: bool, t: Token)
    requires b.Valid() && !b.err && Table(lit, lens.lit) && Table(dist, lens.dist)
    modifies b
    ensures b.Valid()
    ensures ok == ParseToken(lens.lit, lens.dist, b.bits, old(b.At())).Some?
    ensures ok ==> !b.err && (t, b.At()) == ParseToken(lens.lit, lens.dist, b.bits, old(b.At())).value
  {
    hide DecodeSym, ParseMatch, Table, Bits.Valid, Bits.At;
    ok, t := false, EndOfBlock;
    var sym := Decode(b, lit, lens.lit);
    if sym < 0 { return; }
    if sym < 256 { return true, Literal(sym); }
    if sym == 256 { return true, EndOfBlock; }
    sym := sym - 257;
    if sym >= 29 { return; }
    ok, t := MatchRest(b, dist, lens.dist, sym);
  }

  /** The extra length bits, the distance symbol and its extra bits of a match. */
  method MatchRest(b: Bits, dist: Huff, ghost lens: seq<nat>, ls: nat) returns (ok: bool, t: Token)
    requires b.Valid() && !b.err && Table(dist, lens) && ls < 29
    modifies b
    ensures b.Valid()
    ensures ok == ParseMatch(lens, b.bits, old(b.At()), ls).Some?
    ensures ok ==> !b.err && (t, b.At()) == ParseMatch(lens, b.bits, old(b.At()), ls).value
  {
    hide DecodeSym, LenExtra, DistExtra, Lsb, Table, Bits.Valid, Bits.At;
    ok, t := false, EndOfBlock;
    var lenExtra := LengthExtra(ls);
    var lx := b.Get(lenExtra);
    var ds := Decode(b, dist, lens);
    if ds < 0 || ds >= 30 { return; }
    var distExtra := DistanceExtra(ds);
    var dx := b.Get(distExtra);
    if b.err { return; }
    ok, t := true, Match(ls, lx, ds, dx);
  }

  /** The copy loop, one byte at a time from a fixed start, so it may read what it has just written. */
  method CopyBack(prior: seq<byte>, d: nat, len: nat) returns (out: seq<byte>)
    requires 1 <= d <= |prior|
    ensures out == LzCopy(prior, d, len)
  {
    out := prior;
    var from := |out| - d;
    for k := 0 to len
      invariant out == LzCopy(prior, d, k)
    {
      out := out + [out[from + k]];
    }
  }

  /** The code-length code: `ncode` three-bit lengths. A truncated read leaves zeros and the sticky error. */
  method ReadCodeLengths(b: Bits, ncode: nat) returns (cl: seq<nat>)
    requires b.Valid() && !b.err && ncode <= 19
    modifies b
    ensures b.Valid() && |cl| == 19 && forall i | 0 <= i < 19 :: cl[i] <= 7
    ensures b.err <==> old(b.At()) + 3 * ncode > |b.bits|
    ensures !b.err ==> b.At() == old(b.At()) + 3 * ncode && cl == Deal(Threes(b.bits, old(b.At()), ncode))
  {
    ghost var p := b.At();
    cl := Repeat(0, 19);
    NoLengths(b.bits, p);
    hide Lsb, OrderAt, Deal, Threes, Pow2, Repeat;
    for i := 0 to ncode
      invariant b.Valid() && |cl| == 19 && forall k | 0 <= k < 19 :: cl[k] <= 7
      invariant b.err <==> p + 3 * i > |b.bits|
      invariant !b.err ==> b.At() == p + 3 * i && cl == Deal(Threes(b.bits, p, i))
    {
      var v := b.Get(3);
      if !b.err { ThreeMore(b.bits, p, i); }
      cl := cl[OrderAt(i) := v];
    }
  }

  lemma NoLengths(b: seq<bit>, p: nat)
    ensures Pow2(3) == 8 && (p <= |b| ==> Deal(Threes(b, p, 0)) == Repeat(0, 19))
    ensures forall k | 0 <= k < 19 :: Repeat(0, 19)[k] <= 7
  {
  }

  lemma ThreeMore(b: seq<bit>, p: nat, i: nat)
    requires i < 19 && p + 3 * (i + 1) <= |b|
    ensures Deal(Threes(b, p, i + 1)) == Deal(Threes(b, p, i))[OrderAt(i) := Lsb(b, p + 3 * i, 3)]
  {
    var t := Threes(b, p, i + 1);
    assert t[..i] == Threes(b, p, i);
  }

  /** One symbol of the length list and its extra bits. */
  method NextLenSym(b: Bits, h: Huff, ghost cl: seq<nat>) returns (ok: bool, t: LenSym)
    requires b.Valid() && Table(h, cl) && Good(cl) && |cl| == 19
    modifies b
    ensures b.Valid()
    ensures ok == (!old(b.err) && ParseLenSym(cl, b.bits, old(b.At())).Some?)
    ensures ok ==> !b.err && (t, b.At()) == ParseLenSym(cl, b.bits, old(b.At())).value
  {
    hide DecodeSym, Lsb;
    ok, t := false, Len(0);
    var sym := Decode(b, h, cl);
    if sym < 0 { return; }
    if sym < 16 { return true, Len(sym); }
    var x;
    if sym == 16 { x := b.Get(2); t := Again(x); }
    else if sym == 17 { x := b.Get(3); t := Zeros(x); }
    else { x := b.Get(7); t := ManyZeros(x); }
    ok := !b.err;
  }

  /** The list of code lengths, run-length coded. */
  method ReadLens(b: Bits, h: Huff, ghost cl: seq<nat>, total: nat) returns (ok: bool, lens: seq<nat>)
    requires b.Valid() && Table(h, cl) && Good(cl) && |cl| == 19
    requires total > 0
    modifies b
    ensures b.Valid() && Lengths(lens)
    ensures ok == (!old(b.err) && RunLens(cl, b.bits, old(b.At()), total, []).Some?)
    ensures ok ==> !b.err && (lens, b.At()) == RunLens(cl, b.bits, old(b.At()), total, []).value
  {
    lens := [];
    ghost var want := RunLens(cl, b.bits, b.At(), total, []);
    while |lens| < total
      invariant b.Valid() && b.err == old(b.err) && |lens| <= total && Lengths(lens)
      invariant b.err ==> lens == []
      invariant RunLens(cl, b.bits, b.At(), total, lens) == want
      decreases total - |lens|
    {
      var found, t := NextLenSym(b, h, cl);
      if !found { return false, lens; }
      var fits, more := ApplyLen(t, lens, total);
      if !fits { return false, lens; }
      lens := more;
    }
    ok := true;
  }

  /** What a length symbol adds, refused when it repeats nothing or runs past the end. */
  method ApplyLen(t: LenSym, lens: seq<nat>, total: nat) returns (ok: bool, r: seq<nat>)
    ensures ok == (ApplyLenSym(t, lens).Some? && |ApplyLenSym(t, lens).value| <= total)
    ensures ok ==> r == ApplyLenSym(t, lens).value
  {
    ok, r := false, lens;
    var val, rep := 0, 1;
    match t {
      case Len(n) => val := n;
      case Again(x) =>
        if lens == [] { return; }
        val, rep := lens[|lens| - 1], 3 + x;
      case Zeros(x) => rep := 3 + x;
      case ManyZeros(x) => rep := 11 + x;
    }
    if |lens| + rep > total { return; }
    r := Append(lens, val, rep);
    assert t.Len? ==> Repeat(val, 1) == [val];
    ok := true;
  }

  /** `while(rep--) lens[i++] = val` */
  method Append(lens: seq<nat>, val: nat, rep: nat) returns (r: seq<nat>)
    ensures r == lens + Repeat(val, rep)
  {
    r := lens;
    for k := 0 to rep
      invariant r == lens + Repeat(val, k)
    {
      r := r + [val];
    }
  }

  method BuildTable(lens: seq<nat>) returns (ok: bool, h: Huff)
    requires 0 < |lens| <= 288 && Lengths(lens)
    ensures ok == Good(lens) && Table(h, lens)
  {
    hide OverSubscribed, NoCodes, Sorted, Counts;
    ok, h := Build(lens);
  }

  /** The trees of a dynamic block. Whether the distance tree could be built is not looked at. */
  method ReadTrees(b: Bits) returns (ok: bool, lit: Huff, dist: Huff, ghost t: Trees)
    requires b.Valid() && !b.err
    modifies b
    ensures b.Valid()
    ensures ok == ParseTrees(Program, b.bits, old(b.At())).Some?
    ensures ok ==> !b.err && (t, b.At()) == ParseTrees(Program, b.bits, old(b.At())).value
    ensures ok ==> Table(lit, t.lit) && Table(dist, t.dist)
  {
    ok, lit, dist, t := false, Huff([], []), Huff([], []), Trees([], []);
    hide ParseTrees, ParseHeader, RunLens, Good, Table;
    ghost var p := b.At();
    var started, nlen, ndist, h, cl := ReadHeader(b);
    TreesParsed(b.bits, p);
    if !started { return; }
    var whole, lens := ReadLens(b, h, cl, nlen + ndist);
    if !whole { return; }
    var built;
    built, lit := BuildTable(lens[..nlen]);
    if !built { return; }
    built, dist := BuildTable(lens[nlen..]);
    ok, t := true, Trees(lens[..nlen], lens[nlen..]);
  }

  lemma TreesParsed(b: seq<bit>, p: nat)
    ensures ParseHeader(Program, b, p) == None ==> ParseTrees(Program, b, p) == None
    ensures ParseHeader(Program, b, p).Some? ==>
              var (h, q) := ParseHeader(Program, b, p).value;
              ParseTrees(Program, b, p) ==
              match RunLens(h.cl, b, q, h.nlen + h.ndist, [])
              case None => None
              case Some((lens, e)) =>
                if Good(lens[..h.nlen]) then Some((Trees(lens[..h.nlen], lens[h.nlen..]), e)) else None
  {
    hide RunLens, Deal, Threes;
  }

  method ReadHeader(b: Bits) returns (ok: bool, nlen: nat, ndist: nat, h: Huff, ghost cl: seq<nat>)
    requires b.Valid() && !b.err
    modifies b
    ensures b.Valid()
    ensures (ok && !b.err) == ParseHeader(Program, b.bits, old(b.At())).Some?
    ensures ok ==> 257 <= nlen <= 286 && 1 <= ndist <= 30 && |cl| == 19 && Good(cl) && Table(h, cl)
    ensures ok && !b.err ==> (Header(nlen, ndist, cl), b.At()) == ParseHeader(Program, b.bits, old(b.At())).value
  {
    hide Deal, Threes, Lsb, Good, Table;
    ok, h, cl := false, Huff([], []), [];
    var ncode;
    nlen, ndist, ncode := ReadCounts(b);
    if b.err || nlen > 286 || ndist > 30 { return; }
    var lens := ReadCodeLengths(b, ncode);
    cl := lens;
    ok, h := BuildTable(lens);
  }

  method ReadCounts(b: Bits) returns (nlen: nat, ndist: nat, ncode: nat)
    requires b.Valid() && !b.err
    modifies b
    ensures b.Valid() && ncode <= 19
    ensures b.err <==> old(b.At()) + 14 > |b.bits|
    ensures nlen >= 257 && ndist >= 1
    ensures !b.err ==>
              && b.At() == old(b.At()) + 14
              && nlen == Lsb(b.bits, old(b.At()), 5) + 257
              && ndist == Lsb(b.bits, old(b.At()) + 5, 5) + 1
              && ncode == Lsb(b.bits, old(b.At()) + 10, 4) + 4
  {
    nlen := b.Get(5);
    ndist := b.Get(5);
    ncode := b.Get(4);
    assert ncode < Pow2(4) == 16;
    nlen, ndist, ncode := nlen + 257, ndist + 1, ncode + 4;
  }

  /** One block after its three-bit header. */
  method Body(b: Bits, kind: nat, fixedLit: Huff, fixedDist: Huff, prior: seq<byte>) returns (ok: bool, out: seq<byte>)
    requires b.Valid() && !b.err
    requires kind == 1 ==> Table(fixedLit, FixedLit()) && Table(fixedDist, FixedDist())
    modifies b
    ensures b.Valid() && prior <= out
    ensures ok == RunBody(Program, kind, b.bits, old(b.At()), prior).Some?
    ensures ok ==> !b.err && (out, b.At()) == RunBody(Program, kind, b.bits, old(b.At()), prior).value
  {
    hide FixedLit, FixedDist, RunStored, RunTokens, ParseTrees;
    if kind == 0 {
      ok, out := Stored(b, prior);
    } else if kind == 1 || kind == 2 {
      var trees, lit, dist := true, fixedLit, fixedDist;
      ghost var t := Trees(FixedLit(), FixedDist());
      if kind == 2 {
        trees, lit, dist, t := ReadTrees(b);
        if !trees { return false, prior; }
      }
      ok, out := Tokens(b, lit, dist, t, prior);
    } else {
      return false, prior;
    }
  }

  lemma OneBlock(b: seq<bit>, p: nat, out: seq<byte>)
    ensures p + 3 > |b| ==> RunStream(Program, b, p, out) == None
    ensures p + 3 <= |b| ==>
              RunStream(Program, b, p, out) ==
              match RunBody(Program, Lsb(b, p + 1, 2), b, p + 3, out)
              case None => None
              case Some((o, q)) => if Lsb(b, p, 1) == 1 then Some((o, q)) else RunStream(Program, b, q, o)
  {
    hide RunBody;
    if p + 3 <= |b| { assert Lsb(b, p, 1) == b[p]; }
  }

  /** Raw DEFLATE: the blocks of `input` appended to `prior`. */
  method Inflate(input: seq<byte>, prior: seq<byte>) returns (ok: bool, out: seq<byte>)
    ensures prior <= out
    ensures ok == RunStream(Program, BitsOf(input), 0, prior).Some?
    ensures ok ==> out == RunStream(Program, BitsOf(input), 0, prior).value.0
  {
    hide RunBody, RunStream, FixedLit, FixedDist, Table, Lsb;
    out := prior;
    var b := new Bits(input);
    ghost var want := RunStream(Program, b.bits, 0, prior);
    var haveFixed, fixedLit, fixedDist := false, Huff([], []), Huff([], []);
    while true
      invariant b.Valid() && !b.err && prior <= out
      invariant RunStream(Program, b.bits, b.At(), out) == want
      invariant haveFixed ==> Table(fixedLit, FixedLit()) && Table(fixedDist, FixedDist())
      decreases |b.bits| - b.At()
    {
      ghost var p := b.At();
      var last := b.Get(1);
      var kind := b.Get(2);
      OneBlock(b.bits, p, out);
      if b.err { return false, out; }
      if kind == 1 && !haveFixed {
        fixedLit, fixedDist := BuildFixed();
        haveFixed := true;
      }
      var done;
      done, out := Body(b, kind, fixedLit, fixedDist, out);
      if !done { return false, out; }
      if last == 1 { return true, out; }
    }
  }
}
