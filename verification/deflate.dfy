/** What a raw DEFLATE stream means, block by block, and the decoder that computes it. */
module Deflate {
  import opened Base
  import opened BitStream
  import opened Huffman

  /** RFC 1951, section 3.2.5: how many extra bits length symbol 257 + i takes, and the shortest
      length it stands for. */
  function LenExtra(i: nat): nat
    requires i < 29
  {
    if i < 8 || i == 28 then 0 else i / 4 - 1
  }

  function LenBase(i: nat): nat
    requires i < 29
  {
    if i == 28 then 258 else if i < 8 then 3 + i else 3 + Shl(4 + i % 4, LenExtra(i))
  }

  /** The same for distance symbol i. */
  function DistExtra(i: nat): nat
    requires i < 30
  {
    if i < 2 then 0 else i / 2 - 1
  }

  function DistBase(i: nat): (r: nat)
    requires i < 30
    ensures r >= 1
  {
    if i < 2 then 1 + i else 1 + Shl(2 + i % 2, DistExtra(i))
  }

  const ORDER: seq<nat> := [16, 17, 18, 0, 8, 7, 9, 6, 10, 5, 11, 4, 12, 3, 13, 2, 14, 1, 15]

  function OrderAt(i: nat): (s: nat)
    requires i < 19
    ensures s < 19
  {
    ORDER[i]
  }

  /** The order in which RFC 1951, section 3.2.7, lists the code-length symbols: 16 to 18 and 0 first, then by turns up
      from 8 and down from 7. */
  lemma CodeLengthOrder(i: nat)
    requires i < 19
    ensures OrderAt(i) == if i < 3 then 16 + i else if i == 3 then 0 else if i % 2 == 0 then 6 + i / 2 else (19 - i) / 2
  {
  }

  /** One element of a compressed block. A match keeps its symbols and extra bits as they are coded. */
  datatype Token =
    | Literal(c: byte)
    | EndOfBlock
    | Match(ls: nat, lx: nat, ds: nat, dx: nat)
  {
    ghost predicate InRange() {
      Match? ==> ls < 29 && ds < 30
    }

    function Length(): nat
      requires Match? && ls < 29
    {
      LenBase(ls) + lx
    }

    function Distance(): (d: nat)
      requires Match? && ds < 30
      ensures d >= 1
    {
      DistBase(ds) + dx
    }
  }

  /** Append n bytes, each a copy of the one d places back; the source may overlap what is appended. */
  function LzCopy(out: seq<byte>, d: nat, n: nat): (r: seq<byte>)
    requires 1 <= d <= |out|
    ensures |r| == |out| + n && out <= r
  {
    if n == 0 then out
    else
      var r := LzCopy(out, d, n - 1);
      r + [r[|r| - d]]
  }

  ghost function ApplyToken(t: Token, out: seq<byte>): (r: Option<seq<byte>>)
    requires t.InRange()
    ensures r.Some? ==> out <= r.value
  {
    match t
    case Literal(c) => Some(out + [c])
    case EndOfBlock => Some(out)
    case Match(_, _, _, _) =>
      if t.Distance() > |out| then None else Some(LzCopy(out, t.Distance(), t.Length()))
  }

  ghost function ParseToken(lit: seq<nat>, dist: seq<nat>, b: seq<bit>, p: nat): (r: Option<(Token, nat)>)
    ensures r.Some? ==> p < r.value.1 <= |b| && r.value.0.InRange()
  {
    match DecodeSym(lit, b, p)
    case None => None
    case Some((s, l)) =>
      if s < 256 then Some((Literal(s), p + l))
      else if s == 256 then Some((EndOfBlock, p + l))
      else if s - 257 >= 29 then None
      else ParseMatch(dist, b, p + l, s - 257)
  }

  /** The rest of a match whose length symbol has been read. */
  ghost function ParseMatch(dist: seq<nat>, b: seq<bit>, p: nat, ls: nat): (r: Option<(Token, nat)>)
    requires ls < 29
    ensures r.Some? ==> p < r.value.1 <= |b| && r.value.0.Match? && r.value.0.InRange()
  {
    var q := p + LenExtra(ls);
    if q > |b| then None
    else
      match DecodeSym(dist, b, q)
      case None => None
      case Some((ds, l)) =>
        if ds >= 30 || q + l + DistExtra(ds) > |b| then None
        else
          Some((Match(ls, Lsb(b, p, LenExtra(ls)), ds, Lsb(b, q + l, DistExtra(ds))), q + l + DistExtra(ds)))
  }

  /** The tokens from bit p to the end of the block, applied to the output so far. */
  ghost function RunTokens(lit: seq<nat>, dist: seq<nat>, b: seq<bit>, p: nat, out: seq<byte>)
    : (r: Option<(seq<byte>, nat)>)
    ensures r.Some? ==> p < r.value.1 <= |b| && out <= r.value.0
    decreases |b| - p
  {
    match ParseToken(lit, dist, b, p)
    case None => None
    case Some((t, q)) =>
      if t.EndOfBlock? then Some((out, q))
      else
        match ApplyToken(t, out)
        case None => None
        case Some(o) => RunTokens(lit, dist, b, q, o)
  }

  /** One element of the coded list of code lengths (RFC 1951, section 3.2.7). */
  datatype LenSym = Len(n: nat) | Again(x: nat) | Zeros(x: nat) | ManyZeros(x: nat)

  ghost function ParseLenSym(cl: seq<nat>, b: seq<bit>, p: nat): (r: Option<(LenSym, nat)>)
    ensures r.Some? ==> p < r.value.1 <= |b| && (r.value.0.Len? ==> r.value.0.n < 16)
  {
    match DecodeSym(cl, b, p)
    case None => None
    case Some((s, l)) =>
      var q := p + l;
      if s < 16 then Some((Len(s), q))
      else if s == 16 then (if q + 2 > |b| then None else Some((Again(Lsb(b, q, 2)), q + 2)))
      else if s == 17 then (if q + 3 > |b| then None else Some((Zeros(Lsb(b, q, 3)), q + 3)))
      else (if q + 7 > |b| then None else Some((ManyZeros(Lsb(b, q, 7)), q + 7)))
  }

  function Repeat(v: nat, n: nat): (r: seq<nat>)
    ensures |r| == n && forall i | 0 <= i < n :: r[i] == v
  {
    seq(n, _ => v)
  }

  ghost function ApplyLenSym(t: LenSym, acc: seq<nat>): (r: Option<seq<nat>>)
    ensures r.Some? ==> |acc| < |r.value|
    ensures r.Some? && Lengths(acc) && (t.Len? ==> t.n < 16) ==> Lengths(r.value)
  {
    match t
    case Len(n) => Some(acc + [n])
    case Again(x) => if acc == [] then None else Some(acc + Repeat(acc[|acc| - 1], 3 + x))
    case Zeros(x) => Some(acc + Repeat(0, 3 + x))
    case ManyZeros(x) => Some(acc + Repeat(0, 11 + x))
  }

  /** RFC 1951, section 3.2.7: runs of 3 to 138 zeros have one symbol and one value of its extra bits each, and so have 3 to
      6 repetitions of the last length. */
  lemma RepeatRangesTile(acc: seq<nat>, v: nat, n: nat)
    ensures 3 <= n <= 138 <==> exists x :: SpellsZeros(x, acc, n)
    ensures forall x, y | SpellsZeros(x, acc, n) && SpellsZeros(y, acc, n) :: x == y
    ensures 3 <= n <= 6 <==> exists x: nat | x < 4 :: ApplyLenSym(Again(x), acc + [v]) == Some(acc + [v] + Repeat(v, n))
  {
    if 3 <= n <= 10 { assert SpellsZeros(Zeros(n - 3), acc, n); }
    if 11 <= n <= 138 { assert SpellsZeros(ManyZeros(n - 11), acc, n); }
    forall x | SpellsZeros(x, acc, n) ensures 3 <= n <= 138 && x == if n <= 10 then Zeros(n - 3) else ManyZeros(n - 11) {
      assert |ApplyLenSym(x, acc).value| == |acc| + n;
    }
    if 3 <= n <= 6 { assert ApplyLenSym(Again(n - 3), acc + [v]) == Some(acc + [v] + Repeat(v, n)); }
    forall x: nat | x < 4 && ApplyLenSym(Again(x), acc + [v]) == Some(acc + [v] + Repeat(v, n)) ensures n == 3 + x {
      assert |ApplyLenSym(Again(x), acc + [v]).value| == |acc| + 1 + n;
    }
  }

  /** Symbol 17 with three extra bits, or 18 with seven, stands for n zeros. */
  ghost predicate SpellsZeros(x: LenSym, acc: seq<nat>, n: nat) {
    && ((x.Zeros? && x.x < 8) || (x.ManyZeros? && x.x < 128))
    && ApplyLenSym(x, acc) == Some(acc + Repeat(0, n))
  }

  /** Code lengths from bit p on until there are exactly `total` of them. */
  ghost function RunLens(cl: seq<nat>, b: seq<bit>, p: nat, total: nat, acc: seq<nat>): (r: Option<(seq<nat>, nat)>)
    requires |acc| <= total && Lengths(acc) && p <= |b|
    ensures r.Some? ==> |r.value.0| == total && Lengths(r.value.0) && p <= r.value.1 <= |b|
    decreases total - |acc|
  {
    if |acc| == total then Some((acc, p))
    else
      match ParseLenSym(cl, b, p)
      case None => None
      case Some((t, q)) =>
        match ApplyLenSym(t, acc)
        case None => None
        case Some(a) => if |a| > total then None else RunLens(cl, b, q, total, a)
  }

  /** Code lengths dealt out in the fixed order to the 19 symbols of the code-length code. */
  function Deal(vals: seq<nat>): (cl: seq<nat>)
    requires |vals| <= 19
    ensures |cl| == 19
    decreases |vals|
  {
    if vals == [] then Repeat(0, 19)
    else
      var n := |vals| - 1;
      Deal(vals[..n])[OrderAt(n) := vals[n]]
  }

  /** n three-bit numbers from bit p on. */
  ghost function Threes(b: seq<bit>, p: nat, n: nat): (vals: seq<nat>)
    requires p + 3 * n <= |b|
    ensures |vals| == n && forall i | 0 <= i < n :: vals[i] < 8
  {
    if n == 0 then []
    else
      assert Lsb(b, p + 3 * (n - 1), 3) < Pow2(3) == 8;
      Threes(b, p, n - 1) + [Lsb(b, p + 3 * (n - 1), 3)]
  }

  lemma {:induction false} DealtLengths(vals: seq<nat>)
    requires |vals| <= 19 && forall i | 0 <= i < |vals| :: vals[i] < 8
    ensures forall i | 0 <= i < 19 :: Deal(vals)[i] <= 7
    decreases |vals|
  {
    if vals != [] { DealtLengths(vals[..|vals| - 1]); }
  }

  datatype Trees = Trees(lit: seq<nat>, dist: seq<nat>)

  ghost predicate ValidTrees(t: Trees) {
    0 < |t.lit| <= 288 && 0 < |t.dist| <= 32 && Lengths(t.lit) && Lengths(t.dist)
  }

  /** How many lengths of each kind follow, and the code-length code they are written in. */
  datatype Header = Header(nlen: nat, ndist: nat, cl: seq<nat>) {
    ghost predicate Valid() {
      257 <= nlen <= 286 && 1 <= ndist <= 32 && |cl| == 19 && Lengths(cl) && Good(cl)
    }
  }

  /** Who reads: the format itself (RFC 1951, section 3.2.7), or the program. They differ in two places. */
  datatype Reader = Format | Program

  /** The most distance lengths a header may announce: 32, of which the last two stand for no distance; the program
      refuses those two. */
  function MaxDist(who: Reader): nat {
    if who.Format? then 32 else 30
  }

  ghost function ParseHeader(who: Reader, b: seq<bit>, p: nat): (r: Option<(Header, nat)>)
    ensures r.Some? ==> p < r.value.1 <= |b| && r.value.0.Valid() && r.value.0.ndist <= MaxDist(who)
  {
    if p + 14 > |b| then None
    else
      var nlen, ndist, ncode := Lsb(b, p, 5) + 257, Lsb(b, p + 5, 5) + 1, Lsb(b, p + 10, 4) + 4;
      if nlen > 286 || ndist > MaxDist(who) || p + 14 + 3 * ncode > |b| then None
      else
        assert ncode <= 19 by { assert Lsb(b, p + 10, 4) < Pow2(4) == 16; }
        var cl := Deal(Threes(b, p + 14, ncode));
        DealtLengths(Threes(b, p + 14, ncode));
        if Good(cl) then Some((Header(nlen, ndist, cl), p + 14 + 3 * ncode)) else None
  }

  /** The two trees of a dynamic block. The format has no over-subscribed distance tree; the program ignores the
      result of building it. */
  ghost function ParseTrees(who: Reader, b: seq<bit>, p: nat): (r: Option<(Trees, nat)>)
    ensures r.Some? ==> p < r.value.1 <= |b| && ValidTrees(r.value.0) && Good(r.value.0.lit)
  {
    match ParseHeader(who, b, p)
    case None => None
    case Some((h, q)) =>
      match RunLens(h.cl, b, q, h.nlen + h.ndist, [])
      case None => None
      case Some((lens, e)) =>
        var t := Trees(lens[..h.nlen], lens[h.nlen..]);
        if Good(t.lit) && !(who.Format? && OverSubscribed(t.dist)) then Some((t, e)) else None
  }

  function FixedLit(): (lens: seq<nat>) {
    seq(288, i => if i < 144 then 8 else if i < 256 then 9 else if i < 280 then 7 else 8)
  }

  function FixedDist(): (lens: seq<nat>) {
    seq(30, _ => 5)
  }

  /** The fixed trees are good codes: the literal one is complete. */
  lemma FixedTreesAreGood()
    ensures Good(FixedLit()) && Lengths(FixedLit()) && Good(FixedDist()) && Lengths(FixedDist())
  {
    FixedLitSum(FixedLit());
    FixedDistSum(FixedDist());
  }

  lemma FixedDistSum(dist: seq<nat>)
    requires dist == FixedDist()
    ensures Good(dist) && Lengths(dist)
  {
    assert dist[0] == 5;
    assert Pow2(10) == 1024;
    SumOfRun(dist, 0, 30, 5, 1024);
  }

  lemma FixedLitSum(lit: seq<nat>)
    requires lit == FixedLit()
    ensures Good(lit) && Lengths(lit)
  {
    assert lit[0] == 8;
    assert Pow2(6) == 64 && Pow2(7) == 128 && Pow2(8) == 256;
    SumOfRun(lit, 0, 144, 8, 128);
    SumOfRun(lit, 144, 256, 9, 64);
    SumOfRun(lit, 256, 280, 7, 256);
    SumOfRun(lit, 280, 288, 8, 128);
  }

  /** A stretch of symbols of one length l adds w = 2^(15 - l) each. */
  lemma {:induction false} SumOfRun(lens: seq<nat>, i: nat, j: nat, l: nat, w: nat)
    requires i <= j <= |lens| && 1 <= l <= MAX_BITS && w == Pow2(MAX_BITS - l)
    requires forall k | i <= k < j :: lens[k] == l
    ensures KraftSum(lens, j, MAX_BITS) == KraftSum(lens, i, MAX_BITS) + (j - i) * w
    decreases j - i
  {
    if i < j {
      assert lens[j - 1] == l;
      assert KraftSum(lens, j, MAX_BITS) == KraftSum(lens, j - 1, MAX_BITS) + w;
      SumOfRun(lens, i, j - 1, l, w);
      OneMore(j - i, w);
    }
  }

  lemma OneMore(k: nat, w: nat)
    requires k > 0
    ensures k * w == (k - 1) * w + w
  {
  }

  /** The codes of RFC 1951, section 3.2.6. */
  lemma FixedCodes(s: nat)
    requires s < 288
    ensures FixedLit()[s] == (if s < 144 then 8 else if s < 256 then 9 else if s < 280 then 7 else 8)
    ensures Code(FixedLit(), s) ==
            if s < 144 then 0x30 + s else if s < 256 then 0x190 + (s - 144) else if s < 280 then s - 256 else 0xC0 + (s - 280)
    ensures s < 30 ==> FixedDist()[s] == 5 && Code(FixedDist(), s) == s
  {
    var lit := FixedLit();
    FixedFirsts(lit);
    FixedRank(lit, s, lit[s]);
    if s < 30 {
      assert FirstCode(FixedDist(), 5) == 0 by { NoShorter(FixedDist(), 5); }
      SameLength(FixedDist(), 0, s, 5);
    }
  }

  /** A stretch of symbols of one length, none of them, or none of the symbols before. */
  lemma {:induction false} SameLength(lens: seq<nat>, i: nat, j: nat, l: nat)
    requires i <= j <= |lens| && forall k | i <= k < j :: lens[k] == l
    ensures CountUpTo(lens, j, l) == CountUpTo(lens, i, l) + (j - i)
    decreases j
  {
    if i < j { SameLength(lens, i, j - 1, l); }
  }

  lemma {:induction false} NoShorter(lens: seq<nat>, l: nat)
    requires forall k | 0 <= k < |lens| :: lens[k] >= l
    ensures FirstCode(lens, l) == 0
    decreases l
  {
    if l > 1 {
      NoShorter(lens, l - 1);
      NoneBetween(lens, 0, |lens|, l - 1);
    }
  }

  lemma FixedFirsts(lit: seq<nat>)
    requires lit == FixedLit()
    ensures FirstCode(lit, 7) == 0 && FirstCode(lit, 8) == 0x30 && FirstCode(lit, 9) == 0x190
  {
    NoShorter(lit, 7);
    FixedRank(lit, 288, 7);
    FixedRank(lit, 288, 8);
  }

  /** How many of the first n literal and length codes have l bits. */
  lemma FixedRank(lit: seq<nat>, n: nat, l: nat)
    requires lit == FixedLit() && n <= 288 && 7 <= l <= 9
    ensures CountUpTo(lit, n, l) ==
            if l == 9 then (if n < 144 then 0 else if n < 256 then n - 144 else 112)
            else if l == 7 then (if n < 256 then 0 else if n < 280 then n - 256 else 24)
            else if n < 144 then n else if n < 280 then 144 else n - 136
  {
    FixedStretches(lit);
    assert forall k | 0 <= k < 288 :: lit[k] == if k < 144 then 8 else if k < 256 then 9 else if k < 280 then 7 else 8;
    hide CountUpTo, FixedLit;
    var a, b, c := if n < 144 then n else 144, if n < 256 then n else 256, if n < 280 then n else 280;
    if l == 8 {
      SameLength(lit, 0, a, l);
      if n > 144 { NoneBetween(lit, 144, c, l); }
      if n > 280 { SameLength(lit, 280, n, l); }
    } else if l == 9 {
      NoneBetween(lit, 0, a, l);
      if n > 144 { SameLength(lit, 144, b, l); }
      if n > 256 { NoneBetween(lit, 256, n, l); }
    } else {
      NoneBetween(lit, 0, b, l);
      if n > 256 { SameLength(lit, 256, c, l); }
      if n > 280 { NoneBetween(lit, 280, n, l); }
    }
  }

  lemma FixedStretches(lit: seq<nat>)
    requires |lit| == 288
    ensures forall l :: CountUpTo(lit, 0, l) == 0
  {
  }

  function Bytes(b: seq<bit>, p: nat, n: nat): (r: seq<byte>)
    requires p + 8 * n <= |b|
    ensures |r| == n
    decreases |b| + n
  {
    if n == 0 then [] else Bytes(b, p, n - 1) + [ByteOf(b, p + 8 * (n - 1))]
  }

  function ByteOf(b: seq<bit>, p: nat): byte
    requires p + 8 <= |b|
  {
    var v := Lsb(b, p, 8);
    assert v < Pow2(8) == 2 * Pow2(7) && Pow2(7) == 128;
    v
  }

  function NextByte(p: nat): nat {
    (p + 7) / 8 * 8
  }

  /** A stored block: byte-aligned, its length and the complement of it, then the bytes. */
  ghost function RunStored(b: seq<bit>, p: nat, out: seq<byte>): (r: Option<(seq<byte>, nat)>)
    ensures r.Some? ==> p < r.value.1 <= |b| && out <= r.value.0
  {
    var q := NextByte(p);
    if q + 32 > |b| then None
    else
      var len, nlen := Lsb(b, q, 16), Lsb(b, q + 16, 16);
      if nlen != 65535 - len || q + 32 + 8 * len > |b| then None
      else Some((out + Bytes(b, q + 32, len), q + 32 + 8 * len))
  }

  /** The body of a block of the given kind. */
  ghost function RunBody(who: Reader, kind: nat, b: seq<bit>, p: nat, out: seq<byte>): (r: Option<(seq<byte>, nat)>)
    ensures r.Some? ==> p < r.value.1 <= |b| && out <= r.value.0
  {
    if kind == 0 then RunStored(b, p, out)
    else if kind == 1 then RunTokens(FixedLit(), FixedDist(), b, p, out)
    else if kind == 2 then
      match ParseTrees(who, b, p)
      case None => None
      case Some((t, q)) => RunTokens(t.lit, t.dist, b, q, out)
    else None
  }

  /** The block at bit p: the output after it and where it ends. Its first bit says whether it is the last. */
  ghost function RunBlock(who: Reader, b: seq<bit>, p: nat, out: seq<byte>): (r: Option<(seq<byte>, nat)>)
    ensures r.Some? ==> p < r.value.1 <= |b| && out <= r.value.0
  {
    if p + 3 > |b| then None else RunBody(who, Lsb(b, p + 1, 2), b, p + 3, out)
  }

  /** Blocks from bit p up to and including the one marked last. */
  ghost function RunStream(who: Reader, b: seq<bit>, p: nat, out: seq<byte>): (r: Option<(seq<byte>, nat)>)
    ensures r.Some? ==> p < r.value.1 <= |b| && out <= r.value.0
    decreases |b| - p
  {
    match RunBlock(who, b, p, out)
    case None => None
    case Some((o, q)) => if b[p] == 1 then Some((o, q)) else RunStream(who, b, q, o)
  }
}
