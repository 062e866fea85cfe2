/** What a DEFLATE stream is written as: the encoder of RFC 1951 as a function, and the proof that the
    reader accepts exactly what it writes. */
module DeflateGrammar {
  import opened Base
  import opened BitStream
  import opened Huffman
  import opened Deflate

  /** The bits w stand in b at p. */
  ghost predicate At(b: seq<bit>, p: nat, w: seq<bit>) {
    p + |w| <= |b| && b[p..p + |w|] == w
  }

  lemma AtJoin(b: seq<bit>, p: nat, u: seq<bit>, v: seq<bit>)
    ensures At(b, p, u + v) <==> At(b, p, u) && At(b, p + |u|, v)
  {
    var w := u + v;
    if At(b, p, w) {
      assert b[p..p + |u|] == b[p..p + |w|][..|u|] == u;
      assert b[p + |u|..p + |u| + |v|] == b[p..p + |w|][|u|..] == v;
    }
    if At(b, p, u) && At(b, p + |u|, v) {
      assert b[p..p + |w|] == b[p..p + |u|] + b[p + |u|..p + |u| + |v|];
    }
  }

  // ---- numbers and codewords ----

  lemma NumberIsRead(b: seq<bit>, p: nat, n: nat, v: nat)
    ensures p + n <= |b| && Lsb(b, p, n) == v <==> v < Pow2(n) && At(b, p, LsbBits(v, n))
  {
    if p + n <= |b| { LsbBitsAreRead(b, p, n, v); }
  }

  /** Symbol s can be written with the code of `lens`. */
  ghost predicate HasCode(lens: seq<nat>, s: nat) {
    s < |lens| && lens[s] > 0
  }

  lemma SymbolIsRead(lens: seq<nat>, b: seq<bit>, p: nat, s: nat, l: nat)
    requires Lengths(lens) && Good(lens)
    ensures DecodeSym(lens, b, p) == Some((s, l)) <==> HasCode(lens, s) && l == lens[s] && At(b, p, CodeBits(lens, s))
  {
    if p <= |b| {
      DecodesCanonicalCodes(lens, b, p, s, l);
    }
  }

  lemma NoCodesNothingRead(lens: seq<nat>, b: seq<bit>, p: nat)
    requires NoCodes(lens)
    ensures DecodeSym(lens, b, p) == None
  {
    forall l | 1 <= l <= MAX_BITS ensures FirstCode(lens, l) + Count(lens, l) == 0 {
      NothingOfLength(lens, |lens|, l);
    }
  }

  lemma {:induction false} NothingOfLength(lens: seq<nat>, n: nat, l: nat)
    requires NoCodes(lens) && n <= |lens| && l >= 1
    ensures CountUpTo(lens, n, l) == 0 && FirstCode(lens, l) == 0
    decreases l, n
  {
    if n > 0 { NothingOfLength(lens, n - 1, l); }
    if l > 1 { NothingOfLength(lens, |lens|, l - 1); }
  }

  // ---- tokens ----

  ghost predicate CanWrite(t: Token, lit: seq<nat>, dist: seq<nat>) {
    match t
    case Literal(c) => HasCode(lit, c)
    case EndOfBlock => HasCode(lit, 256)
    case Match(ls, lx, ds, dx) =>
      && ls < 29 && ds < 30 && lx < Pow2(LenExtra(ls)) && dx < Pow2(DistExtra(ds))
      && HasCode(lit, 257 + ls) && HasCode(dist, ds)
  }

  ghost function Write(t: Token, lit: seq<nat>, dist: seq<nat>): (w: seq<bit>)
    requires CanWrite(t, lit, dist)
    ensures |w| > 0
  {
    match t
    case Literal(c) => CodeBits(lit, c)
    case EndOfBlock => CodeBits(lit, 256)
    case Match(ls, lx, ds, dx) => CodeBits(lit, 257 + ls) + WriteRest(t, dist)
  }

  ghost function WriteRest(t: Token, dist: seq<nat>): (w: seq<bit>)
    requires t.Match? && t.InRange() && HasCode(dist, t.ds)
  {
    LsbBits(t.lx, LenExtra(t.ls)) + (CodeBits(dist, t.ds) + LsbBits(t.dx, DistExtra(t.ds)))
  }

  /** The fields of t fit, and the rest of the match t stands at p. */
  ghost predicate RestAt(t: Token, dist: seq<nat>, b: seq<bit>, p: nat) {
    && t.Match? && t.InRange() && HasCode(dist, t.ds)
    && t.lx < Pow2(LenExtra(t.ls)) && t.dx < Pow2(DistExtra(t.ds))
    && At(b, p, WriteRest(t, dist))
  }

  /** The three parts of the rest of a match, one by one. */
  lemma RestParts(t: Token, dist: seq<nat>, b: seq<bit>, p: nat)
    requires Lengths(dist) && Good(dist)
    requires t.Match? && t.InRange() && HasCode(dist, t.ds)
    ensures var m := p + LenExtra(t.ls);
            var n := m + dist[t.ds];
            RestAt(t, dist, b, p) <==>
              && m <= |b| && Lsb(b, p, LenExtra(t.ls)) == t.lx
              && DecodeSym(dist, b, m) == Some((t.ds, dist[t.ds]))
              && n + DistExtra(t.ds) <= |b| && Lsb(b, n, DistExtra(t.ds)) == t.dx
  {
    hide DecodeSym, Lsb, LsbBits, CodeBits, LenExtra, DistExtra, Pow2, Good, At;
    var m := p + LenExtra(t.ls);
    var u, v := CodeBits(dist, t.ds), LsbBits(t.dx, DistExtra(t.ds));
    AtJoin(b, p, LsbBits(t.lx, LenExtra(t.ls)), u + v);
    AtJoin(b, m, u, v);
    NumberIsRead(b, p, LenExtra(t.ls), t.lx);
    SymbolIsRead(dist, b, m, t.ds, dist[t.ds]);
    NumberIsRead(b, m + dist[t.ds], DistExtra(t.ds), t.dx);
  }

  lemma RestIsRead(dist: seq<nat>, b: seq<bit>, p: nat, ls: nat, t: Token, q: nat)
    requires Lengths(dist) && !OverSubscribed(dist) && ls < 29
    ensures ParseMatch(dist, b, p, ls) == Some((t, q)) <==>
            RestAt(t, dist, b, p) && t.ls == ls && q == p + |WriteRest(t, dist)|
  {
    hide DecodeSym, Lsb, LsbBits, CodeBits, LenExtra, DistExtra, Pow2, At, OverSubscribed;
    var m := p + LenExtra(ls);
    if NoCodes(dist) {
      NoCodesNothingRead(dist, b, m);
    } else {
      if m <= |b| && DecodeSym(dist, b, m).Some? {
        var (s, l) := DecodeSym(dist, b, m).value;
        SymbolIsRead(dist, b, m, s, l);
      }
      if t.Match? && t.InRange() && HasCode(dist, t.ds) { RestParts(t, dist, b, p); }
    }
  }

  lemma TokenIsRead(lit: seq<nat>, dist: seq<nat>, b: seq<bit>, p: nat, t: Token, q: nat)
    requires Lengths(lit) && Good(lit) && Lengths(dist) && !OverSubscribed(dist)
    ensures ParseToken(lit, dist, b, p) == Some((t, q)) <==>
            CanWrite(t, lit, dist) && At(b, p, Write(t, lit, dist)) && q == p + |Write(t, lit, dist)|
  {
    hide DecodeSym, ParseMatch, WriteRest, CodeBits, LenExtra, DistExtra, Pow2, At, OverSubscribed, Good;
    var s := match t case Literal(c) => c as nat case EndOfBlock => 256 case Match(ls, _, _, _) => 257 + ls;
    if HasCode(lit, s) { SymbolIsRead(lit, b, p, s, lit[s]); }
    if DecodeSym(lit, b, p).Some? {
      var (r, l) := DecodeSym(lit, b, p).value;
      SymbolIsRead(lit, b, p, r, l);
      if 257 <= r < 286 { RestIsRead(dist, b, p + l, r - 257, t, q); }
    }
    if CanWrite(t, lit, dist) && t.Match? {
      AtJoin(b, p, CodeBits(lit, s), WriteRest(t, dist));
      RestIsRead(dist, b, p + lit[s], t.ls, t, q);
    }
  }

  // ---- the body of a compressed block ----

  ghost predicate CanWriteAll(ts: seq<Token>, lit: seq<nat>, dist: seq<nat>) {
    HasCode(lit, 256) && forall i | 0 <= i < |ts| :: !ts[i].EndOfBlock? && CanWrite(ts[i], lit, dist)
  }

  ghost function WriteAll(ts: seq<Token>, lit: seq<nat>, dist: seq<nat>): seq<bit>
    requires CanWriteAll(ts, lit, dist)
  {
    if ts == [] then Write(EndOfBlock, lit, dist) else Write(ts[0], lit, dist) + WriteAll(ts[1..], lit, dist)
  }

  /** What the tokens stand for after `out`; None when a match reaches back before the start. */
  ghost function Expand(ts: seq<Token>, out: seq<byte>): Option<seq<byte>>
    requires forall i | 0 <= i < |ts| :: ts[i].InRange()
  {
    if ts == [] then Some(out)
    else
      match ApplyToken(ts[0], out)
      case None => None
      case Some(o) => Expand(ts[1..], o)
  }

  /** The tokens stand at p in the code of the two trees, end there with the end-of-block code, and mean o. */
  ghost predicate TokensAt(ts: seq<Token>, lit: seq<nat>, dist: seq<nat>, b: seq<bit>, p: nat, out: seq<byte>,
                           o: seq<byte>, q: nat) {
    && CanWriteAll(ts, lit, dist)
    && At(b, p, WriteAll(ts, lit, dist)) && q == p + |WriteAll(ts, lit, dist)|
    && Expand(ts, out) == Some(o)
  }

  lemma {:induction false} WrittenTokensRun(ts: seq<Token>, lit: seq<nat>, dist: seq<nat>, b: seq<bit>, p: nat,
                                            out: seq<byte>, o: seq<byte>, q: nat)
    requires Lengths(lit) && Good(lit) && Lengths(dist) && !OverSubscribed(dist)
    requires TokensAt(ts, lit, dist, b, p, out, o, q)
    ensures RunTokens(lit, dist, b, p, out) == Some((o, q))
    decreases |ts|
  {
    hide ParseToken, ApplyToken, Write, At, Good, OverSubscribed;
    if ts == [] {
      TokenIsRead(lit, dist, b, p, EndOfBlock, q);
    } else {
      var w := Write(ts[0], lit, dist);
      AtJoin(b, p, w, WriteAll(ts[1..], lit, dist));
      TokenIsRead(lit, dist, b, p, ts[0], p + |w|);
      WrittenTokensRun(ts[1..], lit, dist, b, p + |w|, ApplyToken(ts[0], out).value, o, q);
    }
  }

  lemma {:induction false} RunTokensWereWritten(lit: seq<nat>, dist: seq<nat>, b: seq<bit>, p: nat, out: seq<byte>,
                                                o: seq<byte>, q: nat) returns (ts: seq<Token>)
    requires Lengths(lit) && Good(lit) && Lengths(dist) && !OverSubscribed(dist)
    requires RunTokens(lit, dist, b, p, out) == Some((o, q))
    ensures TokensAt(ts, lit, dist, b, p, out, o, q)
    decreases |b| - p
  {
    hide ParseToken, ApplyToken, Write, At, Good, OverSubscribed;
    var (t, e) := ParseToken(lit, dist, b, p).value;
    TokenIsRead(lit, dist, b, p, t, e);
    if t.EndOfBlock? {
      ts := [];
    } else {
      var rest := RunTokensWereWritten(lit, dist, b, e, ApplyToken(t, out).value, o, q);
      ts := [t] + rest;
      assert ts[1..] == rest;
      AtJoin(b, p, Write(t, lit, dist), WriteAll(rest, lit, dist));
    }
  }

  // ---- code lengths ----

  ghost predicate CanWriteLen(t: LenSym, cl: seq<nat>) {
    match t
    case Len(n) => n < 16 && HasCode(cl, n)
    case Again(x) => x < 4 && HasCode(cl, 16)
    case Zeros(x) => x < 8 && HasCode(cl, 17)
    case ManyZeros(x) => x < 128 && HasCode(cl, 18)
  }

  ghost function WriteLen(t: LenSym, cl: seq<nat>): (w: seq<bit>)
    requires CanWriteLen(t, cl)
    ensures |w| > 0
  {
    match t
    case Len(n) => CodeBits(cl, n)
    case Again(x) => CodeBits(cl, 16) + LsbBits(x, 2)
    case Zeros(x) => CodeBits(cl, 17) + LsbBits(x, 3)
    case ManyZeros(x) => CodeBits(cl, 18) + LsbBits(x, 7)
  }

  lemma SymbolAndExtra(cl: seq<nat>, b: seq<bit>, p: nat, s: nat, n: nat, x: nat)
    requires Lengths(cl) && Good(cl) && HasCode(cl, s)
    ensures x < Pow2(n) && At(b, p, CodeBits(cl, s) + LsbBits(x, n)) <==>
            && DecodeSym(cl, b, p) == Some((s, cl[s]))
            && p + cl[s] + n <= |b| && Lsb(b, p + cl[s], n) == x
  {
    hide DecodeSym, Lsb, LsbBits, CodeBits, Good, At;
    SymbolIsRead(cl, b, p, s, cl[s]);
    NumberIsRead(b, p + cl[s], n, x);
    AtJoin(b, p, CodeBits(cl, s), LsbBits(x, n));
  }

  lemma LenSymIsRead(cl: seq<nat>, b: seq<bit>, p: nat, t: LenSym, q: nat)
    requires |cl| == 19 && Lengths(cl) && Good(cl)
    ensures ParseLenSym(cl, b, p) == Some((t, q)) <==>
            CanWriteLen(t, cl) && At(b, p, WriteLen(t, cl)) && q == p + |WriteLen(t, cl)|
  {
    hide DecodeSym, Lsb, LsbBits, CodeBits, Good, At, Lengths;
    assert Pow2(2) == 4 && Pow2(3) == 8 && Pow2(7) == 128;
    if DecodeSym(cl, b, p).Some? {
      var (s, l) := DecodeSym(cl, b, p).value;
      SymbolIsRead(cl, b, p, s, l);
    }
    match t
    case Len(n) => SymbolIsRead(cl, b, p, n, if n < |cl| then cl[n] else 0);
    case Again(x) => if HasCode(cl, 16) { SymbolAndExtra(cl, b, p, 16, 2, x); }
    case Zeros(x) => if HasCode(cl, 17) { SymbolAndExtra(cl, b, p, 17, 3, x); }
    case ManyZeros(x) => if HasCode(cl, 18) { SymbolAndExtra(cl, b, p, 18, 7, x); }
  }

  ghost predicate CanWriteLens(ts: seq<LenSym>, cl: seq<nat>) {
    forall i | 0 <= i < |ts| :: CanWriteLen(ts[i], cl)
  }

  ghost function WriteLens(ts: seq<LenSym>, cl: seq<nat>): seq<bit>
    requires CanWriteLens(ts, cl)
  {
    if ts == [] then [] else WriteLen(ts[0], cl) + WriteLens(ts[1..], cl)
  }

  ghost function ExpandLens(ts: seq<LenSym>, acc: seq<nat>): (r: Option<seq<nat>>)
    ensures r.Some? ==> |r.value| >= |acc|
  {
    if ts == [] then Some(acc)
    else
      match ApplyLenSym(ts[0], acc)
      case None => None
      case Some(a) => ExpandLens(ts[1..], a)
  }

  ghost predicate LensAt(ts: seq<LenSym>, cl: seq<nat>, b: seq<bit>, p: nat, acc: seq<nat>, lens: seq<nat>, q: nat) {
    && CanWriteLens(ts, cl)
    && At(b, p, WriteLens(ts, cl)) && q == p + |WriteLens(ts, cl)|
    && ExpandLens(ts, acc) == Some(lens)
  }

  lemma {:induction false} WrittenLensRun(ts: seq<LenSym>, cl: seq<nat>, b: seq<bit>, p: nat, acc: seq<nat>,
                                          lens: seq<nat>, q: nat)
    requires |cl| == 19 && Lengths(cl) && Good(cl) && Lengths(acc) && p <= |b| && |acc| <= |lens|
    requires LensAt(ts, cl, b, p, acc, lens, q)
    ensures RunLens(cl, b, p, |lens|, acc) == Some((lens, q))
    decreases |ts|
  {
    hide ParseLenSym, ApplyLenSym, WriteLen, At, Good, CanWriteLen;
    if ts != [] {
      var w, a := WriteLen(ts[0], cl), ApplyLenSym(ts[0], acc).value;
      AtJoin(b, p, w, WriteLens(ts[1..], cl));
      LenSymIsRead(cl, b, p, ts[0], p + |w|);
      WrittenLensRun(ts[1..], cl, b, p + |w|, a, lens, q);
    }
  }

  lemma {:induction false} RunLensWereWritten(cl: seq<nat>, b: seq<bit>, p: nat, total: nat, acc: seq<nat>,
                                              lens: seq<nat>, q: nat) returns (ts: seq<LenSym>)
    requires |cl| == 19 && Lengths(cl) && Good(cl) && Lengths(acc) && p <= |b| && |acc| <= total
    requires RunLens(cl, b, p, total, acc) == Some((lens, q))
    ensures LensAt(ts, cl, b, p, acc, lens, q)
    decreases total - |acc|
  {
    hide ParseLenSym, ApplyLenSym, WriteLen, At, Good, CanWriteLen;
    if |acc| == total {
      ts := [];
      assert WriteLens(ts, cl) == [];
      NothingStands(b, p);
    } else {
      var (t, e) := ParseLenSym(cl, b, p).value;
      LenSymIsRead(cl, b, p, t, e);
      var rest := RunLensWereWritten(cl, b, e, total, ApplyLenSym(t, acc).value, lens, q);
      ts := [t] + rest;
      assert ts[1..] == rest;
      AtJoin(b, p, WriteLen(t, cl), WriteLens(rest, cl));
    }
  }

  lemma NothingStands(b: seq<bit>, p: nat)
    ensures At(b, p, []) <==> p <= |b|
  {
  }

  // ---- blocks ----

  datatype Block =
    | Stored(pad: seq<bit>, data: seq<byte>)
    | Fixed(ts: seq<Token>)
    | Dynamic(nlen: nat, ndist: nat, vals: seq<nat>, ls: seq<LenSym>, lens: seq<nat>, ts: seq<Token>)
  {
    function Kind(): nat {
      match this case Stored(_, _) => 0 case Fixed(_) => 1 case Dynamic(_, _, _, _, _, _) => 2
    }
  }

  ghost function WriteThrees(vals: seq<nat>): (w: seq<bit>)
    ensures |w| == 3 * |vals|
  {
    if vals == [] then [] else WriteThrees(vals[..|vals| - 1]) + LsbBits(vals[|vals| - 1], 3)
  }

  lemma {:induction false} ThreesAreRead(b: seq<bit>, p: nat, vals: seq<nat>)
    ensures (forall i | 0 <= i < |vals| :: vals[i] < 8) && At(b, p, WriteThrees(vals)) <==>
            p + 3 * |vals| <= |b| && Threes(b, p, |vals|) == vals
    decreases |vals|
  {
    hide Lsb, LsbBits, At;
    if vals == [] {
      NothingStands(b, p);
    } else {
      var n := |vals| - 1;
      var init, v := vals[..n], vals[n];
      assert Pow2(3) == 8;
      assert vals == init + [v];
      ThreesAreRead(b, p, init);
      AtJoin(b, p, WriteThrees(init), LsbBits(v, 3));
      NumberIsRead(b, p + 3 * n, 3, v);
    }
  }

  ghost function ByteBits(data: seq<byte>): (w: seq<bit>)
    ensures |w| == 8 * |data|
  {
    if data == [] then [] else ByteBits(data[..|data| - 1]) + LsbBits(data[|data| - 1], 8)
  }

  lemma {:induction false} BytesAreRead(b: seq<bit>, p: nat, data: seq<byte>)
    ensures At(b, p, ByteBits(data)) <==> p + 8 * |data| <= |b| && Bytes(b, p, |data|) == data
    decreases |data|
  {
    hide Lsb, LsbBits, At;
    if data == [] {
      NothingStands(b, p);
    } else {
      var n := |data| - 1;
      var init, v := data[..n], data[n];
      assert Pow2(8) == 256;
      assert data == init + [v];
      BytesAreRead(b, p, init);
      AtJoin(b, p, ByteBits(init), LsbBits(v, 8));
      NumberIsRead(b, p + 8 * n, 8, v);
      if p + 8 * |data| <= |b| {
        assert Bytes(b, p, |data|) == Bytes(b, p, n) + [ByteOf(b, p + 8 * n)];
      }
    }
  }

  /** The counts of a dynamic block and its code-length code. */
  ghost predicate CanWriteHeader(k: Block) {
    && k.Dynamic? && 257 <= k.nlen <= 286 && 1 <= k.ndist <= 32 && 4 <= |k.vals| <= 19
    && (forall i | 0 <= i < |k.vals| :: k.vals[i] < 8)
    && Good(Deal(k.vals))
  }

  ghost function WriteHeader(k: Block): seq<bit>
    requires k.Dynamic? && k.nlen >= 257 && k.ndist >= 1 && |k.vals| >= 4
  {
    LsbBits(k.nlen - 257, 5) + (LsbBits(k.ndist - 1, 5) + (LsbBits(|k.vals| - 4, 4) + WriteThrees(k.vals)))
  }

  lemma HeaderParts(k: Block, b: seq<bit>, p: nat)
    requires k.Dynamic? && 257 <= k.nlen <= 286 && 1 <= k.ndist <= 32 && 4 <= |k.vals| <= 19
    ensures (forall i | 0 <= i < |k.vals| :: k.vals[i] < 8) && At(b, p, WriteHeader(k)) <==>
            && p + 14 + 3 * |k.vals| <= |b|
            && Lsb(b, p, 5) == k.nlen - 257 && Lsb(b, p + 5, 5) == k.ndist - 1 && Lsb(b, p + 10, 4) == |k.vals| - 4
            && Threes(b, p + 14, |k.vals|) == k.vals
  {
    hide Lsb, LsbBits, At, Threes, WriteThrees;
    assert Pow2(5) == 32 && Pow2(4) == 16;
    var u, v, w := LsbBits(k.nlen - 257, 5), LsbBits(k.ndist - 1, 5), LsbBits(|k.vals| - 4, 4);
    AtJoin(b, p, u, v + (w + WriteThrees(k.vals)));
    AtJoin(b, p + 5, v, w + WriteThrees(k.vals));
    AtJoin(b, p + 10, w, WriteThrees(k.vals));
    NumberIsRead(b, p, 5, k.nlen - 257);
    NumberIsRead(b, p + 5, 5, k.ndist - 1);
    NumberIsRead(b, p + 10, 4, |k.vals| - 4);
    ThreesAreRead(b, p + 14, k.vals);
  }

  lemma HeaderIsRead(k: Block, b: seq<bit>, p: nat)
    requires k.Dynamic? && 257 <= k.nlen && 1 <= k.ndist && 4 <= |k.vals| <= 19
    ensures CanWriteHeader(k) && At(b, p, WriteHeader(k)) ==>
              ParseHeader(Format, b, p) == Some((Header(k.nlen, k.ndist, Deal(k.vals)), p + |WriteHeader(k)|))
  {
    hide Lsb, LsbBits, At, Threes, WriteThrees, Deal, Good;
    if CanWriteHeader(k) && At(b, p, WriteHeader(k)) { HeaderParts(k, b, p); }
  }

  lemma HeaderWasWritten(b: seq<bit>, p: nat) returns (k: Block)
    requires ParseHeader(Format, b, p).Some?
    ensures CanWriteHeader(k) && At(b, p, WriteHeader(k))
    ensures ParseHeader(Format, b, p).value == (Header(k.nlen, k.ndist, Deal(k.vals)), p + |WriteHeader(k)|)
  {
    hide Lsb, LsbBits, At, WriteThrees, Deal, Good;
    var nlen, ndist, ncode := Lsb(b, p, 5) + 257, Lsb(b, p + 5, 5) + 1, Lsb(b, p + 10, 4) + 4;
    assert Lsb(b, p + 10, 4) < Pow2(4) == 16;
    k := Dynamic(nlen, ndist, Threes(b, p + 14, ncode), [], [], []);
    HeaderParts(k, b, p);
  }

  /** A valid block, of RFC 1951, whose body starts at bit p. */
  ghost predicate CanWriteBlock(k: Block, p: nat) {
    match k
    case Stored(pad, data) => |pad| == NextByte(p) - p && |data| < 65536
    case Fixed(ts) => CanWriteAll(ts, FixedLit(), FixedDist())
    case Dynamic(nlen, ndist, vals, ls, lens, ts) =>
      && CanWriteHeader(k)
      && CanWriteLens(ls, Deal(vals)) && ExpandLens(ls, []) == Some(lens) && |lens| == nlen + ndist
      && Good(lens[..nlen]) && !OverSubscribed(lens[nlen..])
      && CanWriteAll(ts, lens[..nlen], lens[nlen..])
  }

  ghost function WriteBlock(k: Block, p: nat): seq<bit>
    requires CanWriteBlock(k, p)
  {
    match k
    case Stored(pad, data) => pad + WriteStored(data)
    case Fixed(ts) => WriteAll(ts, FixedLit(), FixedDist())
    case Dynamic(nlen, ndist, vals, ls, lens, ts) =>
      (WriteHeader(k) + WriteLens(ls, Deal(vals))) + WriteAll(ts, lens[..nlen], lens[nlen..])
  }

  ghost function WriteStored(data: seq<byte>): seq<bit>
    requires |data| < 65536
  {
    LsbBits(|data|, 16) + (LsbBits(65535 - |data|, 16) + ByteBits(data))
  }

  /** What a block stands for after `out`. */
  ghost function BlockMeaning(k: Block, p: nat, out: seq<byte>): Option<seq<byte>>
    requires CanWriteBlock(k, p)
  {
    if k.Stored? then Some(out + k.data) else Expand(k.ts, out)
  }

  ghost predicate BlockAt(k: Block, b: seq<bit>, p: nat, out: seq<byte>, o: seq<byte>, q: nat) {
    && CanWriteBlock(k, p)
    && At(b, p, WriteBlock(k, p)) && q == p + |WriteBlock(k, p)|
    && BlockMeaning(k, p, out) == Some(o)
  }

  lemma StoredIsRead(b: seq<bit>, p: nat, data: seq<byte>)
    requires |data| < 65536
    ensures At(b, p, WriteStored(data)) <==>
            && p + 32 + 8 * |data| <= |b|
            && Lsb(b, p, 16) == |data| && Lsb(b, p + 16, 16) == 65535 - |data|
            && Bytes(b, p + 32, |data|) == data
  {
    hide Lsb, LsbBits, At, Bytes, ByteBits;
    SixteenBits();
    var n := |data|;
    AtJoin(b, p, LsbBits(n, 16), LsbBits(65535 - n, 16) + ByteBits(data));
    AtJoin(b, p + 16, LsbBits(65535 - n, 16), ByteBits(data));
    NumberIsRead(b, p, 16, n);
    NumberIsRead(b, p + 16, 16, 65535 - n);
    BytesAreRead(b, p + 32, data);
  }

  lemma SixteenBits()
    ensures Pow2(16) == 65536
  {
    assert Pow2(8) == 256;
    Pow2Adds(8, 8);
  }

  lemma {:induction false} Pow2Adds(m: nat, n: nat)
    ensures Pow2(m + n) == Pow2(m) * Pow2(n)
  {
    if m > 0 {
      Pow2Adds(m - 1, n);
      assert Pow2(m + n) == 2 * Pow2(m - 1 + n);
    }
  }

  lemma StoredRuns(b: seq<bit>, p: nat, pad: seq<bit>, data: seq<byte>, out: seq<byte>, q: nat)
    requires |pad| == NextByte(p) - p && |data| < 65536
    requires At(b, p, pad + WriteStored(data)) && q == p + |pad + WriteStored(data)|
    ensures RunStored(b, p, out) == Some((out + data, q))
  {
    hide Lsb, LsbBits, At, Bytes, ByteBits;
    AtJoin(b, p, pad, WriteStored(data));
    StoredIsRead(b, NextByte(p), data);
  }

  lemma StoredWasWritten(b: seq<bit>, p: nat, out: seq<byte>, o: seq<byte>, q: nat) returns (k: Block)
    requires RunStored(b, p, out) == Some((o, q))
    ensures k.Stored? && BlockAt(k, b, p, out, o, q)
  {
    hide Lsb, LsbBits, At, Bytes, ByteBits;
    SixteenBits();
    var e := NextByte(p);
    var pad, data := b[p..e], Bytes(b, e + 32, Lsb(b, e, 16));
    k := Stored(pad, data);
    StoredIsRead(b, e, data);
    assert At(b, p, pad) by { Slice(b, p, e); }
    AtJoin(b, p, pad, WriteStored(data));
  }

  lemma Slice(b: seq<bit>, p: nat, e: nat)
    requires p <= e <= |b|
    ensures At(b, p, b[p..e])
  {
  }

  /** A written block is read for what it means. */
  lemma WrittenBlockRuns(k: Block, b: seq<bit>, p: nat, out: seq<byte>, o: seq<byte>, q: nat)
    requires BlockAt(k, b, p, out, o, q)
    ensures RunBody(Format, k.Kind(), b, p, out) == Some((o, q))
  {
    hide RunStored, RunTokens, ParseHeader, RunLens, At, WriteAll, WriteLens, WriteHeader, WriteStored, FixedLit, FixedDist,
      Good, OverSubscribed, CanWriteAll, CanWriteLens, Deal;
    match k
    case Stored(pad, data) => StoredRuns(b, p, pad, data, out, q);
    case Fixed(ts) =>
      FixedTreesAreGood();
      WrittenTokensRun(ts, FixedLit(), FixedDist(), b, p, out, o, q);
    case Dynamic(nlen, ndist, vals, ls, lens, ts) =>
      var h, w := WriteHeader(k), WriteLens(ls, Deal(vals));
      AtJoin(b, p, h + w, WriteAll(ts, lens[..nlen], lens[nlen..]));
      AtJoin(b, p, h, w);
      HeaderIsRead(k, b, p);
      var e := p + |h|;
      assert RunLens(Deal(vals), b, e, |lens|, []) == Some((lens, e + |w|)) by {
        DealtLengths(vals);
        Within(b, p, h);
        WrittenLensRun(ls, Deal(vals), b, e, [], lens, e + |w|);
      }
      WrittenTokensRun(ts, lens[..nlen], lens[nlen..], b, e + |w|, out, o, q);
  }

  lemma Within(b: seq<bit>, p: nat, w: seq<bit>)
    requires At(b, p, w)
    ensures p + |w| <= |b|
  {
  }

  /** Every block that the format accepts is a valid one. */
  lemma BlockWasWritten(kind: nat, b: seq<bit>, p: nat, out: seq<byte>, o: seq<byte>, q: nat) returns (k: Block)
    requires RunBody(Format, kind, b, p, out) == Some((o, q))
    ensures k.Kind() == kind && BlockAt(k, b, p, out, o, q)
  {
    hide RunStored, RunTokens, ParseHeader, RunLens, At, WriteAll, WriteLens, WriteHeader, WriteStored, FixedLit, FixedDist,
      Good, OverSubscribed, CanWriteAll, CanWriteLens, Deal;
    if kind == 0 {
      k := StoredWasWritten(b, p, out, o, q);
    } else if kind == 1 {
      FixedTreesAreGood();
      var ts := RunTokensWereWritten(FixedLit(), FixedDist(), b, p, out, o, q);
      k := Fixed(ts);
    } else {
      k := TreesWereWritten(b, p, out, o, q);
    }
  }

  lemma TreesWereWritten(b: seq<bit>, p: nat, out: seq<byte>, o: seq<byte>, q: nat) returns (k: Block)
    requires RunBody(Format, 2, b, p, out) == Some((o, q))
    ensures k.Dynamic? && BlockAt(k, b, p, out, o, q)
  {
    hide RunStored, RunTokens, ParseHeader, RunLens, At, WriteAll, WriteLens, WriteHeader, WriteStored, FixedLit, FixedDist,
      Good, OverSubscribed, CanWriteAll, CanWriteLens, Deal;
    var h := HeaderWasWritten(b, p);
    var cl := Deal(h.vals);
    var m := p + |WriteHeader(h)|;
    var (lens, e) := RunLens(cl, b, m, h.nlen + h.ndist, []).value;
    var ls := RunLensWereWritten(cl, b, m, h.nlen + h.ndist, [], lens, e);
    var ts := RunTokensWereWritten(lens[..h.nlen], lens[h.nlen..], b, e, out, o, q);
    k := Dynamic(h.nlen, h.ndist, h.vals, ls, lens, ts);
    SameHeader(h, k);
    AtJoin(b, p, WriteHeader(k), WriteLens(ls, cl));
    AtJoin(b, p, WriteHeader(k) + WriteLens(ls, cl), WriteAll(ts, lens[..h.nlen], lens[h.nlen..]));
  }

  lemma SameHeader(h: Block, k: Block)
    requires h.Dynamic? && k.Dynamic? && h.nlen == k.nlen && h.ndist == k.ndist && h.vals == k.vals
    ensures CanWriteHeader(h) <==> CanWriteHeader(k)
    ensures CanWriteHeader(h) ==> WriteHeader(h) == WriteHeader(k)
  {
  }
}
