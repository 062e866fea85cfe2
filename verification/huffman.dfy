/** Canonical Huffman codes in the compact form of RFC 1951: how many codes each length has, and the
    symbols sorted by (length, symbol). */
module Huffman {
  import opened Base
  import opened BitStream

  const MAX_BITS := 15
  const FULL_CODE := 32768

  /** How many of the first n symbols have code length l. */
  function CountUpTo(lens: seq<nat>, n: nat, l: nat): (c: nat)
    requires n <= |lens|
    ensures c <= n
    decreases |lens| + n
  {
    if n == 0 then 0 else CountUpTo(lens, n - 1, l) + (if lens[n - 1] == l then 1 else 0)
  }

  function Count(lens: seq<nat>, l: nat): nat {
    CountUpTo(lens, |lens|, l)
  }

  /** The smallest code of length l: next_code[l] of RFC 1951, section 3.2.2, step 2. */
  function FirstCode(lens: seq<nat>, l: nat): nat
    decreases |lens| + l
  {
    if l <= 1 then 0 else 2 * (FirstCode(lens, l - 1) + Count(lens, l - 1))
  }

  /** The code of symbol s: RFC 1951, section 3.2.2, step 3. */
  function Code(lens: seq<nat>, s: nat): nat
    requires s < |lens|
  {
    FirstCode(lens, lens[s]) + CountUpTo(lens, s, lens[s])
  }

  /** RFC 1951, section 3.2.2, the two rules: among the symbols of one length the codes follow one another in the order of
      the symbols, and a shorter code, however it is continued, comes before a longer one. */
  lemma CodesInOrder(lens: seq<nat>, s: nat, t: nat)
    requires s < |lens| && t < |lens| && lens[s] > 0 && lens[t] > 0
    ensures lens[s] == lens[t] && s < t ==>
              Code(lens, s) < Code(lens, t) &&
              ((forall k | s < k < t :: lens[k] != lens[s]) ==> Code(lens, t) == Code(lens, s) + 1)
    ensures lens[s] < lens[t] ==> (Code(lens, s) + 1) * Pow2(lens[t] - lens[s]) <= Code(lens, t)
  {
    if lens[s] == lens[t] && s < t {
      CountMonotone(lens, s + 1, t, lens[s]);
      if forall k | s < k < t :: lens[k] != lens[s] { NoneBetween(lens, s + 1, t, lens[s]); }
    }
    if lens[s] < lens[t] {
      CountMonotone(lens, s + 1, |lens|, lens[s]);
      FirstsRise(lens, lens[s], lens[t], Code(lens, s) + 1);
    }
  }

  lemma {:induction false} NoneBetween(lens: seq<nat>, i: nat, j: nat, l: nat)
    requires i <= j <= |lens| && forall k | i <= k < j :: lens[k] != l
    ensures CountUpTo(lens, j, l) == CountUpTo(lens, i, l)
    decreases j
  {
    if i < j { NoneBetween(lens, i, j - 1, l); }
  }

  lemma {:induction false} FirstsRise(lens: seq<nat>, l: nat, m: nat, c: nat)
    requires 0 < l < m && c <= FirstCode(lens, l) + Count(lens, l)
    ensures c * Pow2(m - l) <= FirstCode(lens, m)
    decreases m
  {
    hide Count;
    if l + 1 < m {
      FirstsRise(lens, l, m - 1, c);
      Doubles(c, Pow2(m - 1 - l));
    } else {
      assert Pow2(1) == 2;
    }
  }

  lemma Doubles(c: nat, q: nat)
    ensures c * (2 * q) == 2 * (c * q)
  {
  }

  /** The n bits of v, most significant first: how DEFLATE packs a Huffman code (section 3.1.1). */
  function MsbBits(v: nat, n: nat): (w: seq<bit>)
    ensures |w| == n
  {
    if n == 0 then [] else MsbBits(v / 2, n - 1) + [v % 2]
  }

  /** The codeword of symbol s as it appears in the stream. */
  function CodeBits(lens: seq<nat>, s: nat): (w: seq<bit>)
    requires s < |lens|
    ensures |w| == lens[s]
  {
    MsbBits(Code(lens, s), lens[s])
  }

  /** The number spelt by the n bits of b from p on, first bit most significant. */
  function Msb(b: seq<bit>, p: nat, n: nat): (v: nat)
    requires p + n <= |b|
    ensures v < Pow2(n)
    decreases |b| + n
  {
    if n == 0 then 0 else 2 * Msb(b, p, n - 1) + b[p + n - 1]
  }

  lemma {:induction false} MsbBitsAreRead(b: seq<bit>, p: nat, n: nat, v: nat)
    requires p + n <= |b|
    ensures v < Pow2(n) && b[p..p + n] == MsbBits(v, n) <==> v == Msb(b, p, n)
  {
    if n > 0 {
      var t := p + (n - 1);
      assert b[p..p + n] == b[p..t] + [b[t]];
      MsbBitsAreRead(b, p, n - 1, v / 2);
      if b[p..p + n] == MsbBits(v, n) {
        assert b[p..t] == (b[p..p + n])[..n - 1] == MsbBits(v / 2, n - 1);
        assert b[t] == (b[p..p + n])[n - 1] == v % 2;
      }
    }
  }

  /** Kraft's sum over the codes of length at most l among the first n symbols, in units of 2^-15. */
  function KraftSum(lens: seq<nat>, n: nat, l: nat): nat
    requires n <= |lens| && l <= MAX_BITS
    decreases |lens| + n
  {
    if n == 0 then 0
    else KraftSum(lens, n - 1, l) + (if 1 <= lens[n - 1] <= l then Pow2(MAX_BITS - lens[n - 1]) else 0)
  }

  ghost predicate Lengths(lens: seq<nat>) {
    forall i | 0 <= i < |lens| :: lens[i] <= MAX_BITS
  }

  ghost predicate OverSubscribed(lens: seq<nat>) {
    KraftSum(lens, |lens|, MAX_BITS) > FULL_CODE
  }

  ghost predicate NoCodes(lens: seq<nat>) {
    forall i | 0 <= i < |lens| :: lens[i] == 0
  }

  /** The same sum, of the codes of length at most l, taken length by length. */
  function KraftByLength(lens: seq<nat>, n: nat, l: nat): nat
    requires n <= |lens| && l <= MAX_BITS
    decreases l
  {
    if l == 0 then 0 else KraftByLength(lens, n, l - 1) + Times(CountUpTo(lens, n, l), Pow2(MAX_BITS - l))
  }

  lemma {:induction false} OneMoreSymbol(lens: seq<nat>, n: nat, l: nat)
    requires n < |lens| && l <= MAX_BITS
    ensures KraftByLength(lens, n + 1, l) ==
            KraftByLength(lens, n, l) + (if 1 <= lens[n] <= l then Pow2(MAX_BITS - lens[n]) else 0)
    decreases l
  {
    hide Pow2, Times;
    if l > 0 {
      var c, q := CountUpTo(lens, n, l), Pow2(MAX_BITS - l);
      assert CountUpTo(lens, n + 1, l) == if lens[n] == l then c + 1 else c;
      OneMoreTime(c, q);
      OneMoreSymbol(lens, n, l - 1);
    }
  }

  lemma OneMoreTime(c: nat, q: nat)
    ensures Times(c + 1, q) == Times(c, q) + q
  {
  }

  lemma {:induction false} KraftSumByLength(lens: seq<nat>, n: nat, l: nat)
    requires n <= |lens| && l <= MAX_BITS
    ensures KraftByLength(lens, n, l) == KraftSum(lens, n, l)
    decreases n
  {
    if n > 0 {
      var m := n - 1;
      var d := if 1 <= lens[m] <= l then Pow2(MAX_BITS - lens[m]) else 0;
      assert KraftSum(lens, n, l) == KraftSum(lens, m, l) + d;
      KraftSumByLength(lens, m, l);
      OneMoreSymbol(lens, m, l);
      assert KraftByLength(lens, n, l) == KraftByLength(lens, m, l) + d;
    } else {
      NoSymbols(lens, l);
    }
  }

  lemma {:induction false} NoSymbols(lens: seq<nat>, l: nat)
    requires l <= MAX_BITS
    ensures KraftByLength(lens, 0, l) == 0
  {
    if l > 0 { NoSymbols(lens, l - 1); }
  }

  lemma {:induction false} KraftIsFirstCode(lens: seq<nat>, l: nat)
    requires 1 <= l <= MAX_BITS
    ensures KraftByLength(lens, |lens|, l) == Times(FirstCode(lens, l) + Count(lens, l), Pow2(MAX_BITS - l))
  {
    var q := Pow2(MAX_BITS - l);
    if l > 1 {
      assert Pow2(MAX_BITS - (l - 1)) == 2 * q;
      assert KraftByLength(lens, |lens|, l) == KraftByLength(lens, |lens|, l - 1) + Times(Count(lens, l), q);
      KraftIsFirstCode(lens, l - 1);
      Regroup(FirstCode(lens, l - 1) + Count(lens, l - 1), Count(lens, l), q);
    } else {
      NoSymbols(lens, 0);
      assert KraftByLength(lens, |lens|, 0) == 0;
    }
  }

  /** c * q, one q at a time. */
  function Times(c: nat, q: nat): nat {
    if c == 0 then 0 else q + Times(c - 1, q)
  }

  lemma {:induction false} Regroup(a: nat, c: nat, q: nat)
    ensures Times(a, 2 * q) + Times(c, q) == Times(2 * a + c, q)
  {
    if a > 0 {
      Regroup(a - 1, c, q);
      assert Times(2 * a + c, q) == q + Times(2 * a + c - 1, q) == q + (q + Times(2 * (a - 1) + c, q));
    }
  }

  lemma {:induction false} TimesOne(c: nat)
    ensures Times(c, 1) == c
  {
    if c > 0 { TimesOne(c - 1); }
  }

  /** All codes of a list fit in 15 bits exactly when it is not over-subscribed. */
  lemma FullLevel(lens: seq<nat>, l: nat)
    requires l == MAX_BITS
    ensures OverSubscribed(lens) <==> FirstCode(lens, l) + Count(lens, l) > Pow2(l)
  {
    KraftSumByLength(lens, |lens|, l);
    KraftIsFirstCode(lens, l);
    TimesOne(FirstCode(lens, l) + Count(lens, l));
    assert Pow2(15) == 32 * Pow2(10) && Pow2(10) == 1024;
  }

  /** Where the symbols of length l start in the sorted table. */
  function Offset(lens: seq<nat>, l: nat): nat
    decreases |lens| + l
  {
    if l <= 1 then 0 else Offset(lens, l - 1) + Count(lens, l - 1)
  }

  lemma {:induction false} CountMonotone(lens: seq<nat>, m: nat, n: nat, l: nat)
    requires m <= n <= |lens|
    ensures CountUpTo(lens, m, l) <= CountUpTo(lens, n, l)
    ensures m < n && lens[m] == l ==> CountUpTo(lens, m, l) < CountUpTo(lens, n, l)
    decreases n
  {
    if m < n { CountMonotone(lens, m, n - 1, l); }
  }

  lemma {:induction false} OffsetMonotone(lens: seq<nat>, k: nat, l: nat)
    requires 1 <= k < l
    ensures Offset(lens, k) + Count(lens, k) <= Offset(lens, l)
    decreases l
  {
    if k < l - 1 { OffsetMonotone(lens, k, l - 1); }
  }

  /** How many of the first n symbols have a length in 1 .. l - 1. */
  function CountBelow(lens: seq<nat>, n: nat, l: nat): (c: nat)
    requires n <= |lens|
    ensures c <= n
    decreases |lens| + n
  {
    if n == 0 then 0 else CountBelow(lens, n - 1, l) + (if 1 <= lens[n - 1] < l then 1 else 0)
  }

  lemma {:induction false} CountBelowStep(lens: seq<nat>, n: nat, l: nat)
    requires n <= |lens| && l >= 1
    ensures CountBelow(lens, n, l + 1) == CountBelow(lens, n, l) + CountUpTo(lens, n, l)
    ensures CountBelow(lens, n, 1) == 0
  {
    if n > 0 { CountBelowStep(lens, n - 1, l); }
  }

  lemma {:induction false} OffsetIsCount(lens: seq<nat>, l: nat)
    requires l >= 1
    ensures Offset(lens, l) == CountBelow(lens, |lens|, l) <= |lens|
  {
    CountBelowStep(lens, |lens|, l);
    if l > 1 {
      OffsetIsCount(lens, l - 1);
      CountBelowStep(lens, |lens|, l - 1);
    }
  }

  /** The slot of symbol s in the sorted table. */
  function Slot(lens: seq<nat>, s: nat): nat
    requires s < |lens|
  {
    Offset(lens, lens[s]) + CountUpTo(lens, s, lens[s])
  }

  lemma SlotsDiffer(lens: seq<nat>, s: nat, t: nat)
    requires s < t < |lens| && lens[s] > 0 && lens[t] > 0
    ensures Slot(lens, s) != Slot(lens, t)
  {
    CountMonotone(lens, s, t, lens[s]);
    CountMonotone(lens, s, |lens|, lens[s]);
    CountMonotone(lens, t, |lens|, lens[t]);
    if lens[s] < lens[t] { OffsetMonotone(lens, lens[s], lens[t]); }
    if lens[t] < lens[s] { OffsetMonotone(lens, lens[t], lens[s]); }
  }

  lemma SlotInTable(lens: seq<nat>, s: nat)
    requires s < |lens| && lens[s] > 0
    ensures Slot(lens, s) < |lens|
  {
    CountMonotone(lens, s, |lens|, lens[s]);
    OffsetIsCount(lens, lens[s] + 1);
  }

  /** The symbol of length l with j symbols of that length before it. */
  function Nth(lens: seq<nat>, n: nat, l: nat, j: nat): (s: nat)
    requires n <= |lens| && j < CountUpTo(lens, n, l)
    ensures s < n && lens[s] == l && CountUpTo(lens, s, l) == j
  {
    if lens[n - 1] == l && CountUpTo(lens, n - 1, l) == j then n - 1 else Nth(lens, n - 1, l, j)
  }

  lemma RankIsUnique(lens: seq<nat>, s: nat, t: nat)
    requires s < |lens| && t < |lens| && lens[s] == lens[t]
    requires CountUpTo(lens, s, lens[s]) == CountUpTo(lens, t, lens[t])
    ensures s == t
  {
    var lo, hi := if s < t then s else t, if s < t then t else s;
    CountMonotone(lens, lo, hi, lens[s]);
  }

  /** The table can be built: it has a code and is not over-subscribed. */
  ghost predicate Good(lens: seq<nat>) {
    !NoCodes(lens) && !OverSubscribed(lens)
  }

  ghost predicate Accepts(lens: seq<nat>, b: seq<bit>, p: nat, l: nat)
    requires p + l <= |b|
  {
    Msb(b, p, l) < FirstCode(lens, l) + Count(lens, l)
  }

  /** The first length, from l on, at which the bits read so far fall below the codes still open. */
  ghost function Level(lens: seq<nat>, b: seq<bit>, p: nat, l: nat): (r: Option<nat>)
    requires 1 <= l && (l > 1 ==> p + l - 1 <= |b| && !Accepts(lens, b, p, l - 1))
    ensures r.Some? ==> l <= r.value <= MAX_BITS && p + r.value <= |b| && Accepts(lens, b, p, r.value)
    ensures r.Some? ==> FirstCode(lens, r.value) <= Msb(b, p, r.value)
    decreases |b| + 1 - p - l
  {
    if l > MAX_BITS || p + l > |b| then None
    else if Accepts(lens, b, p, l) then Some(l)
    else Level(lens, b, p, l + 1)
  }

  /** What the table of `lens` reads at bit p: the symbol and how many bits it took. A table that
      could not be built keeps its counts but names no symbol other than 0. */
  ghost function DecodeSym(lens: seq<nat>, b: seq<bit>, p: nat): (r: Option<(nat, nat)>)
    ensures r.Some? ==> 1 <= r.value.1 && p + r.value.1 <= |b|
    ensures r.Some? && Good(lens) ==> r.value.0 < |lens|
  {
    match Level(lens, b, p, 1)
    case None => None
    case Some(l) =>
      Some((if Good(lens) then Nth(lens, |lens|, l, Msb(b, p, l) - FirstCode(lens, l)) else 0, l))
  }

  lemma {:induction false} LongerStaysOut(lens: seq<nat>, b: seq<bit>, p: nat, k: nat, l: nat)
    requires 1 <= k < l && p + l <= |b| && Msb(b, p, l) >= FirstCode(lens, l)
    ensures !Accepts(lens, b, p, k)
    decreases l
  {
    if k < l - 1 { LongerStaysOut(lens, b, p, k, l - 1); }
  }

  lemma {:induction false} LevelReaches(lens: seq<nat>, b: seq<bit>, p: nat, k: nat, l: nat)
    requires 1 <= k <= l <= MAX_BITS && p + l <= |b|
    requires FirstCode(lens, l) <= Msb(b, p, l) && Accepts(lens, b, p, l)
    requires k > 1 ==> !Accepts(lens, b, p, k - 1)
    ensures Level(lens, b, p, k) == Some(l)
    decreases l - k
  {
    if k < l {
      LongerStaysOut(lens, b, p, k, l);
      LevelReaches(lens, b, p, k + 1, l);
    }
  }

  /** No code of length l or less matches. */
  ghost predicate StaysOut(lens: seq<nat>, b: seq<bit>, p: nat, l: nat)
    requires p + l <= |b|
  {
    FirstCode(lens, l) <= Msb(b, p, l) && !Accepts(lens, b, p, l)
  }

  lemma NoLevel(lens: seq<nat>, b: seq<bit>, p: nat, l: nat)
    requires p + l <= |b| && (l > 0 ==> StaysOut(lens, b, p, l))
    requires l >= MAX_BITS || p + l + 1 > |b|
    ensures DecodeSym(lens, b, p) == None
  {
    var r := Level(lens, b, p, 1);
    if r.Some? && r.value < l { LongerStaysOut(lens, b, p, r.value, l); }
  }

  lemma CodeFits(lens: seq<nat>, s: nat)
    requires Lengths(lens) && !OverSubscribed(lens) && s < |lens| && lens[s] > 0
    ensures FirstCode(lens, lens[s]) <= Code(lens, s) < FirstCode(lens, lens[s]) + Count(lens, lens[s])
    ensures Code(lens, s) < Pow2(lens[s])
  {
    CountMonotone(lens, s, |lens|, lens[s]);
    if FirstCode(lens, lens[s]) + Count(lens, lens[s]) > Pow2(lens[s]) { TooMany(lens, lens[s]); }
  }

  /** The decoder reads symbol s, taking lens[s] bits, exactly when the canonical code of s comes next. */
  lemma DecodesCanonicalCodes(lens: seq<nat>, b: seq<bit>, p: nat, s: nat, l: nat)
    requires Lengths(lens) && Good(lens) && p <= |b|
    ensures DecodeSym(lens, b, p) == Some((s, l)) <==>
            s < |lens| && lens[s] == l > 0 && p + l <= |b| && b[p..p + l] == CodeBits(lens, s)
  {
    if s < |lens| && lens[s] == l > 0 && p + l <= |b| && b[p..p + l] == CodeBits(lens, s) {
      CodeFits(lens, s);
      MsbBitsAreRead(b, p, l, Code(lens, s));
      LevelReaches(lens, b, p, 1, l);
      RankIsUnique(lens, s, DecodeSym(lens, b, p).value.0);
    }
    if DecodeSym(lens, b, p) == Some((s, l)) {
      MsbBitsAreRead(b, p, l, Code(lens, s));
    }
  }

  /** The decoder's table. */
  datatype Huff = Huff(count: seq<nat>, symbol: seq<nat>) {
    ghost predicate Shaped(n: nat) {
      |count| == 16 && |symbol| == 288 && forall i | 0 <= i < 288 :: symbol[i] < n
    }
  }

  /** h counts the lengths of `lens`. */
  ghost predicate Counts(h: Huff, lens: seq<nat>) {
    |h.count| == 16 && forall l | 0 <= l < 16 :: h.count[l] == Count(lens, l)
  }

  /** The first n symbols that have a code are in their slots. */
  ghost predicate Placed(lens: seq<nat>, symbol: seq<nat>, n: nat)
    requires n <= |lens|
  {
    forall s | 0 <= s < n && lens[s] > 0 :: Slot(lens, s) < |symbol| && symbol[Slot(lens, s)] == s
  }

  /** h also holds the symbols of `lens` in their slots. */
  ghost predicate Sorted(h: Huff, lens: seq<nat>) {
    Placed(lens, h.symbol, |lens|)
  }

  /** A table is built exactly for the length lists that have a code and are not over-subscribed;
      otherwise the counts are left filled and the symbols all zero. */
  method Build(lens: seq<nat>) returns (ok: bool, h: Huff)
    requires 0 < |lens| <= 288 && Lengths(lens)
    ensures ok <==> !NoCodes(lens) && !OverSubscribed(lens)
    ensures Counts(h, lens) && h.Shaped(|lens|)
    ensures ok ==> Sorted(h, lens)
    ensures !ok ==> forall i | 0 <= i < 288 :: h.symbol[i] == 0
  {
    var count := CountLengths(lens);
    h := Huff(count[..], seq(288, _ => 0));
    AllZeroCounted(lens, |lens|);
    if count[0] == |lens| { return false, h; }
    var fits := CheckKraft(lens, count);
    if !fits { return false, h; }
    var symbol := FillSymbols(lens, count);
    ok, h := true, Huff(count[..], symbol[..]);
  }

  method CountLengths(lens: seq<nat>) returns (count: array<nat>)
    requires Lengths(lens)
    ensures fresh(count) && count.Length == 16
    ensures forall l | 0 <= l < 16 :: count[l] == Count(lens, l)
  {
    count := new nat[16](_ => 0);
    for i := 0 to |lens|
      invariant forall l | 0 <= l < 16 :: count[l] == CountUpTo(lens, i, l)
    {
      count[lens[i]] := count[lens[i]] + 1;
    }
  }

  /** The builder's running test: the codes left over at each length must not go negative. */
  method CheckKraft(lens: seq<nat>, count: array<nat>) returns (fits: bool)
    requires count.Length == 16 && forall l | 0 <= l < 16 :: count[l] == Count(lens, l)
    ensures fits <==> !OverSubscribed(lens)
  {
    var left: int := 1;
    for len := 1 to 16
      invariant left == Pow2(len - 1) - (if len == 1 then 0 else FirstCode(lens, len - 1) + Count(lens, len - 1))
      invariant left >= 0
    {
      left := 2 * left;
      left := left - count[len];
      if left < 0 {
        TooMany(lens, len);
        return false;
      }
    }
    FullLevel(lens, MAX_BITS);
    return true;
  }

  lemma {:induction false} AllZeroCounted(lens: seq<nat>, n: nat)
    requires n <= |lens|
    ensures CountUpTo(lens, n, 0) == n <==> forall i | 0 <= i < n :: lens[i] == 0
  {
    if n > 0 { AllZeroCounted(lens, n - 1); }
  }

  /** Once a level has more codes than it can hold, so has every deeper one. */
  lemma {:induction false} TooMany(lens: seq<nat>, l: nat)
    requires 1 <= l <= MAX_BITS && FirstCode(lens, l) + Count(lens, l) > Pow2(l)
    ensures OverSubscribed(lens)
    decreases MAX_BITS - l
  {
    if l < MAX_BITS {
      TooMany(lens, l + 1);
    } else {
      FullLevel(lens, l);
    }
  }

  method Offsets(lens: seq<nat>, count: array<nat>) returns (offs: array<nat>)
    requires count.Length == 16 && forall l | 0 <= l < 16 :: count[l] == Count(lens, l)
    ensures fresh(offs) && offs.Length == 16
    ensures forall l | 1 <= l < 16 :: offs[l] == Offset(lens, l)
  {
    hide Count, Offset;
    offs := new nat[16](_ => 0);
    FirstOffset(lens);
    for len := 1 to 15
      invariant forall l | 1 <= l <= len :: offs[l] == Offset(lens, l)
    {
      NextOffset(lens, len);
      offs[len + 1] := offs[len] + count[len];
    }
  }

  lemma FirstOffset(lens: seq<nat>)
    ensures Offset(lens, 1) == 0
  {
  }

  lemma NextOffset(lens: seq<nat>, l: nat)
    requires l > 0
    ensures Offset(lens, l + 1) == Offset(lens, l) + Count(lens, l)
  {
    hide Count;
  }

  /** The last loop of the builder: each symbol with a code goes to the next free slot of its length. */
  method FillSymbols(lens: seq<nat>, count: array<nat>) returns (symbol: array<nat>)
    requires 0 < |lens| <= 288 && Lengths(lens)
    requires count.Length == 16 && forall l | 0 <= l < 16 :: count[l] == Count(lens, l)
    ensures fresh(symbol) && symbol.Length == 288
    ensures forall i | 0 <= i < 288 :: symbol[i] < |lens|
    ensures Placed(lens, symbol[..], |lens|)
  {
    hide Placed, Slot, KraftSum, CountUpTo, Offset;
    var offs := Offsets(lens, count);
    symbol := new nat[288](_ => 0);
    NonePlaced(lens, symbol[..]);
    for i := 0 to |lens|
      invariant forall l | 1 <= l < 16 :: offs[l] == Offset(lens, l) + CountUpTo(lens, i, l)
      invariant forall k | 0 <= k < 288 :: symbol[k] < |lens|
      invariant Placed(lens, symbol[..], i)
    {
      var l := lens[i];
      PlacedStep(lens, symbol[..], i);
      CountStep(lens, i);
      if l != 0 {
        ghost var was := symbol[..];
        symbol[offs[l]] := i;
        offs[l] := offs[l] + 1;
        assert symbol[..] == was[Slot(lens, i) := i];
      }
    }
  }

  lemma NonePlaced(lens: seq<nat>, symbol: seq<nat>)
    ensures Placed(lens, symbol, 0)
    ensures forall l: nat :: CountUpTo(lens, 0, l) == 0
  {
  }

  lemma CountStep(lens: seq<nat>, i: nat)
    requires i < |lens|
    ensures forall l: nat :: CountUpTo(lens, i + 1, l) == CountUpTo(lens, i, l) + (if lens[i] == l then 1 else 0)
  {
  }

  lemma PlacedStep(lens: seq<nat>, symbol: seq<nat>, i: nat)
    requires i < |lens| <= |symbol| && Placed(lens, symbol, i)
    ensures lens[i] == 0 ==> Placed(lens, symbol, i + 1)
    ensures lens[i] > 0 ==>
              && Slot(lens, i) == Offset(lens, lens[i]) + CountUpTo(lens, i, lens[i]) < |symbol|
              && Placed(lens, symbol[Slot(lens, i) := i], i + 1)
  {
    if lens[i] > 0 {
      SlotInTable(lens, i);
      forall s | 0 <= s < i && lens[s] > 0 ensures Slot(lens, s) != Slot(lens, i) {
        SlotsDiffer(lens, s, i);
      }
    }
  }

  /** h is what `Build` makes of `lens`. */
  ghost predicate Table(h: Huff, lens: seq<nat>) {
    && 0 < |lens| <= 288
    && Counts(h, lens)
    && h.Shaped(|lens|)
    && (if Good(lens) then Sorted(h, lens) else forall i | 0 <= i < 288 :: h.symbol[i] == 0)
  }

  /** `code |= get(1)`: the code read so far, one bit longer. */
  method TakeCodeBit(b: Bits, acc: nat, ghost p: nat, ghost l: nat) returns (code: nat)
    requires b.Valid() && b.At() == p + l && acc == 2 * Msb(b.bits, p, l)
    modifies b
    ensures b.Valid() && b.err == (old(b.err) || p + l + 1 > |b.bits|)
    ensures !b.err ==> b.At() == p + l + 1 && code == Msb(b.bits, p, l + 1)
  {
    var v := b.Get(1);
    code := acc + v;
    if !b.err { NextBit(b.bits, p, l + 1, v); }
  }

  /** One symbol off the stream, or -1 when no code matches or the stream ends. */
  method Decode(b: Bits, h: Huff, ghost lens: seq<nat>) returns (sym: int)
    requires b.Valid() && Table(h, lens)
    modifies b
    ensures b.Valid()
    ensures old(b.err) || DecodeSym(lens, b.bits, old(b.At())).None? ==> sym == -1
    ensures !old(b.err) && DecodeSym(lens, b.bits, old(b.At())).Some? ==>
              && !b.err
              && sym == DecodeSym(lens, b.bits, old(b.At())).value.0
              && b.At() == old(b.At()) + DecodeSym(lens, b.bits, old(b.At())).value.1
  {
    hide DecodeSym, Lsb;
    ghost var p := b.At();
    var code: int, first: int, index: int := 0, 0, 0;
    for len := 1 to 16
      invariant b.Valid() && b.err == old(b.err) && (b.err ==> len == 1)
      invariant b.At() == p + len - 1 <= |b.bits|
      invariant first == FirstCode(lens, len) && index == Offset(lens, len)
      invariant code == 2 * Msb(b.bits, p, len - 1)
      invariant len > 1 ==> StaysOut(lens, b.bits, p, len - 1)
    {
      code := TakeCodeBit(b, code, p, len - 1);
      if b.err {
        if !old(b.err) { NoLevel(lens, b.bits, p, len - 1); }
        return -1;
      }
      var count: int := h.count[len];
      if code - count < first {
        Found(h, lens, b.bits, p, len, index + (code - first));
        return h.symbol[index + (code - first)];
      }
      index := index + count;
      first := 2 * (first + count);
      code := 2 * code;
    }
    NoLevel(lens, b.bits, p, 15);
    return -1;
  }

  lemma NextBit(b: seq<bit>, p: nat, l: nat, v: nat)
    requires l >= 1 && p + l <= |b| && v == Lsb(b, p + l - 1, 1)
    ensures Msb(b, p, l) == 2 * Msb(b, p, l - 1) + v
  {
  }

  /** Slot i of the table is the one of the code just read. */
  lemma Found(h: Huff, lens: seq<nat>, b: seq<bit>, p: nat, l: nat, i: int)
    requires Table(h, lens) && 1 <= l <= MAX_BITS && p + l <= |b|
    requires FirstCode(lens, l) <= Msb(b, p, l) && Accepts(lens, b, p, l)
    requires i == Offset(lens, l) + Msb(b, p, l) - FirstCode(lens, l)
    ensures 0 <= i < 288 && |h.symbol| == 288 && DecodeSym(lens, b, p) == Some((h.symbol[i], l))
  {
    hide Table, Counts, Msb, KraftSum, CountUpTo, FirstCode, Nth, Offset;
    HeldSymbol(h, lens, l, Msb(b, p, l) - FirstCode(lens, l));
    LevelReaches(lens, b, p, 1, l);
  }

  lemma HeldSymbol(h: Huff, lens: seq<nat>, l: nat, j: nat)
    requires Table(h, lens) && 1 <= l <= MAX_BITS && j < Count(lens, l)
    ensures Offset(lens, l) + j < 288 == |h.symbol|
    ensures h.symbol[Offset(lens, l) + j] == if Good(lens) then Nth(lens, |lens|, l, j) else 0
  {
    hide KraftSum;
    var s := Nth(lens, |lens|, l, j);
    SlotInTable(lens, s);
    assert Slot(lens, s) == Offset(lens, l) + j;
  }
}
