/**
 bucket_straw2_choose: the batched form (eight lanes at a time, a tail buffer with unused
 lanes, a logarithm table) against the scalar loop it replaces, and what the choice
 promises when a weight changes.
 */
module Straw2 {
  import opened CrushHash

  const S64_MIN: int := -0x8000_0000_0000_0000
  const LN_LEN: nat := 65536
  const LN_MIN: int := -0x1_0000_0000_0000
  const LANES: nat := 2 * SIMD_NUM
  const U32_LIMIT: nat := 0x1_0000_0000

  /** `weights` are the __u32 weights in use for the current position. */
  datatype Bucket<W> = Bucket(items: seq<int>, ids: seq<W>, weights: seq<int>) {
    predicate Valid() {
      && 1 <= |items| && |ids| == |items| && |weights| == |items|
      && forall i :: 0 <= i < |weights| ==> 0 <= weights[i] < U32_LIMIT
    }
  }

  /** The word operations, the crush_ln table, and what the C code leaves open: the contents
      of uninitialised lanes and the quotient the machine delivers for a zero divisor.
      `slot` names the table entry of one (input, item, replica). */
  datatype Machine<!W> = Machine(
    cpu: Cpu<W>, low16: W -> nat, slot: (W, W, W) -> nat, ln: seq<int>, byZero: int -> int,
    junkIds: seq<W>, junkWeights: seq<int>, junkDraws: seq<int>)

  ghost predicate Valid<W(!new)>(m: Machine<W>) {
    && XorAssociates(m.cpu)
    && (forall a: W, b: W, c: W {:trigger Hash3(m.cpu, a, b, c)} :: m.slot(a, b, c) == m.low16(Hash3(m.cpu, a, b, c)))
    && (forall a: W, b: W, c: W :: m.slot(a, b, c) < LN_LEN)
    && |m.ln| == LN_LEN && |m.junkIds| == LANES && |m.junkWeights| == LANES && |m.junkDraws| == LANES
    && forall i :: 0 <= i < LN_LEN ==> LN_MIN <= m.ln[i] <= 0
  }

  function Abs(n: int): nat { if n < 0 then -n else n }

  /** div64_s64: division truncating towards zero. */
  function Div64<W(!new)>(m: Machine<W>, n: int, d: int): int {
    if d == 0 then m.byZero(n)
    else if (n < 0) == (d < 0) then Abs(n) / Abs(d)
    else -(Abs(n) / Abs(d))
  }

  /** A lane takes its __u32 weight as an `int`: from 2^31 on it is negative. */
  function Signed(weight: int): int {
    if weight < 0x8000_0000 then weight else weight - U32_LIMIT
  }

  /** The draw of one lane, whatever its weight. */
  ghost function LaneDraw<W(!new)>(m: Machine<W>, x: W, id: W, r: W, weight: int): int
    requires Valid(m)
  {
    Div64(m, m.ln[m.slot(x, id, r)], Signed(weight))
  }

  /** The draw straw2 is about: weight 0 never wins against a positive weight. */
  ghost function Draw<W(!new)>(m: Machine<W>, x: W, id: W, r: W, weight: int): int
    requires Valid(m)
  {
    if weight == 0 then S64_MIN else LaneDraw(m, x, id, r, weight)
  }

  ghost function Draws<W(!new)>(m: Machine<W>, b: Bucket<W>, x: W, r: W): (d: seq<int>)
    requires Valid(m) && b.Valid()
    ensures |d| == |b.items|
  {
    seq(|b.items|, i requires 0 <= i < |b.items| => Draw(m, x, b.ids[i], r, b.weights[i]))
  }

  /** `h` is the smallest index of the greatest draw. */
  predicate IsFirstMax(draws: seq<int>, h: nat) {
    && h < |draws|
    && (forall k :: 0 <= k < |draws| ==> draws[k] <= draws[h])
    && (forall k :: 0 <= k < h ==> draws[k] < draws[h])
  }

  lemma FirstMaxIsUnique(draws: seq<int>, h: nat, g: nat)
    requires IsFirstMax(draws, h) && IsFirstMax(draws, g)
    ensures h == g
  {
    assert draws[h] == draws[g];
  }

  // ---------------------------------------------------------------------------
  // The batched form

  /** The eight table slots of one batch. */
  method SlotsSimdX2<W(!new)>(m: Machine<W>, x: seq<W>, ids: seq<W>, r: seq<W>) returns (slots: seq<nat>)
    requires Valid(m) && |x| == |ids| == |r| == LANES
    ensures |slots| == LANES && forall j :: 0 <= j < LANES ==> slots[j] == m.slot(x[j], ids[j], r[j])
  {
    var u := Hash3SimdX2(m.cpu, x, ids, r);
    slots := seq(LANES, j requires 0 <= j < LANES => m.low16(u[j]));
  }

  /** The three table slots of a small bucket. */
  method SlotsX3<W(!new)>(m: Machine<W>, x: seq<W>, ids: seq<W>, r: seq<W>) returns (slots: seq<nat>)
    requires Valid(m) && |x| == |ids| == |r| == LANES
    ensures |slots| == 3 && forall j :: 0 <= j < 3 ==> slots[j] == m.slot(x[j], ids[j], r[j])
  {
    var u := Hash3X3(m.cpu, x, ids, r);
    slots := seq(3, j requires 0 <= j < 3 => m.low16(u[j]));
  }

  /** generate_exponential_distribution_simdx2 */
  method DrawSimdX2<W(!new)>(m: Machine<W>, x: seq<W>, ids: seq<W>, r: seq<W>, weights: seq<int>, draw: array<int>)
    requires Valid(m) && |x| == |ids| == |r| == |weights| == LANES && draw.Length == LANES
    modifies draw
    ensures forall j :: 0 <= j < LANES ==> draw[j] == LaneDraw(m, x[j], ids[j], r[j], weights[j])
  {
    var u := SlotsSimdX2(m, x, ids, r);
    for i := 0 to LANES
      invariant forall j :: 0 <= j < i ==> draw[j] == LaneDraw(m, x[j], ids[j], r[j], weights[j])
    {
      draw[i] := Div64(m, m.ln[u[i]], Signed(weights[i]));
    }
  }

  /** generate_exponential_distribution_x3: writes the first three lanes only. */
  method DrawX3<W(!new)>(m: Machine<W>, x: seq<W>, ids: seq<W>, r: seq<W>, weights: seq<int>, draw: array<int>)
    requires Valid(m) && |x| == |ids| == |r| == |weights| == LANES && draw.Length == LANES
    modifies draw
    ensures forall j :: 0 <= j < 3 ==> draw[j] == LaneDraw(m, x[j], ids[j], r[j], weights[j])
  {
    var u := SlotsX3(m, x, ids, r);
    draw[0] := Div64(m, m.ln[u[0]], Signed(weights[0]));
    draw[1] := Div64(m, m.ln[u[1]], Signed(weights[1]));
    draw[2] := Div64(m, m.ln[u[2]], Signed(weights[2]));
  }

  /** The best index so far, with its draw, after the first n items. */
  predicate Best(draws: seq<int>, n: nat, high: nat, highDraw: int) {
    n <= |draws| && (n > 0 ==> IsFirstMax(draws[..n], high) && highDraw == draws[high])
  }

  /** STRAW2_DRAW_UPDATE for item n, given its lane's value. */
  method Update(ghost draws: seq<int>, n: nat, weight: int, lane: int, high: nat, highDraw: int)
    returns (high': nat, highDraw': int)
    requires n < |draws| && Best(draws, n, high, highDraw)
    requires draws[n] == if weight != 0 then lane else S64_MIN
    ensures Best(draws, n + 1, high', highDraw')
  {
    var draw := if weight != 0 then lane else S64_MIN;
    high', highDraw' := high, highDraw;
    if n == 0 || draw > highDraw {
      high', highDraw' := n, draw;
    }
    var old_ := draws[..n];
    var new_ := draws[..n + 1];
    assert new_ == old_ + [draws[n]];
  }

  /** The loop that folds `count` computed lanes into the running maximum. */
  method UpdateLanes<W(!new)>(m: Machine<W>, b: Bucket<W>, x: W, r: W, base: nat, count: nat, draw: array<int>,
      high: nat, highDraw: int)
    returns (high': nat, highDraw': int)
    requires Valid(m) && b.Valid() && draw.Length == LANES && count <= LANES && base + count <= |b.items|
    requires forall j :: 0 <= j < count ==> draw[j] == LaneDraw(m, x, b.ids[base + j], r, b.weights[base + j])
    requires Best(Draws(m, b, x, r), base, high, highDraw)
    ensures Best(Draws(m, b, x, r), base + count, high', highDraw')
  {
    high', highDraw' := high, highDraw;
    for j := 0 to count
      invariant Best(Draws(m, b, x, r), base + j, high', highDraw')
    {
      high', highDraw' := Update(Draws(m, b, x, r), base + j, b.weights[base + j], draw[j], high', highDraw');
    }
  }

  /** The last incomplete batch, copied into lanes that are otherwise left as they are. */
  method CopyTail<W(!new)>(m: Machine<W>, b: Bucket<W>, i: nat) returns (ids: seq<W>, weights: seq<int>)
    requires Valid(m) && b.Valid() && i <= |b.items| < i + LANES
    ensures |ids| == |weights| == LANES
    ensures forall k :: 0 <= k < |b.items| - i ==> ids[k] == b.ids[i + k] && weights[k] == b.weights[i + k]
  {
    var size := |b.items|;
    var idsimd := new W[LANES](j requires 0 <= j < LANES => m.junkIds[j]);
    var wtsimd := new int[LANES](j requires 0 <= j < LANES => m.junkWeights[j]);
    for j := 0 to size - i
      invariant forall k :: 0 <= k < j ==> idsimd[k] == b.ids[i + k] && wtsimd[k] == b.weights[i + k]
    {
      idsimd[j] := b.ids[i + j];
      wtsimd[j] := b.weights[i + j];
    }
    ids, weights := idsimd[..], wtsimd[..];
  }

  /** Draws of the tail: eight lanes, or three for a bucket of fewer than four items. */
  method DrawTail<W(!new)>(m: Machine<W>, b: Bucket<W>, x: W, r: W, i: nat, draw: array<int>)
    requires Valid(m) && b.Valid() && draw.Length == LANES
    requires i <= |b.items| < i + LANES && (i > 0 ==> |b.items| >= LANES)
    modifies draw
    ensures forall j :: 0 <= j < |b.items| - i ==> draw[j] == LaneDraw(m, x, b.ids[i + j], r, b.weights[i + j])
  {
    var ids, weights := CopyTail(m, b, i);
    var xs, rs := seq(LANES, _ => x), seq(LANES, _ => r);
    if |b.items| >= SIMD_NUM {
      DrawSimdX2(m, xs, ids, rs, weights, draw);
    } else {
      DrawX3(m, xs, ids, rs, weights, draw);
    }
  }

  /** One whole batch: eight draws, folded into the running maximum. */
  method Batch<W(!new)>(m: Machine<W>, b: Bucket<W>, x: W, r: W, i: nat, draw: array<int>, high: nat, highDraw: int)
    returns (high': nat, highDraw': int)
    requires Valid(m) && b.Valid() && draw.Length == LANES && i + LANES <= |b.items|
    requires Best(Draws(m, b, x, r), i, high, highDraw)
    modifies draw
    ensures Best(Draws(m, b, x, r), i + LANES, high', highDraw')
  {
    DrawSimdX2(m, seq(LANES, _ => x), b.ids[i..i + LANES], seq(LANES, _ => r), b.weights[i..i + LANES], draw);
    high', highDraw' := UpdateLanes(m, b, x, r, i, LANES, draw, high, highDraw);
  }

  /** The last, incomplete batch. */
  method Tail<W(!new)>(m: Machine<W>, b: Bucket<W>, x: W, r: W, i: nat, draw: array<int>, high: nat, highDraw: int)
    returns (high': nat)
    requires Valid(m) && b.Valid() && draw.Length == LANES
    requires i <= |b.items| < i + LANES && (i > 0 ==> |b.items| >= LANES)
    requires Best(Draws(m, b, x, r), i, high, highDraw)
    modifies draw
    ensures IsFirstMax(Draws(m, b, x, r), high')
  {
    DrawTail(m, b, x, r, i, draw);
    var highDraw';
    high', highDraw' := UpdateLanes(m, b, x, r, i, |b.items| - i, draw, high, highDraw);
    assert Draws(m, b, x, r)[..|b.items|] == Draws(m, b, x, r);
  }

  /** Main result.  For every bucket size of at least one, all 32-bit weights and every machine,
      the batched choice is the item at the smallest index with the greatest draw. */
  method Choose<W(!new)>(m: Machine<W>, b: Bucket<W>, x: W, r: W) returns (item: int, high: nat)
    requires Valid(m) && b.Valid()
    ensures IsFirstMax(Draws(m, b, x, r), high) && item == b.items[high]
  {
    var size := |b.items|;
    var draw := new int[LANES](j requires 0 <= j < LANES => m.junkDraws[j]);
    var highDraw := 0;
    high := 0;
    var i := 0;
    if size >= LANES {
      while i <= size - LANES
        invariant i <= size
        invariant Best(Draws(m, b, x, r), i, high, highDraw)
      {
        high, highDraw := Batch(m, b, x, r, i, draw, high, highDraw);
        i := i + LANES;
      }
    }
    high := Tail(m, b, x, r, i, draw, high, highDraw);
    item := b.items[high];
  }

  /** The reference form: STRAW2_DRAW_UPDATE over the items one by one, without lanes. */
  method ChooseScalar<W(!new)>(m: Machine<W>, b: Bucket<W>, x: W, r: W) returns (item: int, high: nat)
    requires Valid(m) && b.Valid()
    ensures IsFirstMax(Draws(m, b, x, r), high) && item == b.items[high]
  {
    high := 0;
    var highDraw := 0;
    for i := 0 to |b.items|
      invariant Best(Draws(m, b, x, r), i, high, highDraw)
    {
      var lane := Div64(m, m.ln[m.low16(Hash3(m.cpu, x, b.ids[i], r))], Signed(b.weights[i]));
      high, highDraw := Update(Draws(m, b, x, r), i, b.weights[i], lane, high, highDraw);
    }
    assert Draws(m, b, x, r)[..|b.items|] == Draws(m, b, x, r);
    item := b.items[high];
  }

  /** The draws, and so the choice, do not depend on what the machine leaves open. */
  lemma ChoiceIgnoresJunk<W(!new)>(m: Machine<W>, n: Machine<W>, b: Bucket<W>, x: W, r: W, h: nat, g: nat)
    requires Valid(m) && Valid(n) && b.Valid() && m.ln == n.ln && m.slot == n.slot
    requires IsFirstMax(Draws(m, b, x, r), h) && IsFirstMax(Draws(n, b, x, r), g)
    ensures h == g
  {
    assert Draws(m, b, x, r) == Draws(n, b, x, r);
    FirstMaxIsUnique(Draws(m, b, x, r), h, g);
  }

  // ---------------------------------------------------------------------------
  // What the choice promises

  lemma QuotientShrinks(n: nat, d: nat, e: nat)
    requires 0 < d <= e
    ensures 0 <= n / e <= n / d
  {
    var q, p := n / e, n / d;
    assert n == q * e + n % e && n == p * d + n % d;
    if q > p {
      MulMonotone(p + 1, q, d);
      MulMonotone(d, e, q);
      assert false;
    }
  }

  lemma MulMonotone(a: nat, b: nat, c: nat)
    requires a <= b
    ensures a * c <= b * c && c * a <= c * b
  {
  }

  lemma DrawValue<W(!new)>(m: Machine<W>, x: W, id: W, r: W, w: int)
    requires Valid(m) && 0 <= w < U32_LIMIT
    ensures 0 <= -m.ln[m.slot(x, id, r)] <= -LN_MIN
    ensures 0 < w < 0x8000_0000 ==>
      Draw(m, x, id, r, w) == -(-m.ln[m.slot(x, id, r)] / w) && LN_MIN <= Draw(m, x, id, r, w) <= 0
    ensures 0x8000_0000 <= w ==>
      Draw(m, x, id, r, w) == -m.ln[m.slot(x, id, r)] / (0x1_0000_0000 - w) && 0 <= Draw(m, x, id, r, w)
  {
    var n := -m.ln[m.slot(x, id, r)];
    if 0 < w < 0x8000_0000 {
      QuotientShrinks(n, 1, w);
    } else if 0x8000_0000 <= w {
      QuotientShrinks(n, 1, U32_LIMIT - w);
    }
  }

  /** A draw of positive weight lies above S64_MIN, and grows with the weight over all 32 bits:
      it rises from below zero towards zero up to 2^31, is not negative there, and rises on. */
  lemma DrawGrowsWithWeight<W(!new)>(m: Machine<W>, x: W, id: W, r: W, w: int, v: int)
    requires Valid(m) && 0 <= w <= v < U32_LIMIT
    ensures S64_MIN <= Draw(m, x, id, r, w) <= Draw(m, x, id, r, v)
    ensures 0 < v ==> S64_MIN < LN_MIN <= Draw(m, x, id, r, v)
    ensures v < 0x8000_0000 ==> Draw(m, x, id, r, v) <= 0
  {
    var n := -m.ln[m.slot(x, id, r)];
    DrawValue(m, x, id, r, v);
    if 0 < w {
      DrawValue(m, x, id, r, w);
    }
    if 0 < w <= v < 0x8000_0000 {
      QuotientShrinks(n, w, v);
    } else if 0x8000_0000 <= w {
      QuotientShrinks(n, U32_LIMIT - v, U32_LIMIT - w);
    }
  }

  /** Raising one draw moves the first maximum to that index or not at all. */
  lemma FirstMaxMovesOnlyToRaised(d: seq<int>, e: seq<int>, j: nat, h: nat, g: nat)
    requires |d| == |e| && j < |d| && d[j] <= e[j]
    requires forall k :: 0 <= k < |d| && k != j ==> d[k] == e[k]
    requires IsFirstMax(d, h) && IsFirstMax(e, g)
    ensures g == h || g == j
  {
    assert e[h] <= e[g] && d[g] <= d[h];
  }

  /** Minimal movement.  Raising the weight of item j leaves the choice where it was or
      moves it to j; read backwards, lowering a weight moves the choice only away from j. */
  lemma RaisingOneWeightMovesOnlyToIt<W(!new)>(m: Machine<W>, b: Bucket<W>, j: nat, weight: int, x: W, r: W,
      h: nat, g: nat)
    requires Valid(m) && b.Valid() && j < |b.items| && b.weights[j] <= weight < U32_LIMIT
    requires IsFirstMax(Draws(m, b, x, r), h)
    requires IsFirstMax(Draws(m, b.(weights := b.weights[j := weight]), x, r), g)
    ensures g == h || g == j
    ensures h == j ==> g == j
  {
    var c := b.(weights := b.weights[j := weight]);
    var d, e := Draws(m, b, x, r), Draws(m, c, x, r);
    DrawGrowsWithWeight(m, x, b.ids[j], r, b.weights[j], weight);
    FirstMaxMovesOnlyToRaised(d, e, j, h, g);
    if h == j {
      assert forall k :: 0 <= k < j ==> e[k] < e[j];
      assert IsFirstMax(e, j);
      FirstMaxIsUnique(e, j, g);
    }
  }

  /** An item of weight 0 is chosen only when every weight is 0, and then it is the first. */
  lemma ZeroWeightChosenOnlyWhenAllZero<W(!new)>(m: Machine<W>, b: Bucket<W>, x: W, r: W, h: nat)
    requires Valid(m) && b.Valid() && IsFirstMax(Draws(m, b, x, r), h)
    ensures b.weights[h] == 0 <==> forall k :: 0 <= k < |b.items| ==> b.weights[k] == 0
    ensures b.weights[h] == 0 ==> h == 0
  {
    var d := Draws(m, b, x, r);
    if b.weights[h] == 0 {
      forall k | 0 <= k < |b.items| ensures b.weights[k] == 0 {
        DrawGrowsWithWeight(m, x, b.ids[k], r, 0, b.weights[k]);
        assert d[k] <= d[h];
      }
      if h != 0 { assert d[0] < d[h]; }
    }
  }

  // ---------------------------------------------------------------------------
  // The machine of the source

  /** crush_init_lntable: the scaled logarithm of every 16-bit input, shifted below zero. */
  method InitLnTable(crushLn: nat -> int) returns (table: seq<int>)
    requires forall i :: 0 <= i < LN_LEN ==> 0 <= crushLn(i) <= -LN_MIN
    ensures |table| == LN_LEN
    ensures forall i :: 0 <= i < LN_LEN ==> table[i] == crushLn(i) - 0x1_0000_0000_0000 && LN_MIN <= table[i] <= 0
  {
    table := [];
    for i := 0 to LN_LEN
      invariant |table| == i
      invariant forall j :: 0 <= j < i ==> table[j] == crushLn(j) + LN_MIN
    {
      table := table + [crushLn(i) + LN_MIN];
    }
  }

  function Low16(h: bv32): nat { (h as int) % 0x10000 }

  /** `u & 0xffff`: the lower half of the word. */
  lemma Low16IsLowerHalf(h: bv32, high: nat, low: nat)
    requires low < 0x10000 && h as int == high * 0x10000 + low
    ensures Low16(h) == low
  {
    assert (high * 0x10000 + low) % 0x10000 == low;
  }

  function MakeMachine<W>(cpu: Cpu<W>, low16: W -> nat, ln: seq<int>, byZero: int -> int,
                          junkIds: seq<W>, junkWeights: seq<int>, junkDraws: seq<int>): Machine<W>
  {
    Machine(cpu, low16, (a, b, c) => low16(Hash3(cpu, a, b, c)), ln, byZero, junkIds, junkWeights, junkDraws)
  }

  /** Any table in range and any junk make a valid machine; `NEON` and `Low16` are the source's. */
  lemma MachineIsValid<W(!new)>(cpu: Cpu<W>, low16: W -> nat, ln: seq<int>, byZero: int -> int,
                                junkIds: seq<W>, junkWeights: seq<int>, junkDraws: seq<int>)
    requires XorAssociates(cpu) && forall w: W :: low16(w) < LN_LEN
    requires |ln| == LN_LEN && |junkIds| == LANES && |junkWeights| == LANES && |junkDraws| == LANES
    requires forall i :: 0 <= i < LN_LEN ==> LN_MIN <= ln[i] <= 0
    ensures Valid(MakeMachine(cpu, low16, ln, byZero, junkIds, junkWeights, junkDraws))
  {
  }

  lemma NeonFits()
    ensures XorAssociates(NEON) && forall w: bv32 :: Low16(w) < LN_LEN
  {
    NeonXorAssociates();
  }
}
