/**
 The Jenkins mix used by CRUSH, once per lane, and its two batched forms: the three-way
 interleaved scalar version and the double 128-bit vector version.

 Everything is stated over the word operations of a `Cpu`: the batched forms agree with
 the one-lane form for whatever these operations do, provided exclusive-or associates
 (the vector form groups it differently).  `NEON` is the 32-bit instance.
 */
module CrushHash {

  const SIMD_NUM: nat := 4

  datatype Cpu<!W> = Cpu(
    sub: (W, W) -> W, xor: (W, W) -> W, shr: (W, nat) -> W, shl: (W, nat) -> W,
    seed: W, x: W, y: W)

  ghost predicate XorAssociates<W(!new)>(cpu: Cpu<W>) {
    forall p: W, q: W, r: W :: cpu.xor(p, cpu.xor(q, r)) == cpu.xor(cpu.xor(p, q), r)
  }

  function ShiftRight(w: bv32, k: nat): bv32 { if k < 32 then w >> k else 0 }
  function ShiftLeft(w: bv32, k: nat): bv32 { if k < 32 then w << k else 0 }
  function Minus(v: bv32, w: bv32): bv32 { v - w }
  function ExclusiveOr(v: bv32, w: bv32): bv32 { v ^ w }

  /** 32-bit unsigned words, crush_hash_seed, and the two constants of the hash. */
  const NEON: Cpu<bv32> := Cpu(Minus, ExclusiveOr, ShiftRight, ShiftLeft, 1315423911, 231232, 1232)

  lemma NeonXorAssociates()
    ensures XorAssociates(NEON)
  {
    forall p: bv32, q: bv32, r: bv32
      ensures NEON.xor(p, NEON.xor(q, r)) == NEON.xor(NEON.xor(p, q), r)
    {
      assert p ^ (q ^ r) == (p ^ q) ^ r;
    }
  }

  // ---------------------------------------------------------------------------
  // One lane

  datatype Triple<W> = Triple(a: W, b: W, c: W)

  /** One third of crush_hashmix: each of a, b and c is updated once. */
  function Round<W>(cpu: Cpu<W>, t: Triple<W>, ka: nat, kb: nat, kc: nat): Triple<W> {
    var a := cpu.xor(cpu.sub(cpu.sub(t.a, t.b), t.c), cpu.shr(t.c, ka));
    var b := cpu.xor(cpu.sub(cpu.sub(t.b, t.c), a), cpu.shl(a, kb));
    var c := cpu.xor(cpu.sub(cpu.sub(t.c, a), b), cpu.shr(b, kc));
    Triple(a, b, c)
  }

  /** crush_hashmix. */
  function Mix<W>(cpu: Cpu<W>, t: Triple<W>): Triple<W> {
    Round(cpu, Round(cpu, Round(cpu, t, 13, 8, 13), 12, 16, 5), 3, 10, 15)
  }

  /** crush_hash32_rjenkins1_3: the hash of one (input, item, replica) triple. */
  function Hash3<W>(cpu: Cpu<W>, a: W, b: W, c: W): W {
    var m1 := Mix(cpu, Triple(a, b, cpu.xor(cpu.xor(cpu.xor(cpu.seed, a), b), c)));
    var m2 := Mix(cpu, Triple(c, cpu.x, m1.c));
    var m3 := Mix(cpu, Triple(cpu.y, m1.a, m2.c));
    var m4 := Mix(cpu, Triple(m1.b, m2.b, m3.c));
    var m5 := Mix(cpu, Triple(m3.a, m2.a, m4.c));
    m5.c
  }

  // ---------------------------------------------------------------------------
  // What the mix computes

  ghost predicate AddUndoesSub<W(!new)>(cpu: Cpu<W>, add: (W, W) -> W) {
    forall v: W, w: W :: add(cpu.sub(v, w), w) == v && cpu.sub(add(v, w), w) == v
  }

  ghost predicate XorUndoesItself<W(!new)>(cpu: Cpu<W>) {
    forall v: W, w: W :: cpu.xor(cpu.xor(v, w), w) == v
  }

  function Plus(v: bv32, w: bv32): bv32 { v + w }

  lemma WordsUndo(v: bv32, w: bv32)
    ensures Plus(v - w, w) == v && Minus(v + w, w) == v
  {
  }

  lemma NeonAddUndoesSub()
    ensures AddUndoesSub(NEON, Plus)
  {
    forall v: bv32, w: bv32 ensures Plus(NEON.sub(v, w), w) == v && NEON.sub(Plus(v, w), w) == v {
      WordsUndo(v, w);
    }
  }

  lemma NeonXorUndoesItself()
    ensures XorUndoesItself(NEON)
  {
    forall v: bv32, w: bv32 ensures NEON.xor(NEON.xor(v, w), w) == v {
      assert (v ^ w) ^ w == v;
    }
  }

  /** The nine updates of crush_hashmix taken back, the last one first. */
  function Unmix<W>(cpu: Cpu<W>, add: (W, W) -> W, t: Triple<W>): Triple<W> {
    var c3 := add(add(cpu.xor(t.c, cpu.shr(t.b, 15)), t.b), t.a);
    var b3 := add(add(cpu.xor(t.b, cpu.shl(t.a, 10)), t.a), c3);
    var a3 := add(add(cpu.xor(t.a, cpu.shr(c3, 3)), c3), b3);
    var c2 := add(add(cpu.xor(c3, cpu.shr(b3, 5)), b3), a3);
    var b2 := add(add(cpu.xor(b3, cpu.shl(a3, 16)), a3), c2);
    var a2 := add(add(cpu.xor(a3, cpu.shr(c2, 12)), c2), b2);
    var c1 := add(add(cpu.xor(c2, cpu.shr(b2, 13)), b2), a2);
    var b1 := add(add(cpu.xor(b2, cpu.shl(a2, 8)), a2), c1);
    var a1 := add(add(cpu.xor(a2, cpu.shr(c1, 13)), c1), b1);
    Triple(a1, b1, c1)
  }

  /** The mix is a permutation of the triples, and this is its inverse. */
  lemma MixIsInvertible<W(!new)>(cpu: Cpu<W>, add: (W, W) -> W, t: Triple<W>)
    requires AddUndoesSub(cpu, add) && XorUndoesItself(cpu)
    ensures Unmix(cpu, add, Mix(cpu, t)) == t
    ensures Mix(cpu, Unmix(cpu, add, t)) == t
  {
  }

  lemma NeonMixIsPermutation(t: Triple<bv32>)
    ensures Unmix(NEON, Plus, Mix(NEON, t)) == t
    ensures Mix(NEON, Unmix(NEON, Plus, t)) == t
  {
    NeonAddUndoesSub();
    NeonXorUndoesItself();
    MixIsInvertible(NEON, Plus, t);
  }

  /** Known answers: 32-bit arithmetic, the seed, and the two constants. */
  lemma KnownHashes()
    ensures Hash3(NEON, 0, 0, 0) == 0x7a3b_f3b2
    ensures Hash3(NEON, 1, 2, 3) == 0x735a_d42b
  {
  }

  // ---------------------------------------------------------------------------
  // Three interleaved lanes

  /** One third of crush_hashmix_x3: the statements of the three lanes alternate. */
  method RoundX3<W>(cpu: Cpu<W>, p: Triple<W>, q: Triple<W>, r: Triple<W>, ka: nat, kb: nat, kc: nat)
    returns (p': Triple<W>, q': Triple<W>, r': Triple<W>)
    ensures p' == Round(cpu, p, ka, kb, kc)
    ensures q' == Round(cpu, q, ka, kb, kc)
    ensures r' == Round(cpu, r, ka, kb, kc)
  {
    var a1, a2, a3 := p.a, q.a, r.a;
    var b1, b2, b3 := p.b, q.b, r.b;
    var c1, c2, c3 := p.c, q.c, r.c;
    a1 := cpu.sub(a1, b1); a2 := cpu.sub(a2, b2); a3 := cpu.sub(a3, b3);
    a1 := cpu.sub(a1, c1); a2 := cpu.sub(a2, c2); a3 := cpu.sub(a3, c3);
    a1 := cpu.xor(a1, cpu.shr(c1, ka)); a2 := cpu.xor(a2, cpu.shr(c2, ka)); a3 := cpu.xor(a3, cpu.shr(c3, ka));
    b1 := cpu.sub(b1, c1); b2 := cpu.sub(b2, c2); b3 := cpu.sub(b3, c3);
    b1 := cpu.sub(b1, a1); b2 := cpu.sub(b2, a2); b3 := cpu.sub(b3, a3);
    b1 := cpu.xor(b1, cpu.shl(a1, kb)); b2 := cpu.xor(b2, cpu.shl(a2, kb)); b3 := cpu.xor(b3, cpu.shl(a3, kb));
    c1 := cpu.sub(c1, a1); c2 := cpu.sub(c2, a2); c3 := cpu.sub(c3, a3);
    c1 := cpu.sub(c1, b1); c2 := cpu.sub(c2, b2); c3 := cpu.sub(c3, b3);
    c1 := cpu.xor(c1, cpu.shr(b1, kc)); c2 := cpu.xor(c2, cpu.shr(b2, kc)); c3 := cpu.xor(c3, cpu.shr(b3, kc));
    return Triple(a1, b1, c1), Triple(a2, b2, c2), Triple(a3, b3, c3);
  }

  method MixX3<W>(cpu: Cpu<W>, p: Triple<W>, q: Triple<W>, r: Triple<W>)
    returns (p': Triple<W>, q': Triple<W>, r': Triple<W>)
    ensures p' == Mix(cpu, p) && q' == Mix(cpu, q) && r' == Mix(cpu, r)
  {
    p', q', r' := RoundX3(cpu, p, q, r, 13, 8, 13);
    p', q', r' := RoundX3(cpu, p', q', r', 12, 16, 5);
    p', q', r' := RoundX3(cpu, p', q', r', 3, 10, 15);
  }

  /** crush_hash32_3x3: every lane is the one-lane hash of that lane's arguments. */
  method Hash3X3<W>(cpu: Cpu<W>, a: seq<W>, b: seq<W>, c: seq<W>) returns (h: seq<W>)
    requires 3 <= |a| && 3 <= |b| && 3 <= |c|
    ensures |h| == 3
    ensures forall i :: 0 <= i < 3 ==> h[i] == Hash3(cpu, a[i], b[i], c[i])
  {
    var h0 := cpu.xor(cpu.xor(cpu.xor(cpu.seed, a[0]), b[0]), c[0]);
    var h1 := cpu.xor(cpu.xor(cpu.xor(cpu.seed, a[1]), b[1]), c[1]);
    var h2 := cpu.xor(cpu.xor(cpu.xor(cpu.seed, a[2]), b[2]), c[2]);
    var p1, q1, r1 := MixX3(cpu, Triple(a[0], b[0], h0), Triple(a[1], b[1], h1), Triple(a[2], b[2], h2));
    var p2, q2, r2 := MixX3(cpu, Triple(c[0], cpu.x, p1.c), Triple(c[1], cpu.x, q1.c), Triple(c[2], cpu.x, r1.c));
    var p3, q3, r3 := MixX3(cpu, Triple(cpu.y, p1.a, p2.c), Triple(cpu.y, q1.a, q2.c), Triple(cpu.y, r1.a, r2.c));
    var p4, q4, r4 := MixX3(cpu, Triple(p1.b, p2.b, p3.c), Triple(q1.b, q2.b, q3.c), Triple(r1.b, r2.b, r3.c));
    var p5, q5, r5 := MixX3(cpu, Triple(p3.a, p2.a, p4.c), Triple(q3.a, q2.a, q4.c), Triple(r3.a, r2.a, r4.c));
    h := [p5.c, q5.c, r5.c];
  }

  // ---------------------------------------------------------------------------
  // Vectors of lanes

  /** One 128-bit register of four lanes. */
  datatype Vec<W> = Vec(l0: W, l1: W, l2: W, l3: W) {
    function Lane(i: nat): W
      requires i < SIMD_NUM
    {
      if i == 0 then l0 else if i == 1 then l1 else if i == 2 then l2 else l3
    }
  }

  function Zip<W>(f: (W, W) -> W, v: Vec<W>, w: Vec<W>): Vec<W> {
    Vec(f(v.l0, w.l0), f(v.l1, w.l1), f(v.l2, w.l2), f(v.l3, w.l3))
  }

  function Shift<W>(f: (W, nat) -> W, v: Vec<W>, k: nat): Vec<W> {
    Vec(f(v.l0, k), f(v.l1, k), f(v.l2, k), f(v.l3, k))
  }

  function Dup<W>(w: W): Vec<W> { Vec(w, w, w, w) }

  function Load<W>(s: seq<W>, from: nat): Vec<W>
    requires from + SIMD_NUM <= |s|
  {
    Vec(s[from], s[from + 1], s[from + 2], s[from + 3])
  }

  /** The register triple seen through one lane. */
  function LaneOf<W>(t: Triple<Vec<W>>, i: nat): Triple<W>
    requires i < SIMD_NUM
  {
    Triple(t.a.Lane(i), t.b.Lane(i), t.c.Lane(i))
  }

  /** One third of crush_hashmix_simdx2: the statements of the two register triples alternate. */
  method RoundSimdX2<W>(cpu: Cpu<W>, v: Triple<Vec<W>>, w: Triple<Vec<W>>, ka: nat, kb: nat, kc: nat)
    returns (v': Triple<Vec<W>>, w': Triple<Vec<W>>)
    ensures forall i :: 0 <= i < SIMD_NUM ==> LaneOf(v', i) == Round(cpu, LaneOf(v, i), ka, kb, kc)
    ensures forall i :: 0 <= i < SIMD_NUM ==> LaneOf(w', i) == Round(cpu, LaneOf(w, i), ka, kb, kc)
  {
    var a, b, c := v.a, v.b, v.c;
    var a1, b1, c1 := w.a, w.b, w.c;
    a := Zip(cpu.sub, a, b); a1 := Zip(cpu.sub, a1, b1); a := Zip(cpu.sub, a, c); a1 := Zip(cpu.sub, a1, c1);
    a := Zip(cpu.xor, a, Shift(cpu.shr, c, ka)); a1 := Zip(cpu.xor, a1, Shift(cpu.shr, c1, ka));
    b := Zip(cpu.sub, b, c); b1 := Zip(cpu.sub, b1, c1); b := Zip(cpu.sub, b, a); b1 := Zip(cpu.sub, b1, a1);
    b := Zip(cpu.xor, b, Shift(cpu.shl, a, kb)); b1 := Zip(cpu.xor, b1, Shift(cpu.shl, a1, kb));
    c := Zip(cpu.sub, c, a); c1 := Zip(cpu.sub, c1, a1); c := Zip(cpu.sub, c, b); c1 := Zip(cpu.sub, c1, b1);
    c := Zip(cpu.xor, c, Shift(cpu.shr, b, kc)); c1 := Zip(cpu.xor, c1, Shift(cpu.shr, b1, kc));
    v', w' := Triple(a, b, c), Triple(a1, b1, c1);
  }

  method MixSimdX2<W>(cpu: Cpu<W>, v: Triple<Vec<W>>, w: Triple<Vec<W>>)
    returns (v': Triple<Vec<W>>, w': Triple<Vec<W>>)
    ensures forall i :: 0 <= i < SIMD_NUM ==> LaneOf(v', i) == Mix(cpu, LaneOf(v, i))
    ensures forall i :: 0 <= i < SIMD_NUM ==> LaneOf(w', i) == Mix(cpu, LaneOf(w, i))
  {
    v', w' := RoundSimdX2(cpu, v, w, 13, 8, 13);
    v', w' := RoundSimdX2(cpu, v', w', 12, 16, 5);
    v', w' := RoundSimdX2(cpu, v', w', 3, 10, 15);
  }

  /** crush_hash32_3_simdx2: eight lanes, each the one-lane hash of that lane's arguments. */
  method Hash3SimdX2<W(!new)>(cpu: Cpu<W>, a: seq<W>, b: seq<W>, c: seq<W>) returns (h: seq<W>)
    requires XorAssociates(cpu)
    requires |a| == 2 * SIMD_NUM && |b| == 2 * SIMD_NUM && |c| == 2 * SIMD_NUM
    ensures |h| == 2 * SIMD_NUM
    ensures forall i :: 0 <= i < 2 * SIMD_NUM ==> h[i] == Hash3(cpu, a[i], b[i], c[i])
  {
    var a1, a2 := Load(a, 0), Load(a, SIMD_NUM);
    var b1, b2 := Load(b, 0), Load(b, SIMD_NUM);
    var c1, c2 := Load(c, 0), Load(c, SIMD_NUM);
    var hash1 := Zip(cpu.xor, Zip(cpu.xor, Dup(cpu.seed), a1), Zip(cpu.xor, b1, c1));
    var hash2 := Zip(cpu.xor, Zip(cpu.xor, Dup(cpu.seed), a2), Zip(cpu.xor, b2, c2));
    var v1, w1 := MixSimdX2(cpu, Triple(a1, b1, hash1), Triple(a2, b2, hash2));
    var v2, w2 := MixSimdX2(cpu, Triple(c1, Dup(cpu.x), v1.c), Triple(c2, Dup(cpu.x), w1.c));
    var v3, w3 := MixSimdX2(cpu, Triple(Dup(cpu.y), v1.a, v2.c), Triple(Dup(cpu.y), w1.a, w2.c));
    var v4, w4 := MixSimdX2(cpu, Triple(v1.b, v2.b, v3.c), Triple(w1.b, w2.b, w3.c));
    var v5, w5 := MixSimdX2(cpu, Triple(v3.a, v2.a, v4.c), Triple(w3.a, w2.a, w4.c));
    h := [v5.c.l0, v5.c.l1, v5.c.l2, v5.c.l3, w5.c.l0, w5.c.l1, w5.c.l2, w5.c.l3];
    LanesHash(cpu, a1, b1, c1, v1, v2, v3, v4, v5);
    LanesHash(cpu, a2, b2, c2, w1, w2, w3, w4, w5);
    assert forall i :: 0 <= i < 2 * SIMD_NUM ==> h[i] == if i < SIMD_NUM then v5.c.Lane(i) else w5.c.Lane(i - SIMD_NUM);
  }

  /** Five lane-wise mixes chained as in the hash give the hash in every lane. */
  lemma LanesHash<W(!new)>(cpu: Cpu<W>, a: Vec<W>, b: Vec<W>, c: Vec<W>,
                     m1: Triple<Vec<W>>, m2: Triple<Vec<W>>, m3: Triple<Vec<W>>, m4: Triple<Vec<W>>, m5: Triple<Vec<W>>)
    requires XorAssociates(cpu)
    requires var hash := Zip(cpu.xor, Zip(cpu.xor, Dup(cpu.seed), a), Zip(cpu.xor, b, c));
      forall i :: 0 <= i < SIMD_NUM ==> LaneOf(m1, i) == Mix(cpu, LaneOf(Triple(a, b, hash), i))
    requires forall i :: 0 <= i < SIMD_NUM ==> LaneOf(m2, i) == Mix(cpu, LaneOf(Triple(c, Dup(cpu.x), m1.c), i))
    requires forall i :: 0 <= i < SIMD_NUM ==> LaneOf(m3, i) == Mix(cpu, LaneOf(Triple(Dup(cpu.y), m1.a, m2.c), i))
    requires forall i :: 0 <= i < SIMD_NUM ==> LaneOf(m4, i) == Mix(cpu, LaneOf(Triple(m1.b, m2.b, m3.c), i))
    requires forall i :: 0 <= i < SIMD_NUM ==> LaneOf(m5, i) == Mix(cpu, LaneOf(Triple(m3.a, m2.a, m4.c), i))
    ensures forall i :: 0 <= i < SIMD_NUM ==> m5.c.Lane(i) == Hash3(cpu, a.Lane(i), b.Lane(i), c.Lane(i))
  {
    forall i | 0 <= i < SIMD_NUM ensures m5.c.Lane(i) == Hash3(cpu, a.Lane(i), b.Lane(i), c.Lane(i)) {
      var l1, l2, l3, l4, l5 := LaneOf(m1, i), LaneOf(m2, i), LaneOf(m3, i), LaneOf(m4, i), LaneOf(m5, i);
      assert l1 == Mix(cpu, Triple(a.Lane(i), b.Lane(i),
        cpu.xor(cpu.xor(cpu.xor(cpu.seed, a.Lane(i)), b.Lane(i)), c.Lane(i))));
      assert l2 == Mix(cpu, Triple(c.Lane(i), cpu.x, l1.c));
      assert l3 == Mix(cpu, Triple(cpu.y, l1.a, l2.c));
      assert l4 == Mix(cpu, Triple(l1.b, l2.b, l3.c));
      assert l5 == Mix(cpu, Triple(l3.a, l2.a, l4.c));
    }
  }
}
