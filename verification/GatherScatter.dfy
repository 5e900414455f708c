/**
 Gathering a chain of buffer lists into one write, and scattering the result of a read back
 over such a chain.
 */
module GatherScatter {
  import opened Memory
  import opened Sequences
  import opened BufferChain

  // ---------------------------------------------------------------------------
  // Gather

  /** What the loop reads: n bytes appended to `bl` entry by entry, unless it gets stuck at the
      end of the chain or at an entry whose buffer is too small. */
  datatype Reading = Stuck | Got(bytes: seq<Byte>)

  function Collected(mem: Mem, es: seq<Entry>, page: bool, n: nat, bl: seq<Byte>): Reading
    decreases |es|
  {
    if n == 0 then Got(bl)
    else if es == [] then Stuck
    else
      var size := Min(Cap(es[0], page), n);
      if Holds(mem, es[0], size) then Collected(mem, es[1..], page, n - size, bl + Read(mem, es[0], size)) else Stuck
  }

  lemma {:induction false} CollectedIsPrefix(mem: Mem, es: seq<Entry>, page: bool, n: nat, bl: seq<Byte>)
    requires CanHold(mem, es, page, n)
    ensures n <= |Flat(mem, es, page)|
    ensures Collected(mem, es, page, n, bl) == Got(bl + Flat(mem, es, page)[..n])
    decreases |es|
  {
    FlatSize(mem, es, page);
    if n == 0 {
      assert bl + [] == bl;
    } else {
      var size := Min(Cap(es[0], page), n);
      FlatCons(mem, es, page);
      FlatSize(mem, es[1..], page);
      CollectedIsPrefix(mem, es[1..], page, n - size, bl + Read(mem, es[0], size));
      PrefixOfCons(bl, Read(mem, es[0], Cap(es[0], page)), Read(mem, es[0], size), Flat(mem, es[1..], page), n);
    }
  }

  lemma PrefixOfCons(bl: seq<Byte>, first: seq<Byte>, begun: seq<Byte>, tail: seq<Byte>, n: nat)
    requires n <= |first| + |tail| && begun == first[..Min(|first|, n)]
    ensures (bl + begun) + tail[..n - |begun|] == bl + (first + tail)[..n]
  {
    assert (first + tail)[..n] == begun + tail[..n - |begun|];
  }

  /** The step both loops make from one entry to the next. */
  method Advance(chain: Chain, mode: Mode, node: nat, cur: nat, ghost rest: seq<Entry>) returns (node': nat, cur': nat)
    requires WellFormed(chain) && mode != Used && rest == From(chain, mode, node, cur) && rest != []
    ensures node < |chain| && cur < SLOTS && chain[node].Valid() && rest[0] == chain[node].slots[cur]
    ensures From(chain, mode, node', cur') == rest[1..]
  {
    FromNext(chain, mode, node, cur, rest);
    node', cur' := node, cur + 1;
    if cur' >= (if mode == All then 64 else chain[node].count) {
      node', cur' := node + 1, 0;
    }
  }

  /** The loop of RadosWriteOpWriteBl, behind the padding `prev`. */
  method AppendEntries(mem: Mem, chain: Chain, len: nat, page: bool, prev: seq<Byte>) returns (bl: seq<Byte>)
    requires WellFormed(chain) && Collected(mem, Visited(chain, Gathering), page, len, prev).Got?
    ensures Collected(mem, Visited(chain, Gathering), page, len, prev) == Got(bl)
  {
    bl := prev;
    var leftLen: nat := len;
    var node: nat, cur: nat := 0, 0;
    ghost var rest, final := Visited(chain, Gathering), Collected(mem, Visited(chain, Gathering), page, len, prev);
    FromStart(chain, Gathering);
    while leftLen > 0
      invariant rest == From(chain, Gathering, node, cur) && Collected(mem, rest, page, leftLen, bl) == final
      decreases |rest|
    {
      var node', cur' := Advance(chain, Gathering, node, cur, rest);
      var e := chain[node].slots[cur];
      var size: nat;
      if page {
        size := Min(4096, leftLen);
      } else {
        size := Min(e.len, leftLen);
      }
      bl := bl + Read(mem, e, size);
      leftLen := leftLen - size;
      node, cur, rest := node', cur', rest[1..];
    }
  }

  /** RadosWriteOpWriteBl: the padding before, the first `len` bytes of the chain, and the
      padding behind; either padding may be empty.  Of an empty node it takes the first slot. */
  method Gather(mem: Mem, chain: Chain, len: nat, page: bool, prev: seq<Byte>, back: seq<Byte>) returns (bl: seq<Byte>)
    requires WellFormed(chain) && CanHold(mem, Visited(chain, Gathering), page, len)
    ensures len <= |Flat(mem, Visited(chain, Gathering), page)|
    ensures bl == prev + Flat(mem, Visited(chain, Gathering), page)[..len] + back
  {
    CollectedIsPrefix(mem, Visited(chain, Gathering), page, len, prev);
    bl := AppendEntries(mem, chain, len, page, prev);
    bl := bl + back;
  }

  // ---------------------------------------------------------------------------
  // Which slots a result passes through

  /** What the copy loop makes of memory: it fills slot after slot, and crashes at the end of
      the chain or at a slot whose buffer is too small. */
  datatype Outcome = Crash | Done(mem: Mem)

  function Scattered(mem: Mem, slots: seq<Entry>, page: bool, data: seq<Byte>): Outcome
    decreases |slots|
  {
    if data == [] then Done(mem)
    else if slots == [] then Crash
    else
      var size := Min(Cap(slots[0], page), |data|);
      if Holds(mem, slots[0], size) then Scattered(Stored(mem, slots[0], data[..size]), slots[1..], page, data[size..])
      else Crash
  }

  lemma ScatteredReaches(mem: Mem, slots: seq<Entry>, page: bool, data: seq<Byte>)
    requires data != [] && Scattered(mem, slots, page, data).Done?
    ensures slots != []
  {
  }

  lemma ScatteredNext(mem: Mem, slots: seq<Entry>, page: bool, results: seq<Byte>, offset: nat)
    requires offset < |results| && Scattered(mem, slots, page, results[offset..]).Done?
    ensures slots != []
    ensures var size := Min(Cap(slots[0], page), |results| - offset);
      && Holds(mem, slots[0], size)
      && Scattered(mem, slots, page, results[offset..]) ==
         Scattered(Stored(mem, slots[0], results[offset..offset + size]), slots[1..], page, results[offset + size..])
  {
    var size := Min(Cap(slots[0], page), |results| - offset);
    assert results[offset..][..size] == results[offset..offset + size];
    assert results[offset..][size..] == results[offset + size..];
  }

  predicate SpareEmpty(node: Node, page: bool)
    requires node.Valid()
  {
    forall k :: node.count <= k < SLOTS ==> Cap(node.slots[k], page) == 0
  }

  /** Whenever the result goes on past the used entries of a node, the node's other slots take
      no bytes. */
  predicate Passable(chain: Chain, page: bool, n: nat)
    requires WellFormed(chain)
  {
    chain == [] ||
    var node := chain[0];
    n <= Size(node.slots[..node.count], page) ||
    (SpareEmpty(node, page) && Passable(chain[1..], page, n - Size(node.slots[..node.count], page)))
  }

  /** The entries `used` are, up to where n bytes end, the slots without some that take none. */
  predicate Thread(slots: seq<Entry>, used: seq<Entry>, page: bool, n: nat)
    decreases |slots|
  {
    n == 0 || Takes(slots, used, page, n) ||
    (slots != [] && Cap(slots[0], page) == 0 && Thread(slots[1..], used, page, n))
  }

  predicate Takes(slots: seq<Entry>, used: seq<Entry>, page: bool, n: nat)
    decreases |slots|, 0
  {
    && slots != [] && used != [] && slots[0] == used[0]
    && Thread(slots[1..], used[1..], page, n - Min(Cap(slots[0], page), n))
  }

  /** Bytes that end within common first entries. */
  lemma {:induction false} ThreadFits(p: seq<Entry>, a: seq<Entry>, b: seq<Entry>, page: bool, n: nat)
    requires n <= Size(p, page)
    ensures Thread(p + a, p + b, page, n)
  {
    if n > 0 {
      assert (p + a)[1..] == p[1..] + a && (p + b)[1..] == p[1..] + b;
      ThreadFits(p[1..], a, b, page, n - Min(Cap(p[0], page), n));
      assert Takes(p + a, p + b, page, n);
    }
  }

  /** Bytes that go on behind them. */
  lemma {:induction false} ThreadGoesOn(p: seq<Entry>, a: seq<Entry>, b: seq<Entry>, page: bool, n: nat)
    requires Size(p, page) <= n && Thread(a, b, page, n - Size(p, page))
    ensures Thread(p + a, p + b, page, n)
  {
    if p == [] {
      assert p + a == a && p + b == b;
    } else {
      assert (p + a)[1..] == p[1..] + a && (p + b)[1..] == p[1..] + b;
      ThreadGoesOn(p[1..], a, b, page, n - Cap(p[0], page));
      assert Takes(p + a, p + b, page, n);
    }
  }

  lemma {:induction false} ThreadSkips(p: seq<Entry>, a: seq<Entry>, b: seq<Entry>, page: bool, n: nat)
    requires Thread(a, b, page, n) && forall k :: 0 <= k < |p| ==> Cap(p[k], page) == 0
    ensures Thread(p + a, b, page, n)
  {
    if p == [] {
      assert p + a == a;
    } else {
      assert (p + a)[1..] == p[1..] + a;
      ThreadSkips(p[1..], a, b, page, n);
    }
  }

  lemma SpareSize(es: seq<Entry>, page: bool)
    requires forall k :: 0 <= k < |es| ==> Cap(es[k], page) == 0
    ensures Size(es, page) == 0
  {
    if es != [] {
      SpareSize(es[1..], page);
    }
  }

  lemma {:induction false} PassableThreads(chain: Chain, page: bool, n: nat)
    requires WellFormed(chain) && Passable(chain, page, n) && n <= Size(Visited(chain, Used), page)
    ensures Thread(Visited(chain, All), Visited(chain, Used), page, n)
  {
    if chain != [] {
      var node, rest, below := chain[0], Visited(chain[1..], Used), Visited(chain[1..], All);
      var used, spare := node.slots[..node.count], node.slots[node.count..];
      assert node.Valid() && node.slots[..SLOTS] == used + spare;
      SizeSplit(used, rest, page);
      Regroup(used, spare, below);
      if n <= Size(used, page) {
        ThreadFits(used, spare + below, rest, page, n);
      } else {
        PassableThreads(chain[1..], page, n - Size(used, page));
        ThreadSkips(spare, below, rest, page, n - Size(used, page));
        ThreadGoesOn(used, spare + below, rest, page, n);
      }
    }
  }

  /** A chain whose nodes before the last are full lets every result through that fits it. */
  lemma {:induction false} FullIsPassable(chain: Chain, page: bool, n: nat)
    requires WellFormed(chain) && Full(chain) && n <= Size(Visited(chain, Used), page)
    ensures Passable(chain, page, n)
  {
    if chain != [] {
      var node := chain[0];
      assert node.Valid();
      SizeSplit(node.slots[..node.count], Visited(chain[1..], Used), page);
      var size := Size(node.slots[..node.count], page);
      if n > size {
        FullTail(chain);
        FullIsPassable(chain[1..], page, n - size);
      }
    }
  }

  /** Reading the slots is reading the entries that thread them. */
  lemma {:induction false} ThreadCollects(mem: Mem, slots: seq<Entry>, used: seq<Entry>, page: bool, n: nat,
                                          bl: seq<Byte>)
    requires Thread(slots, used, page, n) && Roomy(mem, used, page)
    ensures Collected(mem, slots, page, n, bl) == Collected(mem, used, page, n, bl)
    decreases |slots|
  {
    if n > 0 {
      var size := Min(Cap(slots[0], page), n);
      if Takes(slots, used, page, n) {
        ThreadCollects(mem, slots[1..], used[1..], page, n - size, bl + Read(mem, slots[0], size));
      } else {
        assert bl + [] == bl;
        ThreadCollects(mem, slots[1..], used, page, n, bl);
      }
    }
  }

  /** The gather loop reads just the used entries: there are no empty nodes, or their first
      slots take no bytes before n bytes are read. */
  predicate GathersUsed(chain: Chain, page: bool, n: nat)
    requires WellFormed(chain)
  {
    NoneEmpty(chain) || Thread(Visited(chain, Gathering), Visited(chain, Used), page, n)
  }

  lemma GathersUsedBytes(mem: Mem, chain: Chain, page: bool, n: nat)
    requires WellFormed(chain) && GathersUsed(chain, page, n) && CanHold(mem, Visited(chain, Used), page, n)
    ensures n <= |Flat(mem, Visited(chain, Used), page)|
    ensures Collected(mem, Visited(chain, Gathering), page, n, []) == Got(Flat(mem, Visited(chain, Used), page)[..n])
  {
    var gathered, used := Visited(chain, Gathering), Visited(chain, Used);
    if NoneEmpty(chain) {
      GatheredIsUsed(chain);
    } else {
      ThreadCollects(mem, gathered, used, page, n, []);
    }
    CollectedIsPrefix(mem, used, page, n, []);
    assert [] + Flat(mem, used, page)[..n] == Flat(mem, used, page)[..n];
  }

  /** Filling the slots is filling the entries that thread them. */
  lemma {:induction false} ThreadScatters(mem: Mem, slots: seq<Entry>, used: seq<Entry>, page: bool, data: seq<Byte>)
    requires Thread(slots, used, page, |data|) && Roomy(mem, used, page)
    ensures Scattered(mem, slots, page, data) == Done(Laid(mem, used, page, data))
    decreases |slots|
  {
    if data != [] {
      var size := Min(Cap(slots[0], page), |data|);
      if Takes(slots, used, page, |data|) {
        ThreadScatters(Stored(mem, slots[0], data[..size]), slots[1..], used[1..], page, data[size..]);
      } else {
        assert data[..0] == [] && data[0..] == data;
        ThreadScatters(mem, slots[1..], used, page, data);
      }
    }
  }

  // ---------------------------------------------------------------------------
  // Clearing

  predicate Zeroed(mem: Mem, e: Entry) {
    Holds(mem, e, e.len) && forall i :: 0 <= i < e.len ==> mem[e.buf][i] == 0
  }

  predicate AllZeroed(mem: Mem, es: seq<Entry>) {
    forall k :: 0 <= k < |es| ==> Zeroed(mem, es[k])
  }

  /** Every byte of valid data that lies past position `from` of the flattened chain is zero. */
  predicate ZeroAfter(mem: Mem, es: seq<Entry>, page: bool, from: nat)
    requires Roomy(mem, es, page)
  {
    forall k, i ::
      0 <= k < |es| && 0 <= i < Min(es[k].len, Cap(es[k], page)) && from <= Size(es[..k], page) + i ==>
        mem[es[k].buf][i] == 0
  }

  /** memset of the valid data. */
  function Cleared(mem: Mem, e: Entry): (after: Mem)
    requires Holds(mem, e, e.len)
    ensures SameShape(mem, after)
  {
    Stored(mem, e, seq(e.len, _ => 0))
  }

  lemma ZeroOne(mem: Mem, e: Entry, seen: seq<Entry>)
    requires Holds(mem, e, e.len) && AllZeroed(mem, seen)
    ensures AllZeroed(Cleared(mem, e), seen + [e])
  {
    var after := Cleared(mem, e);
    forall k | 0 <= k < |seen| ensures Zeroed(after, seen[k]) {
      assert Zeroed(mem, seen[k]);
    }
    assert Zeroed(after, e);
  }

  lemma RoomyPart(before: Mem, mem: Mem, p: seq<Entry>, q: seq<Entry>, r: seq<Entry>)
    requires Roomy(before, (p + q) + r, false) && SameShape(before, mem)
    ensures Roomy(mem, q, false)
  {
    assert forall k :: 0 <= k < |q| ==> ((p + q) + r)[|p| + k] == q[k];
  }

  /** After a read of another length than asked for, no stale byte of valid data remains. */
  lemma ShortReadLeavesZeros(mem: Mem, es: seq<Entry>, page: bool, results: seq<Byte>)
    requires CanHold(mem, es, page, |results|) && Disjoint(es, page) && AllZeroed(mem, es)
    ensures Roomy(Laid(mem, es, page, results), es, page)
    ensures ZeroAfter(Laid(mem, es, page, results), es, page, |results|)
  {
    LaidOverFlat(mem, es, page, results);
    var after := Laid(mem, es, page, results);
    forall k, i | 0 <= k < |es| && 0 <= i < Min(es[k].len, Cap(es[k], page)) && |results| <= Size(es[..k], page) + i
      ensures after[es[k].buf][i] == 0
    {
      FlatAt(mem, es, page, k, i);
      FlatAt(after, es, page, k, i);
      assert Zeroed(mem, es[k]);
    }
  }

  // ---------------------------------------------------------------------------
  // Scatter

  /** The target of a read: the buffers, and the chain pointing into them. */
  class ReadTarget {
    var mem: Mem
    const chain: Chain

    constructor (mem: Mem, chain: Chain)
      ensures this.mem == mem && this.chain == chain
    {
      this.mem, this.chain := mem, chain;
    }

    /** The inner clearing loop of ReadCallback, over the used entries of one node. */
    method ZeroNode(node: Node, ghost seen: seq<Entry>)
      requires node.Valid() && Roomy(mem, node.slots[..node.count], false) && AllZeroed(mem, seen)
      modifies this
      ensures SameShape(old(mem), mem) && AllZeroed(mem, seen + node.slots[..node.count])
    {
      var cur: nat := 0;
      assert seen + node.slots[..0] == seen;
      while cur < node.count
        invariant cur <= node.count && SameShape(old(mem), mem) && AllZeroed(mem, seen + node.slots[..cur])
      {
        var e := node.slots[cur];
        assert node.slots[..node.count][cur] == e;
        ZeroOne(mem, e, seen + node.slots[..cur]);
        mem := Cleared(mem, e);
        cur := cur + 1;
        assert (seen + node.slots[..cur - 1]) + [e] == seen + node.slots[..cur];
      }
    }

    /** The clearing loops of ReadCallback: zero the valid data of every used entry. */
    method ZeroFill()
      requires WellFormed(chain) && Roomy(mem, Visited(chain, Used), false)
      modifies this
      ensures SameShape(old(mem), mem) && AllZeroed(mem, Visited(chain, Used))
    {
      var node: nat := 0;
      ghost var seen: seq<Entry> := [];
      while node < |chain|
        invariant node <= |chain| && SameShape(old(mem), mem) && AllZeroed(mem, seen)
        invariant seen + Visited(chain[node..], Used) == Visited(chain, Used)
      {
        ghost var here := chain[node].slots[..chain[node].count];
        assert chain[node..][1..] == chain[node + 1..] && chain[node..][0].Valid();
        Regroup(seen, here, Visited(chain[node + 1..], Used));
        RoomyPart(old(mem), mem, seen, here, Visited(chain[node + 1..], Used));
        ZeroNode(chain[node], seen);
        seen := seen + here;
        node := node + 1;
      }
      assert seen + [] == seen;
    }

    /** The copying of one round of that loop. */
    method FillSlot(results: seq<Byte>, page: bool, offset: nat, leftLen: nat, e: Entry, ghost slots: seq<Entry>)
      returns (size: nat)
      requires leftLen > 0 && offset + leftLen == |results| && slots != [] && slots[0] == e
      requires Scattered(mem, slots, page, results[offset..]).Done?
      modifies this
      ensures size <= leftLen
      ensures Scattered(mem, slots[1..], page, results[offset + size..]) ==
        Scattered(old(mem), slots, page, results[offset..])
    {
      ScatteredNext(mem, slots, page, results, offset);
      if page {
        size := Min(4096, leftLen);
      } else {
        size := Min(e.len, leftLen);
      }
      mem := Stored(mem, e, results[offset..offset + size]);
    }

    /** The copy loop of ReadCallback. */
    method ScatterLoop(results: seq<Byte>, page: bool)
      requires WellFormed(chain) && Scattered(mem, Visited(chain, All), page, results).Done?
      modifies this
      ensures Scattered(old(mem), Visited(chain, All), page, results) == Done(mem)
    {
      var leftLen: nat, offset: nat := |results|, 0;
      var node: nat, cur: nat := 0, 0;
      ghost var slots, final := Visited(chain, All), Scattered(mem, Visited(chain, All), page, results);
      FromStart(chain, All);
      assert results[0..] == results;
      while leftLen > 0
        invariant offset + leftLen == |results| && slots == From(chain, All, node, cur)
        invariant Scattered(mem, slots, page, results[offset..]) == final
        decreases |slots|
      {
        ScatteredReaches(mem, slots, page, results[offset..]);
        var node', cur' := Advance(chain, All, node, cur, slots);
        var size := FillSlot(results, page, offset, leftLen, chain[node].slots[cur], slots);
        leftLen, offset := leftLen - size, offset + size;
        node, cur, slots := node', cur', slots[1..];
      }
      assert results[offset..] == [];
    }

    /** ReadCallback on a successful read of `results` where `wanted` bytes were asked for.
        The flattened chain starts with the result bytes; what follows is what the buffers
        held, after clearing if the length is not the one asked for. */
    method ReadCallback(results: seq<Byte>, wanted: nat, page: bool)
      requires WellFormed(chain) && Passable(chain, page, |results|)
      requires CanHold(mem, Visited(chain, Used), page, |results|) && Roomy(mem, Visited(chain, Used), false)
      requires Disjoint(Visited(chain, Used), page)
      modifies this
      ensures Roomy(mem, Visited(chain, Used), page)
      ensures StartsWith(Flat(mem, Visited(chain, Used), page), results)
      ensures |results| == wanted ==>
        AgreeFrom(Flat(old(mem), Visited(chain, Used), page), Flat(mem, Visited(chain, Used), page), |results|)
      ensures |results| != wanted ==> ZeroAfter(mem, Visited(chain, Used), page, |results|)
    {
      ghost var used := Visited(chain, Used);
      PassableThreads(chain, page, |results|);
      if |results| != wanted {
        ZeroFill();
      }
      ghost var mid := mem;
      ThreadScatters(mid, Visited(chain, All), used, page, results);
      ScatterLoop(results, page);
      LaidOverFlat(mid, used, page, results);
      if |results| != wanted {
        ShortReadLeavesZeros(mid, used, page, results);
      }
    }
  }

  function GatherSize(chain: Chain, page: bool): nat
    requires WellFormed(chain)
  {
    Size(Visited(chain, Used), page)
  }

  /** Main result: the round trip.  Gathering a whole chain and scattering the bytes back,
      whatever has happened to the buffers in between, restores every entry; in particular
      for every chain without empty nodes whose nodes before the last are full. */
  method RoundTrip(target: ReadTarget, page: bool, clobbered: Mem) returns (bl: seq<Byte>)
    requires WellFormed(target.chain) && Disjoint(Visited(target.chain, Used), page)
    requires Full(target.chain) || Passable(target.chain, page, GatherSize(target.chain, page))
    requires GathersUsed(target.chain, page, GatherSize(target.chain, page))
    requires Roomy(target.mem, Visited(target.chain, Used), page)
    requires Roomy(clobbered, Visited(target.chain, Used), page) && Roomy(clobbered, Visited(target.chain, Used), false)
    modifies target
    ensures Roomy(target.mem, Visited(target.chain, Used), page)
    ensures Parts(target.mem, Visited(target.chain, Used), page) ==
      old(Parts(target.mem, Visited(target.chain, Used), page))
  {
    ghost var used, before := Visited(target.chain, Used), target.mem;
    var len := GatherSize(target.chain, page);
    if Full(target.chain) {
      FullIsPassable(target.chain, page, len);
    }
    GathersUsedBytes(before, target.chain, page, len);
    FlatSize(before, used, page);
    bl := AppendEntries(target.mem, target.chain, len, page, []);
    assert bl == Flat(before, used, page);
    target.mem := clobbered;
    target.ReadCallback(bl, |bl|, page);
    FlatSize(target.mem, used, page);
    assert Flat(target.mem, used, page)[..|bl|] == Flat(target.mem, used, page);
    FlatDeterminesParts(before, target.mem, used, page);
  }
}
