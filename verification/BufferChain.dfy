/**
 Chains of buffer lists.  A node holds 64 entry slots of which `count` are in use; the gather
 loop leaves a node after its `count` entries, but not before the first, the scatter loop
 only after 64.

 Buffers live in a table, `mem`, and an entry points to one by its index, so that two
 entries may point to the same buffer unless a contract says otherwise.
 */
module BufferChain {
  import opened Memory
  import opened Sequences

  const SLOTS: nat := 64
  const PAGE: nat := 4096

  /** A pointer to a buffer and the length of its valid data. */
  datatype Entry = Entry(buf: nat, len: nat)

  datatype Node = Node(count: nat, slots: seq<Entry>) {
    predicate Valid() { count <= SLOTS && |slots| == SLOTS }
  }

  type Chain = seq<Node>

  type Mem = seq<seq<Byte>>

  predicate WellFormed(chain: Chain) {
    forall n :: 0 <= n < |chain| ==> chain[n].Valid()
  }

  function Min(a: nat, b: nat): nat { if a < b then a else b }

  // ---------------------------------------------------------------------------
  // The order in which the two loops visit entries

  /** The entries in use, those the gather loop takes, and those the scatter loop takes. */
  datatype Mode = Used | Gathering | All

  function Width(node: Node, mode: Mode): nat {
    match mode
    case Used => node.count
    case Gathering => if node.count == 0 then 1 else node.count
    case All => SLOTS
  }

  /** The first `Width` entries of every node. */
  function Visited(chain: Chain, mode: Mode): seq<Entry>
    requires WellFormed(chain)
  {
    if chain == [] then [] else chain[0].slots[..Width(chain[0], mode)] + Visited(chain[1..], mode)
  }

  /** What a loop has left to visit once it stands at entry `cur` of node `node`: both loops
      move on to the next entry, and to the next node after `Width` entries. */
  function From(chain: Chain, mode: Mode, node: nat, cur: nat): seq<Entry>
    requires WellFormed(chain)
    decreases |chain| - node, SLOTS - cur
  {
    if node >= |chain| || cur >= Width(chain[node], mode) then []
    else if cur + 1 >= Width(chain[node], mode) then [chain[node].slots[cur]] + From(chain, mode, node + 1, 0)
    else [chain[node].slots[cur]] + From(chain, mode, node, cur + 1)
  }

  lemma FromNext(chain: Chain, mode: Mode, node: nat, cur: nat, rest: seq<Entry>)
    requires WellFormed(chain) && rest == From(chain, mode, node, cur) && rest != []
    ensures node < |chain| && chain[node].Valid() && cur < Width(chain[node], mode) && rest[0] == chain[node].slots[cur]
    ensures rest[1..] == if cur + 1 >= Width(chain[node], mode) then From(chain, mode, node + 1, 0)
      else From(chain, mode, node, cur + 1)
  {
    assert chain[node].Valid();
  }

  lemma Peel<T>(s: seq<T>, lo: nat, hi: nat)
    requires lo < hi <= |s|
    ensures s[lo..hi] == [s[lo]] + s[lo + 1..hi]
  {
  }

  lemma {:induction false} FromIsVisited(chain: Chain, mode: Mode, node: nat, cur: nat)
    requires WellFormed(chain) && mode != Used && node < |chain| && cur < Width(chain[node], mode)
    ensures From(chain, mode, node, cur) ==
      chain[node].slots[cur..Width(chain[node], mode)] + Visited(chain[node + 1..], mode)
    decreases |chain| - node, SLOTS - cur
  {
    var here, width := chain[node].slots, Width(chain[node], mode);
    var tail := Visited(chain[node + 1..], mode);
    assert chain[node].Valid();
    Peel(here, cur, width);
    if cur + 1 < width {
      FromIsVisited(chain, mode, node, cur + 1);
      Regroup([here[cur]], here[cur + 1..width], tail);
    } else {
      assert here[cur..width] == [here[cur]];
      if node + 1 < |chain| {
        FromIsVisited(chain, mode, node + 1, 0);
        assert chain[node + 1..][1..] == chain[node + 2..];
      }
    }
  }

  lemma FromStart(chain: Chain, mode: Mode)
    requires WellFormed(chain) && mode != Used
    ensures From(chain, mode, 0, 0) == Visited(chain, mode)
    ensures chain != [] ==> From(chain, mode, 0, 0) != []
  {
    if chain != [] {
      FromIsVisited(chain, mode, 0, 0);
    }
  }

  predicate NoneEmpty(chain: Chain) {
    forall n :: 0 <= n < |chain| ==> chain[n].count > 0
  }

  lemma {:induction false} GatheredIsUsed(chain: Chain)
    requires WellFormed(chain) && NoneEmpty(chain)
    ensures Visited(chain, Gathering) == Visited(chain, Used)
  {
    if chain != [] {
      GatheredIsUsed(chain[1..]);
    }
  }

  /** Every node before another node in use is full. */
  predicate Full(chain: Chain) {
    forall n, m :: 0 <= n < m < |chain| && chain[m].count > 0 ==> chain[n].count == SLOTS
  }

  lemma {:induction false} UsedSomewhere(chain: Chain)
    requires WellFormed(chain)
    ensures Visited(chain, Used) != [] <==> exists m :: 0 <= m < |chain| && chain[m].count > 0
  {
    if chain != [] {
      UsedSomewhere(chain[1..]);
      assert forall m :: 0 <= m < |chain[1..]| ==> chain[1..][m] == chain[m + 1];
    }
  }

  lemma FullTail(chain: Chain)
    requires WellFormed(chain) && chain != []
    ensures Full(chain) <==> (Visited(chain[1..], Used) != [] ==> chain[0].count == SLOTS) && Full(chain[1..])
  {
    UsedSomewhere(chain[1..]);
    assert forall m :: 0 < m < |chain| ==> chain[m] == chain[1..][m - 1];
  }

  lemma {:induction false} SlotCount(chain: Chain)
    requires WellFormed(chain)
    ensures |Visited(chain, All)| == SLOTS * |chain|
  {
    if chain != [] {
      SlotCount(chain[1..]);
    }
  }

  /** Used entries are among those any loop visits, and take no more room. */
  lemma {:induction false} UsedAmong(chain: Chain, mode: Mode, page: bool)
    requires WellFormed(chain)
    ensures forall e :: e in Visited(chain, Used) ==> e in Visited(chain, mode)
    ensures Size(Visited(chain, Used), page) <= Size(Visited(chain, mode), page)
  {
    if chain != [] {
      var node, width := chain[0], Width(chain[0], mode);
      assert node.Valid();
      var used, spare := node.slots[..node.count], node.slots[node.count..width];
      UsedAmong(chain[1..], mode, page);
      assert node.slots[..width] == used + spare;
      SizeSplit(used, spare, page);
      SizeSplit(used, Visited(chain[1..], Used), page);
      SizeSplit(node.slots[..width], Visited(chain[1..], mode), page);
    }
  }

  /** The scatter order agrees with the order of the used entries exactly when every node
      before another node in use is full, provided no two slots are the same entry. */
  lemma {:induction false} OrdersAgreeIffFull(chain: Chain)
    requires WellFormed(chain)
    requires forall i, j :: 0 <= i < j < |Visited(chain, All)| ==> Visited(chain, All)[i] != Visited(chain, All)[j]
    ensures Visited(chain, Used) <= Visited(chain, All) <==> Full(chain)
  {
    if chain != [] {
      var node, rest, below := chain[0], Visited(chain[1..], Used), Visited(chain[1..], All);
      var used, slots := Visited(chain, Used), Visited(chain, All);
      assert node.Valid();
      FullTail(chain);
      assert slots == node.slots + below && used == node.slots[..node.count] + rest;
      assert slots[SLOTS..] == below;
      OrdersAgreeIffFull(chain[1..]);
      if node.count == SLOTS {
        assert used[SLOTS..] == rest;
        assert used <= slots <==> rest <= below;
      } else if rest != [] {
        UsedAmong(chain[1..], All, false);
        assert rest[0] in below;
        GapDisagrees(node.slots, node.count, below, rest);
      }
    }
  }

  /** A used entry behind an unused slot is visited later. */
  lemma GapDisagrees(here: seq<Entry>, count: nat, below: seq<Entry>, rest: seq<Entry>)
    requires forall i, j :: 0 <= i < j < |here + below| ==> (here + below)[i] != (here + below)[j]
    requires count < |here| && rest != [] && rest[0] in below
    ensures !(here[..count] + rest <= here + below)
  {
    var i :| 0 <= i < |below| && below[i] == rest[0];
    assert (here[..count] + rest)[count] == rest[0] == (here + below)[|here| + i];
    assert (here + below)[count] != (here + below)[|here| + i];
  }

  // ---------------------------------------------------------------------------
  // Bytes

  /** The bytes an entry takes part with: a page, or its own length. */
  function Cap(e: Entry, page: bool): nat { if page then PAGE else e.len }

  /** The entry's buffer has room for n bytes; none is needed for none. */
  predicate Holds(mem: Mem, e: Entry, n: nat) {
    n == 0 || (e.buf < |mem| && n <= |mem[e.buf]|)
  }

  predicate Roomy(mem: Mem, es: seq<Entry>, page: bool) {
    forall k :: 0 <= k < |es| ==> Holds(mem, es[k], Cap(es[k], page))
  }

  predicate Disjoint(es: seq<Entry>, page: bool) {
    forall i, j :: 0 <= i < j < |es| && Cap(es[i], page) > 0 && Cap(es[j], page) > 0 ==> es[i].buf != es[j].buf
  }

  predicate CanHold(mem: Mem, es: seq<Entry>, page: bool, n: nat) {
    Roomy(mem, es, page) && n <= Size(es, page)
  }

  predicate SameShape(before: Mem, after: Mem) {
    |before| == |after| && forall b :: 0 <= b < |before| ==> |after[b]| == |before[b]|
  }

  predicate StartsWith(bytes: seq<Byte>, data: seq<Byte>) { |data| <= |bytes| && bytes[..|data|] == data }

  predicate AgreeFrom(before: seq<Byte>, after: seq<Byte>, from: nat) {
    |before| == |after| && forall i :: from <= i < |after| ==> after[i] == before[i]
  }

  function Read(mem: Mem, e: Entry, n: nat): (r: seq<Byte>)
    requires Holds(mem, e, n)
    ensures |r| == n
  {
    if n == 0 then [] else mem[e.buf][..n]
  }

  function Size(es: seq<Entry>, page: bool): nat {
    if es == [] then 0 else Cap(es[0], page) + Size(es[1..], page)
  }

  lemma {:induction false} SizeSplit(p: seq<Entry>, q: seq<Entry>, page: bool)
    ensures Size(p + q, page) == Size(p, page) + Size(q, page)
  {
    if p == [] {
      assert p + q == q;
    } else {
      assert (p + q)[1..] == p[1..] + q;
      SizeSplit(p[1..], q, page);
    }
  }

  /** What each entry holds, and the chain flattened. */
  function Parts(mem: Mem, es: seq<Entry>, page: bool): (parts: seq<seq<Byte>>)
    requires Roomy(mem, es, page)
    ensures |parts| == |es|
  {
    seq(|es|, k requires 0 <= k < |es| => Read(mem, es[k], Cap(es[k], page)))
  }

  function Concat(parts: seq<seq<Byte>>): seq<Byte> {
    if parts == [] then [] else parts[0] + Concat(parts[1..])
  }

  function Flat(mem: Mem, es: seq<Entry>, page: bool): seq<Byte>
    requires Roomy(mem, es, page)
  {
    Concat(Parts(mem, es, page))
  }

  lemma PartsTail(mem: Mem, es: seq<Entry>, page: bool)
    requires Roomy(mem, es, page) && es != []
    ensures Roomy(mem, es[1..], page) && Parts(mem, es, page)[1..] == Parts(mem, es[1..], page)
  {
    assert forall k :: 0 <= k < |es[1..]| ==> es[1..][k] == es[k + 1];
  }

  lemma FlatCons(mem: Mem, es: seq<Entry>, page: bool)
    requires Roomy(mem, es, page) && es != []
    ensures Roomy(mem, es[1..], page)
    ensures Flat(mem, es, page) == Read(mem, es[0], Cap(es[0], page)) + Flat(mem, es[1..], page)
  {
    PartsTail(mem, es, page);
  }

  lemma {:induction false} FlatSize(mem: Mem, es: seq<Entry>, page: bool)
    requires Roomy(mem, es, page)
    ensures |Flat(mem, es, page)| == Size(es, page)
  {
    if es != [] {
      PartsTail(mem, es, page);
      FlatSize(mem, es[1..], page);
    }
  }

  /** Byte i of entry k, as a byte of the flattened chain. */
  lemma {:induction false} FlatAt(mem: Mem, es: seq<Entry>, page: bool, k: nat, i: nat)
    requires Roomy(mem, es, page) && k < |es| && i < Cap(es[k], page)
    ensures Size(es[..k], page) + i < |Flat(mem, es, page)|
    ensures Flat(mem, es, page)[Size(es[..k], page) + i] == mem[es[k].buf][i]
  {
    PartsTail(mem, es, page);
    if k > 0 {
      FlatAt(mem, es[1..], page, k - 1, i);
      assert es[..k][1..] == es[1..][..k - 1];
    }
  }

  /** The entry and the byte in it that a position of the flattened chain belongs to. */
  lemma {:induction false} FlatLocate(mem: Mem, es: seq<Entry>, page: bool, p: nat) returns (k: nat, i: nat)
    requires Roomy(mem, es, page) && p < |Flat(mem, es, page)|
    ensures k < |es| && i < Cap(es[k], page) && p == Size(es[..k], page) + i &&
      Flat(mem, es, page)[p] == mem[es[k].buf][i]
  {
    PartsTail(mem, es, page);
    if p < Cap(es[0], page) {
      k, i := 0, p;
    } else {
      k, i := FlatLocate(mem, es[1..], page, p - Cap(es[0], page));
      k := k + 1;
      assert es[..k][1..] == es[1..][..k - 1];
    }
  }

  lemma {:induction false} FlatDeterminesParts(mem: Mem, mem': Mem, es: seq<Entry>, page: bool)
    requires Roomy(mem, es, page) && Roomy(mem', es, page) && Flat(mem, es, page) == Flat(mem', es, page)
    ensures Parts(mem, es, page) == Parts(mem', es, page)
  {
    if es != [] {
      PartsTail(mem, es, page);
      PartsTail(mem', es, page);
      var p, p' := Parts(mem, es, page), Parts(mem', es, page);
      assert p[0] == Flat(mem, es, page)[..Cap(es[0], page)] == p'[0];
      assert Concat(p[1..]) == Flat(mem, es, page)[Cap(es[0], page)..] == Concat(p'[1..]);
      FlatDeterminesParts(mem, mem', es[1..], page);
      assert p == [p[0]] + p[1..] && p' == [p'[0]] + p'[1..];
    }
  }

  lemma PartsSame(mem: Mem, mem': Mem, es: seq<Entry>, page: bool)
    requires Roomy(mem, es, page) && |mem| == |mem'|
    requires forall k :: 0 <= k < |es| && Cap(es[k], page) > 0 ==> mem'[es[k].buf] == mem[es[k].buf]
    ensures Roomy(mem', es, page) && Parts(mem', es, page) == Parts(mem, es, page)
  {
  }

  lemma DisjointTail(p: seq<Entry>, q: seq<Entry>, page: bool)
    requires Disjoint(p + q, page)
    ensures Disjoint(q, page)
  {
    assert forall i :: 0 <= i < |q| ==> (p + q)[|p| + i] == q[i];
  }

  lemma RoomyMembers(mem: Mem, p: seq<Entry>, q: seq<Entry>, page: bool)
    requires Roomy(mem, q, page) && forall e :: e in p ==> e in q
    ensures Roomy(mem, p, page)
  {
    forall k | 0 <= k < |p| ensures Holds(mem, p[k], Cap(p[k], page)) {
      assert p[k] in q;
    }
  }

  lemma {:induction false} Bounds(es: seq<Entry>) returns (n: nat, size: nat)
    ensures size >= PAGE && forall k :: 0 <= k < |es| ==> es[k].buf < n && es[k].len <= size
  {
    n, size := 0, PAGE;
    if es != [] {
      n, size := Bounds(es[1..]);
      n, size := if es[0].buf < n then n else es[0].buf + 1, if es[0].len <= size then size else es[0].len;
      assert forall k :: 0 < k < |es| ==> es[k] == es[1..][k - 1];
    }
  }

  lemma CleanMem(es: seq<Entry>, page: bool) returns (mem: Mem)
    ensures Roomy(mem, es, page) && forall b, i :: 0 <= b < |mem| && 0 <= i < |mem[b]| ==> mem[b][i] == 0
  {
    var n, size := Bounds(es);
    mem := seq(n, _ => seq(size, _ => 0));
  }

  // ---------------------------------------------------------------------------
  // Filling entries in order

  /** A memcpy to where an entry points. */
  function Stored(mem: Mem, e: Entry, data: seq<Byte>): (after: Mem)
    requires Holds(mem, e, |data|)
    ensures SameShape(mem, after)
  {
    if data == [] then mem else mem[e.buf := Overwritten(mem[e.buf], 0, data)]
  }

  /** Memory after `data` has been laid over the entries, from the first on. */
  function Laid(mem: Mem, es: seq<Entry>, page: bool, data: seq<Byte>): (after: Mem)
    requires Roomy(mem, es, page)
    ensures SameShape(mem, after)
    decreases |es|
  {
    if es == [] || data == [] then mem
    else
      var size := Min(Cap(es[0], page), |data|);
      Laid(Stored(mem, es[0], data[..size]), es[1..], page, data[size..])
  }

  /** Buffers no entry points to keep their bytes. */
  lemma {:induction false} LaidFrame(mem: Mem, es: seq<Entry>, page: bool, data: seq<Byte>, b: nat)
    requires Roomy(mem, es, page) && b < |mem| && forall k :: 0 <= k < |es| && Cap(es[k], page) > 0 ==> es[k].buf != b
    ensures Laid(mem, es, page, data)[b] == mem[b]
    decreases |es|
  {
    if es != [] && data != [] {
      var size := Min(Cap(es[0], page), |data|);
      LaidFrame(Stored(mem, es[0], data[..size]), es[1..], page, data[size..], b);
    }
  }

  /** Laying data over distinct buffers replaces exactly the first bytes of the flattened
      chain and leaves all others. */
  lemma {:induction false} LaidIsOverlay(mem: Mem, es: seq<Entry>, page: bool, data: seq<Byte>)
    requires CanHold(mem, es, page, |data|) && Disjoint(es, page)
    ensures Roomy(Laid(mem, es, page, data), es, page)
    ensures |data| <= |Flat(mem, es, page)|
    ensures Flat(Laid(mem, es, page, data), es, page) == data + Flat(mem, es, page)[|data|..]
    decreases |es|
  {
    FlatSize(mem, es, page);
    if es != [] && data != [] {
      var e, rest := es[0], es[1..];
      assert forall k :: 0 <= k < |rest| ==> rest[k] == es[k + 1];
      PartsTail(mem, es, page);
      if Cap(e, page) == 0 {
        assert data[..0] == [] && data[0..] == data;
        LaidIsOverlay(mem, rest, page, data);
        PartsTail(Laid(mem, rest, page, data), es, page);
      } else {
        OverlayOne(mem, es, page, data);
      }
    }
  }

  lemma OverlayOne(mem: Mem, es: seq<Entry>, page: bool, data: seq<Byte>)
    requires CanHold(mem, es, page, |data|) && Disjoint(es, page) && es != [] && data != [] && Cap(es[0], page) > 0
    ensures Roomy(Laid(mem, es, page, data), es, page)
    ensures |data| <= |Flat(mem, es, page)|
    ensures Flat(Laid(mem, es, page, data), es, page) == data + Flat(mem, es, page)[|data|..]
    decreases |es|, 0
  {
    var e, rest, size := es[0], es[1..], Min(Cap(es[0], page), |data|);
    var mid := Stored(mem, e, data[..size]);
    var after := Laid(mid, rest, page, data[size..]);
    RestUntouched(mem, es, page, data[..size]);
    LaidIsOverlay(mid, rest, page, data[size..]);
    LaidFrame(mid, rest, page, data[size..], e.buf);
    OverlayJoin(mem, after, es, page, data, size);
  }

  lemma OverlayJoin(mem: Mem, after: Mem, es: seq<Entry>, page: bool, data: seq<Byte>, size: nat)
    requires CanHold(mem, es, page, |data|) && es != [] && size == Min(Cap(es[0], page), |data|) && size > 0
    requires SameShape(mem, after) && after[es[0].buf] == Overwritten(mem[es[0].buf], 0, data[..size])
    requires Roomy(after, es[1..], page) && Roomy(mem, es[1..], page) && |data| - size <= |Flat(mem, es[1..], page)|
    requires Flat(after, es[1..], page) == data[size..] + Flat(mem, es[1..], page)[|data| - size..]
    ensures Roomy(after, es, page) && |data| <= |Flat(mem, es, page)|
    ensures Flat(after, es, page) == data + Flat(mem, es, page)[|data|..]
  {
    FlatSize(mem, es, page);
    FlatCons(mem, es, page);
    FlatCons(after, es, page);
    OverlayFirst(mem[es[0].buf], after[es[0].buf], Cap(es[0], page), size, data, Flat(mem, es[1..], page),
                 Flat(mem, es, page), Flat(after, es, page));
  }

  /** Filling the first entry leaves the others alone. */
  lemma RestUntouched(mem: Mem, es: seq<Entry>, page: bool, data: seq<Byte>)
    requires Roomy(mem, es, page) && Disjoint(es, page) && es != [] && 0 < |data| <= Cap(es[0], page)
    ensures var mid, rest := Stored(mem, es[0], data), es[1..];
      && Disjoint(rest, page) && Roomy(mem, rest, page) && Roomy(mid, rest, page)
      && (forall k :: 0 <= k < |rest| && Cap(rest[k], page) > 0 ==> rest[k].buf != es[0].buf)
      && Flat(mid, rest, page) == Flat(mem, rest, page)
  {
    assert forall k :: 0 <= k < |es[1..]| ==> es[1..][k] == es[k + 1];
    PartsSame(mem, Stored(mem, es[0], data), es[1..], page);
  }

  lemma OverlayFirst(before: seq<Byte>, after: seq<Byte>, cap: nat, size: nat, data: seq<Byte>, tail: seq<Byte>,
                     whole: seq<Byte>, result: seq<Byte>)
    requires size == Min(cap, |data|) && cap <= |before| && |data| - size <= |tail|
    requires after == Overwritten(before, 0, data[..size])
    requires whole == before[..cap] + tail && result == after[..cap] + (data[size..] + tail[|data| - size..])
    ensures result == data + whole[|data|..]
  {
    assert after[..cap] == data[..size] + before[size..cap];
    if size == |data| {
      assert data[..size] == data && data[size..] == [] && tail[0..] == tail;
      assert (before[..cap] + tail)[size..] == before[size..cap] + tail;
    } else {
      assert before[size..cap] == [];
      assert (before[..cap] + tail)[|data|..] == tail[|data| - cap..];
    }
  }

  lemma LaidOverFlat(mem: Mem, es: seq<Entry>, page: bool, data: seq<Byte>)
    requires CanHold(mem, es, page, |data|) && Disjoint(es, page)
    ensures Roomy(Laid(mem, es, page, data), es, page)
    ensures StartsWith(Flat(Laid(mem, es, page, data), es, page), data)
    ensures AgreeFrom(Flat(mem, es, page), Flat(Laid(mem, es, page, data), es, page), |data|)
  {
    LaidIsOverlay(mem, es, page, data);
  }
}
