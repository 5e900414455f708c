/**
 Exactly which chains the scatter loop serves right, and exactly when a short read leaves only
 zeros behind the result.
 */
module ScatterExact {
  import opened Memory
  import opened BufferChain
  import opened GatherScatter

  // ---------------------------------------------------------------------------
  // Exactly which chains scatter right

  /** For all buffers with room in every slot and all results of n bytes, the scatter loop
      fills the used entries in gather order and nothing else. */
  ghost predicate ScattersRight(chain: Chain, page: bool, n: nat)
    requires WellFormed(chain)
  {
    forall mem: Mem, data: seq<Byte> ::
      |data| == n && Roomy(mem, Visited(chain, All), page) && Roomy(mem, Visited(chain, Used), page) ==>
        Scattered(mem, Visited(chain, All), page, data) == Done(Laid(mem, Visited(chain, Used), page, data))
  }

  /** The first entry that takes bytes. */
  lemma {:induction false} FirstTaker(es: seq<Entry>, page: bool) returns (k: nat)
    requires exists i :: 0 <= i < |es| && Cap(es[i], page) > 0
    ensures k < |es| && Cap(es[k], page) > 0 && Size(es[..k], page) == 0
  {
    if Cap(es[0], page) > 0 {
      k := 0;
    } else {
      var i :| 0 <= i < |es| && Cap(es[i], page) > 0;
      assert es[1..][i - 1] == es[i];
      k := FirstTaker(es[1..], page);
      k := k + 1;
      assert es[..k][1..] == es[1..][..k - 1];
    }
  }

  /** Slot k gets some of a result of n bytes, and no entry of `used` points to its buffer. */
  predicate Stray(slots: seq<Entry>, used: seq<Entry>, page: bool, n: nat, k: nat) {
    && k < |slots| && Cap(slots[k], page) > 0 && Size(slots[..k], page) < n
    && forall e :: e in used && Cap(e, page) > 0 ==> e.buf != slots[k].buf
  }

  lemma StrayHere(used: seq<Entry>, spare: seq<Entry>, rest: seq<Entry>, below: seq<Entry>, page: bool, n: nat)
      returns (k: nat)
    requires Disjoint((used + spare) + below, page) && Size(used, page) < n
    requires exists i :: 0 <= i < |spare| && Cap(spare[i], page) > 0
    requires forall e :: e in rest ==> e in below
    ensures Stray((used + spare) + below, used + rest, page, n, k)
  {
    var slots := (used + spare) + below;
    k := FirstTaker(spare, page);
    SizeSplit(used, spare[..k], page);
    assert slots[..|used| + k] == used + spare[..k];
    k := |used| + k;
    forall e | e in used + rest && Cap(e, page) > 0 ensures e.buf != slots[k].buf {
      if e in used {
        var i :| 0 <= i < |used| && used[i] == e;
        assert slots[i] == e;
      } else {
        var i :| 0 <= i < |below| && below[i] == e;
        assert slots[|used| + |spare| + i] == e;
      }
    }
  }

  lemma StrayBelow(here: seq<Entry>, count: nat, rest: seq<Entry>, below: seq<Entry>, page: bool, n: nat, k: nat)
    requires Disjoint(here + below, page) && count <= |here| && Size(here, page) <= n
    requires Stray(below, rest, page, n - Size(here, page), k)
    ensures Stray(here + below, here[..count] + rest, page, n, |here| + k)
  {
    var slots, at := here + below, |here| + k;
    SizeSplit(here, below[..k], page);
    assert slots[..at] == here + below[..k] && slots[at] == below[k];
    forall e | e in here[..count] && Cap(e, page) > 0 ensures e.buf != slots[at].buf {
      var i :| 0 <= i < count && here[i] == e;
      assert slots[i] == e;
    }
  }

  lemma {:induction false} StraySlot(chain: Chain, page: bool, n: nat) returns (k: nat)
    requires WellFormed(chain) && Disjoint(Visited(chain, All), page) && !Passable(chain, page, n)
    ensures Stray(Visited(chain, All), Visited(chain, Used), page, n, k)
  {
    var node, rest, below := chain[0], Visited(chain[1..], Used), Visited(chain[1..], All);
    assert node.Valid();
    var used, spare := node.slots[..node.count], node.slots[node.count..];
    assert node.slots[..SLOTS] == used + spare;
    assert Visited(chain, All) == (used + spare) + below && Visited(chain, Used) == used + rest;
    if SpareEmpty(node, page) {
      DisjointTail(used + spare, below, page);
      SpareSize(spare, page);
      SizeSplit(used, spare, page);
      k := StraySlot(chain[1..], page, n - Size(used, page));
      StrayBelow(used + spare, node.count, rest, below, page, n, k);
      assert (used + spare)[..node.count] == used;
      k := SLOTS + k;
    } else {
      var i :| node.count <= i < SLOTS && Cap(node.slots[i], page) > 0;
      assert spare[i - node.count] == node.slots[i];
      UsedAmong(chain[1..], All, page);
      k := StrayHere(used, spare, rest, below, page, n);
    }
  }

  /** With room in every slot, the slots are just the entries. */
  lemma {:induction false} AllRoomScatters(mem: Mem, slots: seq<Entry>, page: bool, data: seq<Byte>)
    requires CanHold(mem, slots, page, |data|)
    ensures Scattered(mem, slots, page, data) == Done(Laid(mem, slots, page, data))
    decreases |slots|
  {
    if data != [] {
      var size := Min(Cap(slots[0], page), |data|);
      AllRoomScatters(Stored(mem, slots[0], data[..size]), slots[1..], page, data[size..]);
    }
  }

  lemma StrayByteIn(mem: Mem, slots: seq<Entry>, page: bool, data: seq<Byte>, k: nat)
    requires CanHold(mem, slots, page, |data|) && Disjoint(slots, page) && k < |slots|
    requires Cap(slots[k], page) > 0 && Size(slots[..k], page) < |data|
    ensures Laid(mem, slots, page, data)[slots[k].buf][0] == data[Size(slots[..k], page)]
  {
    LaidIsOverlay(mem, slots, page, data);
    FlatAt(Laid(mem, slots, page, data), slots, page, k, 0);
  }

  lemma StrayByte(chain: Chain, page: bool, n: nat)
    requires WellFormed(chain) && Disjoint(Visited(chain, All), page) && n <= Size(Visited(chain, Used), page)
    requires !Passable(chain, page, n)
    ensures !ScattersRight(chain, page, n)
  {
    var used, slots := Visited(chain, Used), Visited(chain, All);
    var k := StraySlot(chain, page, n);
    var mem := CleanMem(slots, page);
    var data: seq<Byte> := seq(n, _ => 1);
    UsedAmong(chain, All, page);
    RoomyMembers(mem, used, slots, page);
    AllRoomScatters(mem, slots, page, data);
    StrayByteIn(mem, slots, page, data, k);
    forall i | 0 <= i < |used| && Cap(used[i], page) > 0 ensures used[i].buf != slots[k].buf {
      assert used[i] in used;
    }
    LaidFrame(mem, used, page, data, slots[k].buf);
  }

  /** Main result.  Where all slots that take bytes have buffers of their own, a result of n
      bytes is scattered right, whatever its bytes and the buffers', exactly when it passes
      no spare slot that takes bytes. */
  lemma ScattersRightIffPassable(chain: Chain, page: bool, n: nat)
    requires WellFormed(chain) && Disjoint(Visited(chain, All), page) && n <= Size(Visited(chain, Used), page)
    ensures ScattersRight(chain, page, n) <==> Passable(chain, page, n)
  {
    var used, slots := Visited(chain, Used), Visited(chain, All);
    if Passable(chain, page, n) {
      forall mem: Mem, data: seq<Byte> | |data| == n && Roomy(mem, slots, page) && Roomy(mem, used, page)
        ensures Scattered(mem, slots, page, data) == Done(Laid(mem, used, page, data))
      {
        PassableThreads(chain, page, n);
        ThreadScatters(mem, slots, used, page, data);
      }
    } else {
      StrayByte(chain, page, n);
    }
  }

  // ---------------------------------------------------------------------------
  // Exactly when the remainder is zero

  /** Whatever the buffers held before they were cleared, the whole remainder of the
      flattened chain is zero after `results` has been laid over it. */
  ghost predicate RemainderIsZero(es: seq<Entry>, page: bool, results: seq<Byte>) {
    forall mem: Mem :: Roomy(mem, es, page) && AllZeroed(mem, es) ==>
      var after := Laid(mem, es, page, results);
      Roomy(after, es, page) && forall p :: |results| <= p < |Flat(after, es, page)| ==> Flat(after, es, page)[p] == 0
  }

  /** No entry the result does not fill is shorter than the bytes it takes part with. */
  predicate LengthsCover(es: seq<Entry>, page: bool, n: nat) {
    forall k :: 0 <= k < |es| && Size(es[..k], page) + Cap(es[k], page) > n ==> Cap(es[k], page) <= es[k].len
  }

  lemma StaleByteSurvives(es: seq<Entry>, page: bool, results: seq<Byte>, k: nat)
    requires Disjoint(es, page) && |results| <= Size(es, page)
    requires k < |es| && Size(es[..k], page) + Cap(es[k], page) > |results| && Cap(es[k], page) > es[k].len
    ensures !RemainderIsZero(es, page, results)
  {
    var n, size := Bounds(es);
    var clean := seq(n, _ => seq(size, _ => 0));
    var i := Cap(es[k], page) - 1;
    var mem := clean[es[k].buf := clean[es[k].buf][i := 1]];
    forall j | 0 <= j < |es| ensures Zeroed(mem, es[j]) {
      if j != k && es[j].len > 0 {
        assert es[j].buf != es[k].buf;
      }
    }
    LaidOverFlat(mem, es, page, results);
    FlatAt(mem, es, page, k, i);
  }

  /** Clearing goes by the entries' lengths and copying by pages if asked to, so the remainder
      of the chain is certain to be zero exactly when the lengths cover the pages not filled. */
  lemma ShortReadZeroesRemainderIffLengthsCover(es: seq<Entry>, page: bool, results: seq<Byte>)
    requires Disjoint(es, page) && |results| <= Size(es, page)
    ensures RemainderIsZero(es, page, results) <==> LengthsCover(es, page, |results|)
  {
    if LengthsCover(es, page, |results|) {
      forall mem: Mem | Roomy(mem, es, page) && AllZeroed(mem, es)
        ensures var after := Laid(mem, es, page, results);
          Roomy(after, es, page) && forall p :: |results| <= p < |Flat(after, es, page)| ==>
            Flat(after, es, page)[p] == 0
      {
        var after := Laid(mem, es, page, results);
        ShortReadLeavesZeros(mem, es, page, results);
        forall p | |results| <= p < |Flat(after, es, page)| ensures Flat(after, es, page)[p] == 0 {
          var k, i := FlatLocate(after, es, page, p);
        }
      }
    } else {
      var k :| 0 <= k < |es| && Size(es[..k], page) + Cap(es[k], page) > |results| && Cap(es[k], page) > es[k].len;
      StaleByteSurvives(es, page, results, k);
    }
  }
}
