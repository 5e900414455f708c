/**
 The key and value lists of an object's omap on the wire.  The server writes them by hand,
 as a count, the items and a final `false`; the class API reads them with the stock decoders
 for sets, maps and booleans.  A request that sets values carries a map, which the server
 measures by skipping over it before it decodes it.

 An iterator over a buffer is the bytes it has left.
 */
module OmapCodec {
  import opened Sequences

  type Octet = b: nat | b < 256
  type Bytes = seq<Octet>
  type Pair = (Bytes, Bytes)

  const U32_LIMIT: nat := 0x1_0000_0000

  datatype Parsed<T> = Ok(value: T, rest: Bytes) | Fail

  // ---------------------------------------------------------------------------
  // Primitives

  /** k bytes, the least significant first; a number too large loses its upper part. */
  function LittleEndian(n: nat, k: nat): (b: Bytes)
    ensures |b| == k
  {
    if k == 0 then [] else [n % 256] + LittleEndian(n / 256, k - 1)
  }

  function ReadLittleEndian(b: Bytes, k: nat): Parsed<nat> {
    if k == 0 then Ok(0, b)
    else if b == [] then Fail
    else match ReadLittleEndian(b[1..], k - 1)
      case Fail => Fail
      case Ok(high, rest) => Ok(b[0] as nat + 256 * high, rest)
  }

  function Limit(k: nat): nat { if k == 0 then 1 else 256 * Limit(k - 1) }

  lemma {:induction false} LittleEndianRoundTrip(n: nat, k: nat, s: Bytes)
    requires n < Limit(k)
    ensures ReadLittleEndian(LittleEndian(n, k) + s, k) == Ok(n, s)
  {
    if k == 0 {
      assert [] + s == s;
    } else {
      var high := LittleEndian(n / 256, k - 1);
      LittleEndianRoundTrip(n / 256, k - 1, s);
      Regroup([n % 256], high, s);
      assert ([n % 256] + (high + s))[1..] == high + s;
    }
  }

  /** Bytes are the encoding of the number they decode to. */
  lemma {:induction false} LittleEndianInverse(b: Bytes, k: nat)
    requires ReadLittleEndian(b, k).Ok?
    ensures ReadLittleEndian(b, k).value < Limit(k)
    ensures b == LittleEndian(ReadLittleEndian(b, k).value, k) + ReadLittleEndian(b, k).rest
  {
    if k == 0 {
      assert [] + b == b;
    } else {
      LittleEndianInverse(b[1..], k - 1);
      var high, rest := ReadLittleEndian(b[1..], k - 1).value, ReadLittleEndian(b, k).rest;
      var n: nat := b[0] as nat + 256 * high;
      assert n % 256 == b[0] && n / 256 == high;
      Regroup([b[0]], LittleEndian(high, k - 1), rest);
      assert b == [b[0]] + b[1..];
    }
  }

  const WORD: nat := 4

  function U32(n: nat): (b: Bytes)
    ensures |b| == 4
  {
    LittleEndian(n, WORD)
  }

  function ReadU32(b: Bytes): Parsed<nat> { ReadLittleEndian(b, WORD) }

  lemma WordLimit()
    ensures Limit(WORD) == U32_LIMIT
  {
    assert Limit(0) == 1 && Limit(1) == 256 && Limit(2) == 0x1_0000 && Limit(3) == 0x100_0000;
  }

  lemma U32RoundTrip(n: nat, s: Bytes)
    requires n < U32_LIMIT
    ensures ReadU32(U32(n) + s) == Ok(n, s)
  {
    WordLimit();
    LittleEndianRoundTrip(n, WORD, s);
  }

  lemma U32Inverse(b: Bytes)
    requires ReadU32(b).Ok?
    ensures ReadU32(b).value < U32_LIMIT && b == U32(ReadU32(b).value) + ReadU32(b).rest
  {
    WordLimit();
    LittleEndianInverse(b, WORD);
  }

  /** The byte order on the wire, least significant byte first. */
  lemma U32IsLittleEndian(b0: Octet, b1: Octet, b2: Octet, b3: Octet)
    ensures U32(b0 as nat + 0x100 * b1 as nat + 0x1_0000 * b2 as nat + 0x100_0000 * b3 as nat) == [b0, b1, b2, b3]
  {
    var n3: nat := b3 as nat;
    var n2: nat := b2 as nat + 256 * n3;
    var n1: nat := b1 as nat + 256 * n2;
    var n0: nat := b0 as nat + 256 * n1;
    assert n0 == b0 as nat + 0x100 * b1 as nat + 0x1_0000 * b2 as nat + 0x100_0000 * b3 as nat;
    assert LittleEndian(n3, 1) == [b3] by { assert LittleEndian(n3 / 256, 0) == []; }
    assert LittleEndian(n2, 2) == [b2, b3] by { assert n2 % 256 == b2 && n2 / 256 == n3; }
    assert LittleEndian(n1, 3) == [b1, b2, b3] by { assert n1 % 256 == b1 && n1 / 256 == n2; }
    assert LittleEndian(n0, 4) == [b0, b1, b2, b3] by { assert n0 % 256 == b0 && n0 / 256 == n1; }
  }

  function Str(s: Bytes): (b: Bytes)
    ensures |b| == 4 + |s|
  {
    U32(|s|) + s
  }

  function ReadStr(b: Bytes): Parsed<Bytes> {
    match ReadU32(b)
    case Fail => Fail
    case Ok(l, rest) => if |rest| < l then Fail else Ok(rest[..l], rest[l..])
  }

  lemma StrRoundTrip(x: Bytes, s: Bytes)
    requires |x| < U32_LIMIT
    ensures ReadStr(Str(x) + s) == Ok(x, s)
  {
    U32RoundTrip(|x|, x + s);
    assert Str(x) + s == U32(|x|) + (x + s);
    assert (x + s)[..|x|] == x && (x + s)[|x|..] == s;
  }

  lemma StrInverse(b: Bytes)
    requires ReadStr(b).Ok?
    ensures Fits(ReadStr(b).value) && b == Str(ReadStr(b).value) + ReadStr(b).rest
  {
    U32Inverse(b);
    var l, rest := ReadU32(b).value, ReadU32(b).rest;
    assert rest == rest[..l] + rest[l..];
    Regroup(U32(l), rest[..l], rest[l..]);
  }

  function ReadBool(b: Bytes): Parsed<bool> {
    if b == [] then Fail else Ok(b[0] != 0, b[1..])
  }

  // ---------------------------------------------------------------------------
  // Lists of strings and of pairs

  function Strs(xs: seq<Bytes>): Bytes {
    if xs == [] then [] else Str(xs[0]) + Strs(xs[1..])
  }

  function ReadStrs(b: Bytes, n: nat): Parsed<seq<Bytes>>
    decreases n
  {
    if n == 0 then Ok([], b)
    else match ReadStr(b)
      case Fail => Fail
      case Ok(x, b1) =>
        match ReadStrs(b1, n - 1)
        case Fail => Fail
        case Ok(xs, rest) => Ok([x] + xs, rest)
  }

  function ReadPair(b: Bytes): Parsed<Pair> {
    match ReadStr(b)
    case Fail => Fail
    case Ok(k, b1) =>
      match ReadStr(b1)
      case Fail => Fail
      case Ok(v, b2) => Ok((k, v), b2)
  }

  function ReadPairs(b: Bytes, n: nat): Parsed<seq<Pair>>
    decreases n
  {
    if n == 0 then Ok([], b)
    else match ReadPair(b)
      case Fail => Fail
      case Ok(p, b1) =>
        match ReadPairs(b1, n - 1)
        case Fail => Fail
        case Ok(ps, rest) => Ok([p] + ps, rest)
  }

  /** A map is filled from the left, a later value replacing an earlier one. */
  function ToMap(ps: seq<Pair>): map<Bytes, Bytes> {
    if ps == [] then map[] else ToMap(ps[..|ps| - 1])[ps[|ps| - 1].0 := ps[|ps| - 1].1]
  }

  function ToSet(xs: seq<Bytes>): set<Bytes> { set x | x in xs }

  predicate Fits(x: Bytes) { |x| < U32_LIMIT }

  predicate AllFit(xs: seq<Bytes>) { |xs| < U32_LIMIT && forall k :: 0 <= k < |xs| ==> Fits(xs[k]) }

  predicate PairsFit(ps: seq<Pair>) { |ps| < U32_LIMIT && forall k :: 0 <= k < |ps| ==> Fits(ps[k].0) && Fits(ps[k].1) }

  function PairBytes(p: Pair): Bytes { Str(p.0) + Str(p.1) }

  function Pairs(ps: seq<Pair>): Bytes {
    if ps == [] then [] else PairBytes(ps[0]) + Pairs(ps[1..])
  }

  lemma PairRoundTrip(p: Pair, s: Bytes)
    requires Fits(p.0) && Fits(p.1)
    ensures ReadPair(PairBytes(p) + s) == Ok(p, s)
  {
    Regroup(Str(p.0), Str(p.1), s);
    StrRoundTrip(p.0, Str(p.1) + s);
    StrRoundTrip(p.1, s);
  }

  lemma {:induction false} PairsRoundTrip(ps: seq<Pair>, s: Bytes)
    requires PairsFit(ps)
    ensures ReadPairs(Pairs(ps) + s, |ps|) == Ok(ps, s)
  {
    if ps == [] {
      assert [] + s == s;
    } else {
      Regroup(PairBytes(ps[0]), Pairs(ps[1..]), s);
      PairRoundTrip(ps[0], Pairs(ps[1..]) + s);
      PairsRoundTrip(ps[1..], s);
      assert [ps[0]] + ps[1..] == ps;
    }
  }

  lemma PairInverse(b: Bytes)
    requires ReadPair(b).Ok?
    ensures var p := ReadPair(b).value; Fits(p.0) && Fits(p.1) && b == PairBytes(p) + ReadPair(b).rest
  {
    StrInverse(b);
    StrInverse(ReadStr(b).rest);
    Regroup(Str(ReadPair(b).value.0), Str(ReadPair(b).value.1), ReadPair(b).rest);
  }

  lemma PairsCons(p: Pair, ps: seq<Pair>)
    ensures Pairs([p] + ps) == PairBytes(p) + Pairs(ps)
  {
    assert ([p] + ps)[1..] == ps;
  }

  /** Whatever decodes is the encoding of what it decodes to. */
  lemma {:induction false} PairsInverse(b: Bytes, n: nat)
    requires ReadPairs(b, n).Ok?
    ensures |ReadPairs(b, n).value| == n && b == Pairs(ReadPairs(b, n).value) + ReadPairs(b, n).rest
    ensures forall p :: p in ReadPairs(b, n).value ==> Fits(p.0) && Fits(p.1)
    decreases n
  {
    if n == 0 {
      assert [] + b == b;
    } else {
      PairInverse(b);
      var p, b1 := ReadPair(b).value, ReadPair(b).rest;
      PairsInverse(b1, n - 1);
      var ps, rest := ReadPairs(b1, n - 1).value, ReadPairs(b1, n - 1).rest;
      PairsCons(p, ps);
      Regroup(PairBytes(p), Pairs(ps), rest);
      assert ReadPairs(b, n) == Ok([p] + ps, rest);
    }
  }

  lemma {:induction false} StrsRoundTrip(xs: seq<Bytes>, s: Bytes)
    requires AllFit(xs)
    ensures ReadStrs(Strs(xs) + s, |xs|) == Ok(xs, s)
  {
    if xs == [] {
      assert [] + s == s;
    } else {
      var more := Strs(xs[1..]);
      Regroup(Str(xs[0]), more, s);
      StrRoundTrip(xs[0], more + s);
      StrsRoundTrip(xs[1..], s);
      assert [xs[0]] + xs[1..] == xs;
    }
  }

  // ---------------------------------------------------------------------------
  // Keys

  /** decode(*keys) followed by decode(*more). */
  function KeysReply(b: Bytes): Parsed<(set<Bytes>, bool)> {
    match ReadU32(b)
    case Fail => Fail
    case Ok(n, b1) =>
      match ReadStrs(b1, n)
      case Fail => Fail
      case Ok(xs, b2) =>
        match ReadBool(b2)
        case Fail => Fail
        case Ok(more, rest) => Ok((ToSet(xs), more), rest)
  }

  /** EncodeOmapGetkeys, into empty outdata. */
  method EncodeGetkeys(keys: seq<Bytes>) returns (outdata: Bytes)
    ensures outdata == U32(|keys|) + (Strs(keys) + [0])
  {
    var bl: Bytes := [];
    for j := 0 to |keys|
      invariant bl + Strs(keys[j..]) == Strs(keys)
    {
      assert keys[j..][1..] == keys[j + 1..];
      assert bl + (Str(keys[j]) + Strs(keys[j + 1..])) == (bl + Str(keys[j])) + Strs(keys[j + 1..]);
      bl := bl + Str(keys[j]);
    }
    outdata := U32(|keys|) + (bl + [0]);
  }

  lemma FlagRead(flag: Octet, s: Bytes)
    ensures ReadBool([flag] + s) == Ok(flag != 0, s)
  {
  }

  lemma KeysReplyParts(b: Bytes, xs: seq<Bytes>, b1: Bytes, b2: Bytes, more: bool, s: Bytes)
    requires ReadU32(b) == Ok(|xs|, b1) && ReadStrs(b1, |xs|) == Ok(xs, b2) && ReadBool(b2) == Ok(more, s)
    ensures KeysReply(b) == Ok((ToSet(xs), more), s)
  {
  }

  /** Whoever sent them, keys followed by one byte decode to the set of the keys and to whether
      that byte is not zero; what follows is left. */
  lemma KeysReplyOf(keys: seq<Bytes>, flag: Octet, s: Bytes)
    requires AllFit(keys)
    ensures KeysReply(U32(|keys|) + (Strs(keys) + ([flag] + s))) == Ok((ToSet(keys), flag != 0), s)
  {
    var tail := [flag] + s;
    var body := Strs(keys) + tail;
    FlagRead(flag, s);
    U32RoundTrip(|keys|, body);
    StrsRoundTrip(keys, tail);
    KeysReplyParts(U32(|keys|) + body, keys, body, tail, flag != 0, s);
  }

  /** Main result: every list of keys, empty keys included, comes back as the set of its
      keys, followed by more == false and nothing else. */
  lemma KeysRoundTrip(keys: seq<Bytes>)
    requires AllFit(keys)
    ensures KeysReply(U32(|keys|) + (Strs(keys) + [0])) == Ok((ToSet(keys), false), [])
  {
    KeysReplyOf(keys, 0, []);
    assert [0] + [] == [0];
  }

  lemma {:induction false} StrsInverse(b: Bytes, n: nat)
    requires ReadStrs(b, n).Ok?
    ensures |ReadStrs(b, n).value| == n && b == Strs(ReadStrs(b, n).value) + ReadStrs(b, n).rest
    ensures forall x :: x in ReadStrs(b, n).value ==> Fits(x)
    decreases n
  {
    if n == 0 {
      assert [] + b == b;
    } else {
      StrInverse(b);
      var x, b1 := ReadStr(b).value, ReadStr(b).rest;
      StrsInverse(b1, n - 1);
      var xs, rest := ReadStrs(b1, n - 1).value, ReadStrs(b1, n - 1).rest;
      assert ([x] + xs)[1..] == xs;
      Regroup(Str(x), Strs(xs), rest);
      assert ReadStrs(b, n) == Ok([x] + xs, rest);
    }
  }

  /** Nothing else decodes: a reply that does is such keys, such a byte and what is left. */
  lemma KeysReplyInverse(b: Bytes) returns (keys: seq<Bytes>, flag: Octet)
    requires KeysReply(b).Ok?
    ensures AllFit(keys) && KeysReply(b).value == (ToSet(keys), flag != 0)
    ensures b == U32(|keys|) + (Strs(keys) + ([flag] + KeysReply(b).rest))
  {
    U32Inverse(b);
    var n, b1 := ReadU32(b).value, ReadU32(b).rest;
    StrsInverse(b1, n);
    var b2 := ReadStrs(b1, n).rest;
    keys, flag := ReadStrs(b1, n).value, b2[0];
    assert b2 == [flag] + b2[1..];
  }

  predicate Distinct(xs: seq<Bytes>) { forall i, j :: 0 <= i < j < |xs| ==> xs[i] != xs[j] }

  /** The number returned is the number of keys sent exactly if no key was sent twice. */
  lemma {:induction false} CountIffDistinct(xs: seq<Bytes>)
    ensures |ToSet(xs)| <= |xs| && (|ToSet(xs)| == |xs| <==> Distinct(xs))
  {
    if xs != [] {
      var last, init := xs[|xs| - 1], xs[..|xs| - 1];
      CountIffDistinct(init);
      assert xs == init + [last];
      assert ToSet(xs) == ToSet(init) + {last};
      if last in init {
        var i :| 0 <= i < |init| && init[i] == last;
        assert xs[i] == xs[|xs| - 1];
      }
    }
  }

  /** The end of a list still to be read, put behind what has been read of it. */
  function Behind<T>(done: seq<T>, todo: Parsed<seq<T>>): Parsed<seq<T>> {
    match todo
    case Fail => Fail
    case Ok(xs, rest) => Ok(done + xs, rest)
  }

  lemma BehindStep<T>(done: seq<T>, x: T, todo: Parsed<seq<T>>)
    ensures Behind(done, Behind([x], todo)) == Behind(done + [x], todo)
  {
    if todo.Ok? {
      assert done + ([x] + todo.value) == (done + [x]) + todo.value;
    }
  }

  lemma BehindNothing<T>(todo: Parsed<seq<T>>)
    ensures Behind([], todo) == todo
  {
    if todo.Ok? {
      assert [] + todo.value == todo.value;
    }
  }

  const EIO: int := 5

  /** The decoding half of cls_cxx_map_get_keys. */
  method MapGetKeys(outdata: Bytes) returns (r: int, keys: set<Bytes>, more: bool)
    ensures KeysReply(outdata).Ok? ==> r == |keys| && (keys, more) == KeysReply(outdata).value
    ensures KeysReply(outdata).Fail? ==> r == -EIO
  {
    keys, more := {}, false;
    var count := ReadU32(outdata);
    if count.Fail? {
      return -EIO, keys, more;
    }
    var n, iter := count.value, count.rest;
    ghost var done: seq<Bytes> := [];
    BehindNothing(ReadStrs(iter, n));
    while n > 0
      invariant Behind(done, ReadStrs(iter, n)) == ReadStrs(count.rest, count.value) && keys == ToSet(done)
    {
      var x := ReadStr(iter);
      if x.Fail? {
        return -EIO, keys, more;
      }
      BehindStep(done, x.value, ReadStrs(x.rest, n - 1));
      assert ToSet(done + [x.value]) == ToSet(done) + {x.value};
      keys, done := keys + {x.value}, done + [x.value];
      n, iter := n - 1, x.rest;
    }
    assert done + [] == done;
    var flag := ReadBool(iter);
    if flag.Fail? {
      return -EIO, keys, more;
    }
    return |keys|, keys, flag.value;
  }

  // ---------------------------------------------------------------------------
  // Keys with values

  /** What EncodeOmapGetvals appends for a key or a value: nothing if it is empty. */
  function Item(x: Bytes): Bytes { if x == [] then [] else Str(x) }

  function Items(kvs: seq<Pair>): Bytes {
    if kvs == [] then [] else (Item(kvs[0].0) + Item(kvs[0].1)) + Items(kvs[1..])
  }

  function GetvalsBytes(kvs: seq<Pair>): Bytes { U32(|kvs|) + (Items(kvs) + [0]) }

  lemma ItemsStep(bl: Bytes, kvs: seq<Pair>, j: nat)
    requires j < |kvs|
    ensures var bl1 := if |kvs[j].0| > 0 then bl + Str(kvs[j].0) else bl;
      var bl2 := if |kvs[j].1| > 0 then bl1 + Str(kvs[j].1) else bl1;
      bl2 + Items(kvs[j + 1..]) == bl + Items(kvs[j..])
  {
    var k, v := Item(kvs[j].0), Item(kvs[j].1);
    assert kvs[j..][1..] == kvs[j + 1..];
    assert bl + [] == bl && (bl + k) + [] == bl + k;
    Regroup(bl, k, v);
    Regroup(bl, k + v, Items(kvs[j + 1..]));
  }

  /** EncodeOmapGetvals, into empty outdata. */
  method EncodeGetvals(kvs: seq<Pair>) returns (outdata: Bytes)
    ensures outdata == GetvalsBytes(kvs)
  {
    var bl: Bytes := [];
    for j := 0 to |kvs|
      invariant bl + Items(kvs[j..]) == Items(kvs)
    {
      ItemsStep(bl, kvs, j);
      if |kvs[j].0| > 0 {
        bl := bl + Str(kvs[j].0);
      }
      if |kvs[j].1| > 0 {
        bl := bl + Str(kvs[j].1);
      }
    }
    outdata := U32(|kvs|) + (bl + [0]);
  }

  /** decode of a map. */
  function ReadMap(b: Bytes): Parsed<map<Bytes, Bytes>> {
    match ReadU32(b)
    case Fail => Fail
    case Ok(n, b1) =>
      match ReadPairs(b1, n)
      case Fail => Fail
      case Ok(ps, rest) => Ok(ToMap(ps), rest)
  }

  /** decode(*vals) followed by decode(*more). */
  function ValsReply(b: Bytes): Parsed<(map<Bytes, Bytes>, bool)> {
    match ReadMap(b)
    case Fail => Fail
    case Ok(m, b1) =>
      match ReadBool(b1)
      case Fail => Fail
      case Ok(more, rest) => Ok((m, more), rest)
  }

  lemma ValsReplyParts(b: Bytes, ps: seq<Pair>, b1: Bytes, b2: Bytes, more: bool, s: Bytes)
    requires ReadU32(b) == Ok(|ps|, b1) && ReadPairs(b1, |ps|) == Ok(ps, b2) && ReadBool(b2) == Ok(more, s)
    ensures ValsReply(b) == Ok((ToMap(ps), more), s)
  {
  }

  /** The same for keys with values. */
  lemma ValsReplyOf(ps: seq<Pair>, flag: Octet, s: Bytes)
    requires PairsFit(ps)
    ensures ValsReply(U32(|ps|) + (Pairs(ps) + ([flag] + s))) == Ok((ToMap(ps), flag != 0), s)
  {
    var tail := [flag] + s;
    var body := Pairs(ps) + tail;
    FlagRead(flag, s);
    U32RoundTrip(|ps|, body);
    PairsRoundTrip(ps, tail);
    ValsReplyParts(U32(|ps|) + body, ps, body, tail, flag != 0, s);
  }

  lemma ToMapAppend(ps: seq<Pair>, p: Pair)
    ensures ToMap(ps + [p]) == ToMap(ps)[p.0 := p.1]
  {
    assert (ps + [p])[..|ps|] == ps;
  }

  lemma PairsStep(done: seq<Pair>, b: Bytes, n: nat)
    requires n > 0
    ensures ReadPair(b).Fail? ==> Behind(done, ReadPairs(b, n)).Fail?
    ensures ReadPair(b).Ok? ==>
      Behind(done, ReadPairs(b, n)) == Behind(done + [ReadPair(b).value], ReadPairs(ReadPair(b).rest, n - 1))
  {
    if ReadPair(b).Ok? {
      BehindStep(done, ReadPair(b).value, ReadPairs(ReadPair(b).rest, n - 1));
    }
  }

  /** The loop of the map decoder. */
  method DecodeMap(iter: Bytes) returns (r: Parsed<map<Bytes, Bytes>>)
    ensures r == ReadMap(iter)
  {
    var count := ReadU32(iter);
    if count.Fail? {
      return Fail;
    }
    var n, cur := count.value, count.rest;
    var vals: map<Bytes, Bytes> := map[];
    ghost var done: seq<Pair> := [];
    ghost var all := ReadPairs(cur, n);
    BehindNothing(all);
    while n > 0
      invariant Behind(done, ReadPairs(cur, n)) == all && vals == ToMap(done)
    {
      PairsStep(done, cur, n);
      var k := ReadStr(cur);
      if k.Fail? {
        return Fail;
      }
      var v := ReadStr(k.rest);
      if v.Fail? {
        return Fail;
      }
      ToMapAppend(done, (k.value, v.value));
      vals, done := vals[k.value := v.value], done + [(k.value, v.value)];
      n, cur := n - 1, v.rest;
    }
    assert done + [] == done;
    return Ok(vals, cur);
  }

  /** The decoding half of cls_cxx_map_get_vals. */
  method MapGetVals(outdata: Bytes) returns (r: int, vals: map<Bytes, Bytes>, more: bool)
    ensures ValsReply(outdata).Ok? ==> r == |vals| && (vals, more) == ValsReply(outdata).value
    ensures ValsReply(outdata).Fail? ==> r == -EIO
  {
    vals, more := map[], false;
    var m := DecodeMap(outdata);
    if m.Fail? {
      return -EIO, vals, more;
    }
    var flag := ReadBool(m.rest);
    if flag.Fail? {
      return -EIO, m.value, more;
    }
    return |m.value|, m.value, flag.value;
  }

  // When the values come back

  predicate NoneEmpty(kvs: seq<Pair>) { forall k :: 0 <= k < |kvs| ==> kvs[k].0 != [] && kvs[k].1 != [] }

  predicate DistinctKeys(kvs: seq<Pair>) { forall i, j :: 0 <= i < j < |kvs| ==> kvs[i].0 != kvs[j].0 }

  /** What the items lack of the full encoding. */
  lemma {:induction false} ItemsSize(kvs: seq<Pair>)
    ensures |Items(kvs)| <= |Pairs(kvs)|
    ensures if NoneEmpty(kvs) then Items(kvs) == Pairs(kvs) else |Items(kvs)| < |Pairs(kvs)|
  {
    if kvs != [] {
      ItemsSize(kvs[1..]);
      assert NoneEmpty(kvs) <==> kvs[0].0 != [] && kvs[0].1 != [] && NoneEmpty(kvs[1..]) by {
        assert forall k :: 0 < k < |kvs| ==> kvs[k] == kvs[1..][k - 1];
        assert forall k :: 0 <= k < |kvs[1..]| ==> kvs[1..][k] == kvs[k + 1];
      }
    }
  }

  lemma {:induction false} PairsSplit(p: seq<Pair>, q: seq<Pair>)
    ensures Pairs(p + q) == Pairs(p) + Pairs(q)
  {
    if p == [] {
      assert p + q == q;
    } else {
      assert (p + q)[1..] == p[1..] + q;
      PairsSplit(p[1..], q);
      Regroup(PairBytes(p[0]), Pairs(p[1..]), Pairs(q));
    }
  }

  /** A list that holds all pairs of one without repeated keys takes at least its room. */
  lemma {:induction false} HoldingTakesRoom(kvs: seq<Pair>, ps: seq<Pair>)
    requires DistinctKeys(kvs) && forall k :: 0 <= k < |kvs| ==> kvs[k] in ps
    ensures |Pairs(ps)| >= |Pairs(kvs)|
    decreases |kvs|
  {
    if kvs != [] {
      var i :| 0 <= i < |ps| && ps[i] == kvs[0];
      var others := ps[..i] + ps[i + 1..];
      forall k | 0 <= k < |kvs[1..]| ensures kvs[1..][k] in others {
        var j :| 0 <= j < |ps| && ps[j] == kvs[k + 1];
        assert j != i && (if j < i then others[j] == ps[j] else others[j - 1] == ps[j]);
      }
      HoldingTakesRoom(kvs[1..], others);
      assert ps == ps[..i] + ([ps[i]] + ps[i + 1..]);
      PairsSplit(ps[..i], [ps[i]] + ps[i + 1..]);
      PairsSplit(ps[..i], ps[i + 1..]);
      assert ([ps[i]] + ps[i + 1..])[1..] == ps[i + 1..];
    }
  }

  lemma {:induction false} MapHolds(ps: seq<Pair>, key: Bytes)
    ensures key in ToMap(ps) ==> (key, ToMap(ps)[key]) in ps
    ensures DistinctKeys(ps) ==> forall k :: 0 <= k < |ps| && ps[k].0 == key ==>
      key in ToMap(ps) && ToMap(ps)[key] == ps[k].1
  {
    if ps != [] {
      MapHolds(ps[..|ps| - 1], key);
    }
  }

  /** Main result: a reply decodes to the map it was made from exactly when no key and no
      value in it is empty; then it is followed by more == false and nothing else. */
  lemma ValsRoundTripIffNoneEmpty(kvs: seq<Pair>)
    requires PairsFit(kvs) && DistinctKeys(kvs)
    ensures NoneEmpty(kvs) ==> ValsReply(GetvalsBytes(kvs)) == Ok((ToMap(kvs), false), [])
    ensures NoneEmpty(kvs) <==> ValsReply(GetvalsBytes(kvs)).Ok? && ValsReply(GetvalsBytes(kvs)).value.0 == ToMap(kvs)
  {
    var body := Items(kvs) + [0];
    U32RoundTrip(|kvs|, body);
    ItemsSize(kvs);
    if NoneEmpty(kvs) {
      PairsRoundTrip(kvs, [0]);
    } else if ValsReply(GetvalsBytes(kvs)).Ok? && ValsReply(GetvalsBytes(kvs)).value.0 == ToMap(kvs) {
      var ps := ReadPairs(body, |kvs|).value;
      PairsInverse(body, |kvs|);
      forall k | 0 <= k < |kvs| ensures kvs[k] in ps {
        MapHolds(kvs, kvs[k].0);
        MapHolds(ps, kvs[k].0);
      }
      HoldingTakesRoom(kvs, ps);
      assert false;
    }
  }

  // ---------------------------------------------------------------------------
  // Measuring an encoded map

  lemma DropTwice(p: Bytes, a: nat, b: nat)
    requires a <= |p| && b <= |p[a..]|
    ensures p[a..][b..] == p[a + b..]
  {
  }

  /** Reads a length and advances over so many bytes, which fails past the end. */
  method SkipStr(cur: Bytes) returns (r: Parsed<nat>)
    ensures r.Ok? <==> ReadStr(cur).Ok?
    ensures r.Ok? ==> 4 + r.value <= |cur| && r.rest == cur[4 + r.value..] == ReadStr(cur).rest
  {
    var l := ReadU32(cur);
    if l.Fail? || |l.rest| < l.value {
      return Fail;
    }
    U32Inverse(cur);
    return Ok(l.value, l.rest[l.value..]);
  }

  /** One round of the loop of decode_str_str_map_to_bl: over a key and a value. */
  method SkipPair(cur: Bytes) returns (r: Parsed<nat>)
    ensures r.Ok? <==> ReadPair(cur).Ok?
    ensures r.Ok? ==> r.value <= |cur| && r.rest == cur[r.value..] == ReadPair(cur).rest
  {
    var l := SkipStr(cur);
    if l.Fail? {
      return Fail;
    }
    var len := 4 + l.value;
    var l' := SkipStr(l.rest);
    if l'.Fail? {
      return Fail;
    }
    DropTwice(cur, len, 4 + l'.value);
    len := len + (4 + l'.value);
    return Ok(len, l'.rest);
  }

  /** The loop of decode_str_str_map_to_bl. */
  method SkipPairs(p: Bytes, count: nat) returns (r: Parsed<nat>)
    ensures r.Ok? <==> ReadPairs(p, count).Ok?
    ensures r.Ok? ==> r.value <= |p| && r.rest == p[r.value..] == ReadPairs(p, count).rest
  {
    var n, cur := count, p;
    var len: nat := 0;
    ghost var done: seq<Pair>, all := [], ReadPairs(p, count);
    BehindNothing(all);
    while n > 0
      invariant len <= |p| && p[len..] == cur && Behind(done, ReadPairs(cur, n)) == all
    {
      PairsStep(done, cur, n);
      var l := SkipPair(cur);
      if l.Fail? {
        return Fail;
      }
      DropTwice(p, len, l.value);
      done := done + [ReadPair(cur).value];
      n, cur, len := n - 1, l.rest, len + l.value;
    }
    return Ok(len, cur);
  }

  /** decode_str_str_map_to_bl: the copy, and where the cursor is left.  On every byte string
      it fails exactly when decoding a map there does; otherwise it copies the encoded map,
      all of it and nothing else, and stands right behind it. */
  method SkipMap(p: Bytes) returns (r: Parsed<Bytes>)
    ensures r.Ok? <==> ReadMap(p).Ok?
    ensures r.Ok? ==> r.value + r.rest == p && r.rest == ReadMap(p).rest
    ensures r.Ok? ==> ReadMap(r.value) == Ok(ReadMap(p).value, [])
  {
    var count := ReadU32(p);
    if count.Fail? {
      return Fail;
    }
    U32Inverse(p);
    var skipped := SkipPairs(count.rest, count.value);
    if skipped.Fail? {
      return Fail;
    }
    DropTwice(p, 4, skipped.value);
    var len := 4 + skipped.value;
    CopyDecodes(p, len);
    return Ok(p[..len], skipped.rest);
  }

  lemma CopyDecodes(p: Bytes, len: nat)
    requires ReadMap(p).Ok? && len <= |p| && p[len..] == ReadMap(p).rest
    ensures ReadMap(p[..len]) == Ok(ReadMap(p).value, [])
  {
    var n, b1 := ReadU32(p).value, ReadU32(p).rest;
    var ps, rest := ReadPairs(b1, n).value, ReadMap(p).rest;
    U32Inverse(p);
    PairsInverse(b1, n);
    Regroup(U32(n), Pairs(ps), rest);
    assert p[..len] == U32(n) + Pairs(ps);
    U32RoundTrip(n, Pairs(ps));
    PairsRoundTrip(ps, []);
    assert Pairs(ps) + [] == Pairs(ps);
  }
}
