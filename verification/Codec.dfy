/** The wire form of a spilled event and the order-preserving cluster key
    (crates/mlake-index/src/streaming.rs:144-208, 784-793). The serialization of a memory and of a list
    of deltas is a library's; here it is any pair of functions that round-trip. */
module Codec {
  import opened Memories
  import opened Streaming

  type Byte = b: int | 0 <= b < 256

  function Pow256(k: nat): nat {
    if k == 0 then 1 else 256 * Pow256(k - 1)
  }

  // ---- Little-endian sequence numbers ---------------------------------------------------------------------

  function ToLe(n: nat, k: nat): (r: seq<Byte>)
    ensures |r| == k
  {
    if k == 0 then [] else [n % 256] + ToLe(n / 256, k - 1)
  }

  function FromLe(bs: seq<Byte>): nat {
    if bs == [] then 0 else bs[0] + 256 * FromLe(bs[1..])
  }

  lemma {:induction false} LeRoundTrip(n: nat, k: nat)
    requires n < Pow256(k)
    ensures FromLe(ToLe(n, k)) == n
  {
    if k > 0 {
      LeRoundTrip(n / 256, k - 1);
      assert ToLe(n, k)[1..] == ToLe(n / 256, k - 1);
    }
  }

  // ---- Events -----------------------------------------------------------------------------------------------

  const EV_PREVGEN: Byte := 0
  const EV_UPSERT: Byte := 1
  const EV_TOMBSTONE: Byte := 2
  const EV_PATCH: Byte := 3

  datatype Serde = Serde(
    item: StoredMemory -> seq<Byte>,
    readItem: seq<Byte> -> Option<StoredMemory>,
    deltas: seq<Delta> -> seq<Byte>,
    readDeltas: seq<Byte> -> Option<seq<Delta>>)
  {
    ghost predicate RoundTrips() {
      && (forall m :: readItem(item(m)) == Some(m))
      && (forall ds :: readDeltas(deltas(ds)) == Some(ds))
    }
  }

  datatype Decoded = Ok(event: IdEvent) | Truncated | BadItem | BadPatch | BadTag

  /** `prevGen` distinguishes a previous generation's item from an upsert on the wire only. */
  function Encode(s: Serde, e: IdEvent, prevGen: bool): seq<Byte> {
    match e.change
    case Item(m) => [if prevGen then EV_PREVGEN else EV_UPSERT] + ToLe(e.at, 8) + s.item(m)
    case Gone => [EV_TOMBSTONE] + ToLe(e.at, 8)
    case Patched(ds) => [EV_PATCH] + ToLe(e.at, 8) + s.deltas(ds)
  }

  function Decode(s: Serde, val: seq<Byte>): Decoded {
    if |val| < 9 then Truncated
    else
      var at, body := FromLe(val[1..9]), val[9..];
      if val[0] == EV_PREVGEN || val[0] == EV_UPSERT then
        (match s.readItem(body) case Some(m) => Ok(IdEvent(at, Item(m))) case None => BadItem)
      else if val[0] == EV_TOMBSTONE then Ok(IdEvent(at, Gone))
      else if val[0] == EV_PATCH then
        (match s.readDeltas(body) case Some(ds) => Ok(IdEvent(at, Patched(ds))) case None => BadPatch)
      else BadTag
  }

  /** Any framed value decodes by its tag and body. */
  lemma DecodeFramed(s: Serde, tag: Byte, at: nat, body: seq<Byte>)
    requires at < Pow256(8)
    ensures var val := [tag] + ToLe(at, 8) + body;
            |val| >= 9 && val[0] == tag && FromLe(val[1..9]) == at && val[9..] == body
  {
    var val := [tag] + ToLe(at, 8) + body;
    assert val[1..9] == ToLe(at, 8);
    LeRoundTrip(at, 8);
  }

  /** Reading back a spilled event gives the event, for every sequence a 64-bit log can have. */
  lemma EventRoundTrip(s: Serde, e: IdEvent, prevGen: bool)
    requires s.RoundTrips() && e.at < Pow256(8)
    ensures Decode(s, Encode(s, e, prevGen)) == Ok(e)
  {
    match e.change
    case Item(m) => DecodeFramed(s, if prevGen then EV_PREVGEN else EV_UPSERT, e.at, s.item(m));
    case Gone =>
      DecodeFramed(s, EV_TOMBSTONE, e.at, []);
      assert [EV_TOMBSTONE] + ToLe(e.at, 8) + [] == [EV_TOMBSTONE] + ToLe(e.at, 8);
    case Patched(ds) => DecodeFramed(s, EV_PATCH, e.at, s.deltas(ds));
  }

  lemma {:induction false} BytesRoundTrip(bs: seq<Byte>)
    ensures ToLe(FromLe(bs), |bs|) == bs
  {
    if bs != [] {
      BytesRoundTrip(bs[1..]);
      var n := FromLe(bs[1..]);
      FirstByte(bs[0], n);
      assert bs == [bs[0]] + bs[1..];
    }
  }

  lemma FirstByte(b: Byte, n: nat)
    ensures (b + 256 * n) % 256 == b && (b + 256 * n) / 256 == n
  {
  }

  /** What decodes is a frame: a known tag for the kind of change, the sequence in eight bytes, then the
      body; anything shorter or with another tag is refused by its own name. */
  lemma DecodedIsFrame(s: Serde, val: seq<Byte>)
    ensures Decode(s, val).Truncated? <==> |val| < 9
    ensures Decode(s, val).BadTag? <==> |val| >= 9 && val[0] > 3
    ensures Decode(s, val).Ok? ==>
              var e := Decode(s, val).event;
              && val[1..9] == ToLe(e.at, 8)
              && (val[0] == 0 || val[0] == 1 <==> e.change.Item?) && (val[0] == 2 <==> e.change.Gone?)
              && (val[0] == 3 <==> e.change.Patched?)
  {
    if |val| >= 9 { BytesRoundTrip(val[1..9]); }
  }

  // ---- Cluster keys -----------------------------------------------------------------------------------------

  function ToBe(n: nat, k: nat): (r: seq<Byte>)
    ensures |r| == k
  {
    if k == 0 then [] else ToBe(n / 256, k - 1) + [n % 256]
  }

  /** Byte-wise comparison, as keys compare in the external sort. */
  predicate LexLe(a: seq<Byte>, b: seq<Byte>) {
    a == [] || (b != [] && (a[0] < b[0] || (a[0] == b[0] && LexLe(a[1..], b[1..]))))
  }

  lemma {:induction false} LexSnoc(a: seq<Byte>, b: seq<Byte>, x: Byte, y: Byte)
    requires |a| == |b|
    ensures LexLe(a + [x], b + [y]) <==> if a == b then x <= y else LexLe(a, b)
  {
    if a == [] {
      assert a + [x] == [x] && b + [y] == [y];
    } else {
      assert (a + [x])[1..] == a[1..] + [x] && (b + [y])[1..] == b[1..] + [y];
      LexSnoc(a[1..], b[1..], x, y);
      assert a == b <==> a[0] == b[0] && a[1..] == b[1..] by {
        assert a == [a[0]] + a[1..] && b == [b[0]] + b[1..];
      }
    }
  }

  lemma {:induction false} BeInjective(m: nat, n: nat, k: nat)
    requires m < Pow256(k) && n < Pow256(k) && ToBe(m, k) == ToBe(n, k)
    ensures m == n
  {
    if k > 0 {
      var a, b := ToBe(m / 256, k - 1), ToBe(n / 256, k - 1);
      assert (a + [m % 256])[..k - 1] == a && (b + [n % 256])[..k - 1] == b;
      assert (a + [m % 256])[k - 1] == (b + [n % 256])[k - 1];
      BeInjective(m / 256, n / 256, k - 1);
    }
  }

  lemma {:induction false} BeOrder(m: nat, n: nat, k: nat)
    requires m < Pow256(k) && n < Pow256(k)
    ensures LexLe(ToBe(m, k), ToBe(n, k)) <==> m <= n
  {
    if k > 0 {
      var a, b := ToBe(m / 256, k - 1), ToBe(n / 256, k - 1);
      BeOrder(m / 256, n / 256, k - 1);
      LexSnoc(a, b, m % 256, n % 256);
      if a == b { BeInjective(m / 256, n / 256, k - 1); }
    }
  }

  /** Big-endian in the low eight of sixteen bytes. */
  function ClusterKey(c: nat): seq<Byte> {
    ToBe(0, 8) + ToBe(c, 8)
  }

  lemma {:induction false} LexSamePrefix(p: seq<Byte>, a: seq<Byte>, b: seq<Byte>)
    ensures LexLe(p + a, p + b) <==> LexLe(a, b)
  {
    if p == [] {
      assert p + a == a && p + b == b;
    } else {
      assert (p + a)[1..] == p[1..] + a && (p + b)[1..] == p[1..] + b;
      LexSamePrefix(p[1..], a, b);
    }
  }

  /** Sorting by key bytes sorts by cluster number, and different clusters have different keys. */
  lemma ClusterKeysKeepOrder(c: nat, d: nat)
    requires c < Pow256(8) && d < Pow256(8)
    ensures LexLe(ClusterKey(c), ClusterKey(d)) <==> c <= d
    ensures ClusterKey(c) == ClusterKey(d) <==> c == d
  {
    LexSamePrefix(ToBe(0, 8), ToBe(c, 8), ToBe(d, 8));
    BeOrder(c, d, 8);
    if ClusterKey(c) == ClusterKey(d) {
      assert ClusterKey(c)[8..] == ToBe(c, 8) && ClusterKey(d)[8..] == ToBe(d, 8);
      BeInjective(c, d, 8);
    }
  }
}
