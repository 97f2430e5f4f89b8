/** Bytes, and numbers written in them lowest digit first. */
module Bytes {
  type Byte = x: int | 0 <= x < 256

  function Power(base: nat, k: nat): nat {
    if k == 0 then 1 else base * Power(base, k - 1)
  }

  /** The number whose digits, lowest first, are `ds`. */
  function Number(base: nat, ds: seq<nat>): nat {
    if ds == [] then 0 else ds[0] + base * Number(base, ds[1..])
  }

  /** The lowest `k` bytes of `v`, lowest first. */
  function LittleEndian(v: nat, k: nat): seq<Byte> {
    if k == 0 then [] else [v % 256] + LittleEndian(v / 256, k - 1)
  }

  lemma {:induction false} NumberSnoc(base: nat, ds: seq<nat>, d: nat)
    ensures Number(base, ds + [d]) == Number(base, ds) + d * Power(base, |ds|)
  {
    if ds == [] {
      assert ds + [d] == [d];
      assert Number(base, [d][1..]) == 0;
    } else {
      assert (ds + [d])[1..] == ds[1..] + [d];
      NumberSnoc(base, ds[1..], d);
      var p, n := Power(base, |ds| - 1), Number(base, ds[1..]);
      assert base * (n + d * p) == base * n + d * (base * p);
    }
  }

  function Value(bs: seq<Byte>): nat {
    Number(256, bs)
  }

  lemma {:induction false} ValueOfLittleEndian(v: nat, k: nat)
    requires v < Power(256, k)
    ensures |LittleEndian(v, k)| == k && Value(LittleEndian(v, k)) == v
  {
    if k > 0 {
      ValueOfLittleEndian(v / 256, k - 1);
      assert LittleEndian(v, k)[1..] == LittleEndian(v / 256, k - 1);
    }
  }

  lemma {:induction false} LittleEndianOfValue(bs: seq<Byte>)
    ensures Value(bs) < Power(256, |bs|) && LittleEndian(Value(bs), |bs|) == bs
  {
    if bs != [] {
      LittleEndianOfValue(bs[1..]);
      assert bs == [bs[0]] + bs[1..];
    }
  }

  function Flatten(chunks: seq<seq<Byte>>): seq<Byte> {
    if chunks == [] then [] else chunks[0] + Flatten(chunks[1..])
  }

  lemma {:induction false} FlattenSnoc(chunks: seq<seq<Byte>>, chunk: seq<Byte>)
    ensures Flatten(chunks + [chunk]) == Flatten(chunks) + chunk
  {
    var more := chunks + [chunk];
    if chunks == [] {
      assert more[1..] == [] && more[0] + [] == [] + chunk;
    } else {
      FlattenSnoc(chunks[1..], chunk);
      assert more[1..] == chunks[1..] + [chunk];
      assert chunks[0] + (Flatten(chunks[1..]) + chunk) == chunks[0] + Flatten(chunks[1..]) + chunk;
    }
  }
}
