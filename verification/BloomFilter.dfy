/** The Bloom filter of an SSTable: two mixing hashes, combined for every probe. */
module BloomFilter {
  import opened Common

  function Hash1(key: bv64): bv64 {
    var a := key ^ (key >> 33);
    var b := a * 0xff51afd7ed558ccd;
    var c := b ^ (b >> 33);
    var d := c * 0xc4ceb9fe1a85ec53;
    d ^ (d >> 33)
  }

  function Hash2(key: bv64): bv64 {
    var a := !key + (key << 21);
    var b := a ^ (a >> 24);
    var c := (b + (b << 3)) + (b << 8);
    var d := c ^ (c >> 14);
    var e := (d + (d << 2)) + (d << 4);
    var f := e ^ (e >> 28);
    f + (f << 31)
  }

  /** A filter's bits, in 64-bit words, as they are written to and read from a file. */
  datatype Filter = Filter(bits: seq<bv64>, numBits: nat, numHashes: nat)

  ghost predicate WellFormed(f: Filter) { f.numBits > 0 && |f.bits| == (f.numBits + 63) / 64 }

  /** The bit that probe i of a key looks at; the sum wraps around at 2^64. */
  function Probe(key: nat, i: nat, numBits: nat): (r: nat)
    requires key < TWO64 && numBits > 0
    ensures r < numBits
  {
    var k := key as bv64;
    var step := (i % TWO64) as bv64;
    var sum := Hash1(k) + step * Hash2(k);
    (sum as nat) % numBits
  }

  /** The mixing functions are the 64-bit finalizer of MurmurHash3 and Wang's 64-bit hash: their values for 1 and
      for a key with bits in every byte, and the first probes of key 1 in a filter of 1000 bits. */
  lemma {:induction false} KnownValues()
    ensures Hash1(1) == 0xb456bcfc34c2cb2c && Hash2(1) == 0x5bca7c69b794f8ce
    ensures Hash1(0x0123456789abcdef) == 0x87cbfbfe89022cea && Hash2(0x0123456789abcdef) == 0x2a7c7e105d89d273
    ensures Probe(1, 0, 1000) == 604 && Probe(1, 1, 1000) == 530 && Probe(1, 2, 1000) == 72
  {
    assert (1 % TWO64) as bv64 == 1;
  }

  lemma {:induction false} OrExact(x: bv64, t: bv6, u: bv6)
    ensures (x | ((1 as bv64) << t)) & ((1 as bv64) << u) != 0 <==> x & ((1 as bv64) << u) != 0 || t == u
  {
  }

  /** The place of bit b in its word. */
  function Place(b: nat): bv6 { (b % 64) as bv6 }

  lemma {:induction false} PlaceBack(b: nat, i: nat)
    requires i == b % 64
    ensures Place(b) as nat == i
  {
  }

  predicate IsSet(bits: seq<bv64>, b: nat)
    requires b / 64 < |bits|
  {
    bits[b / 64] & ((1 as bv64) << Place(b)) != 0
  }

  function SetBit(bits: seq<bv64>, b: nat): (r: seq<bv64>)
    requires b / 64 < |bits|
    ensures |r| == |bits|
  {
    bits[b / 64 := bits[b / 64] | ((1 as bv64) << Place(b))]
  }

  /** Setting a bit sets it and touches no other. */
  lemma {:induction false} SetBitSets(bits: seq<bv64>, b: nat, c: nat)
    requires b / 64 < |bits| && c / 64 < |bits|
    ensures IsSet(SetBit(bits, b), c) <==> IsSet(bits, c) || c == b
  {
    hide Place;
    if b / 64 == c / 64 {
      OrExact(bits[b / 64], Place(b), Place(c));
      PlaceBack(b, b % 64);
      PlaceBack(c, c % 64);
    }
  }

  /** The first n probes of the key find their bit set. */
  ghost predicate Probed(f: Filter, key: nat, n: nat)
    requires WellFormed(f) && key < TWO64
  {
    forall i: nat :: i < n ==> IsSet(f.bits, Probe(key, i, f.numBits))
  }

  ghost predicate MayContain(f: Filter, key: nat)
    requires WellFormed(f) && key < TWO64
  {
    Probed(f, key, f.numHashes)
  }

  /** Contains says no exactly when some probe finds its bit clear. */
  method Contains(f: Filter, key: nat) returns (r: bool)
    requires WellFormed(f) && key < TWO64
    ensures r <==> MayContain(f, key)
  {
    hide Probe, IsSet;
    for i := 0 to f.numHashes
      invariant Probed(f, key, i)
    {
      if !IsSet(f.bits, Probe(key, i, f.numBits)) {
        return false;
      }
    }
    return true;
  }

  /** Some probe of one of the keys looks at bit c. */
  ghost predicate Marked(f: Filter, keys: set<nat>, c: nat)
    requires WellFormed(f)
  {
    exists k: nat, i: nat :: k in keys && k < TWO64 && i < f.numHashes && Probe(k, i, f.numBits) == c
  }

  /** Exactly the bits that probes of the keys look at are set. */
  ghost predicate Exact(f: Filter, keys: set<nat>) {
    && WellFormed(f) && (forall k :: k in keys ==> k < TWO64)
    && forall c: nat :: c < f.numBits ==> (IsSet(f.bits, c) <==> Marked(f, keys, c))
  }

  /** There are no false negatives; a false positive needs every probe to hit a bit of some key. */
  lemma {:induction false} MayContainIff(f: Filter, keys: set<nat>, key: nat)
    requires Exact(f, keys) && key < TWO64
    ensures key in keys ==> MayContain(f, key)
    ensures MayContain(f, key) <==> forall i: nat :: i < f.numHashes ==> Marked(f, keys, Probe(key, i, f.numBits))
  {
    hide Probe, IsSet;
  }

  /** The bits after the first n probes of a key are set. */
  ghost predicate HalfAdded(f: Filter, f': Filter, key: nat, n: nat)
    requires WellFormed(f) && WellFormed(f') && f'.numBits == f.numBits && key < TWO64
  {
    forall c: nat :: c < f.numBits ==>
      (IsSet(f'.bits, c) <==> IsSet(f.bits, c) || exists i: nat :: i < n && Probe(key, i, f.numBits) == c)
  }

  lemma {:induction false} AddProbe(f: Filter, f': Filter, key: nat, n: nat)
    requires WellFormed(f) && WellFormed(f') && f'.numBits == f.numBits && key < TWO64 && HalfAdded(f, f', key, n)
    ensures var f1 := f'.(bits := SetBit(f'.bits, Probe(key, n, f.numBits)));
            WellFormed(f1) && HalfAdded(f, f1, key, n + 1)
  {
    hide Probe, IsSet, SetBit;
    var b := Probe(key, n, f.numBits);
    var f1 := f'.(bits := SetBit(f'.bits, b));
    forall c: nat | c < f.numBits
      ensures IsSet(f1.bits, c) <==> IsSet(f.bits, c) || exists i: nat :: i < n + 1 && Probe(key, i, f.numBits) == c
    {
      SetBitSets(f'.bits, b, c);
      if exists i: nat :: i < n + 1 && Probe(key, i, f.numBits) == c {
        var i: nat :| i < n + 1 && Probe(key, i, f.numBits) == c;
        assert i < n || c == b;
      }
    }
  }

  lemma {:induction false} AddedExact(f: Filter, f': Filter, keys: set<nat>, key: nat)
    requires Exact(f, keys) && WellFormed(f') && f'.numBits == f.numBits && f'.numHashes == f.numHashes && key < TWO64
    requires HalfAdded(f, f', key, f.numHashes)
    ensures Exact(f', keys + {key})
  {
    hide Probe, IsSet;
    forall c: nat | c < f.numBits ensures IsSet(f'.bits, c) <==> Marked(f', keys + {key}, c) {
      if Marked(f, keys, c) {
        var k: nat, i: nat :| k in keys && k < TWO64 && i < f.numHashes && Probe(k, i, f.numBits) == c;
        assert k in keys + {key};
      }
      if Marked(f', keys + {key}, c) {
        var k: nat, i: nat :| k in keys + {key} && k < TWO64 && i < f.numHashes && Probe(k, i, f.numBits) == c;
        assert k == key || Marked(f, keys, c);
      }
    }
  }

  class Bloom {
    var filter: Filter
    ghost var keys: set<nat>

    ghost predicate Valid()
      reads this
    {
      Exact(filter, keys)
    }

    constructor (numBits: nat, numHashes: nat)
      requires numBits >= 64 && numHashes >= 1
      ensures Valid() && keys == {} && filter.numBits == numBits && filter.numHashes == numHashes
    {
      filter := Filter(seq((numBits + 63) / 64, _ => 0), numBits, numHashes);
      keys := {};
    }

    /** Adding a key sets the bits of its probes and no others. */
    method Add(key: nat)
      requires Valid() && key < TWO64
      modifies this
      ensures Valid() && keys == old(keys) + {key}
      ensures filter.numBits == old(filter.numBits) && filter.numHashes == old(filter.numHashes)
    {
      hide Probe, IsSet, SetBit, HalfAdded, Marked;
      AddsNothing(filter, key);
      for i := 0 to filter.numHashes
        invariant WellFormed(filter) && filter.numBits == old(filter.numBits)
        invariant filter.numHashes == old(filter.numHashes) && keys == old(keys)
        invariant HalfAdded(old(filter), filter, key, i)
      {
        AddProbe(old(filter), filter, key, i);
        var b := Probe(key, i, filter.numBits);
        filter := filter.(bits := SetBit(filter.bits, b));
      }
      AddedExact(old(filter), filter, keys, key);
      keys := keys + {key};
    }
  }

  lemma {:induction false} AddsNothing(f: Filter, key: nat)
    requires WellFormed(f) && key < TWO64
    ensures HalfAdded(f, f, key, 0)
  {
  }
}
