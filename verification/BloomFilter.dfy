/** The Bloom filter: a packed array of 64-bit words probed by double hashing.  The two FNV
    hashes and the floating-point sizing are parameters. */
module BloomFilters {
  import opened Prelude

  const TWO_TO_64: nat := 0x1_0000_0000_0000_0000

  type uint64 = n: nat | n < TWO_TO_64

  /** The two hashes of an item. */
  type Hash = string -> (uint64, uint64)

  // ---------------------------------------------------------------- single bits of a word

  function Mask(b: nat): bv64
    requires b < 64
  {
    (1 as bv64) << b
  }

  /** The two word operations, named so that proofs can treat them as black boxes. */
  function And(w: bv64, m: bv64): bv64 {
    w & m
  }

  function Or(w: bv64, m: bv64): bv64 {
    w | m
  }

  predicate IsSet(w: bv64, b: nat)
    requires b < 64
  {
    And(w, Mask(b)) != 0
  }

  lemma MaskNonzero(b: nat)
    requires b < 64
    ensures Mask(b) != 0
  {
  }

  lemma MaskStep(b: nat)
    requires b < 63
    ensures Mask(b + 1) == Mask(b) << 1
  {
  }

  lemma ShiftBoth(x: bv64, y: bv64)
    ensures And(x, y) == 0 ==> And(x << 1, y << 1) == 0
    ensures And(1, x << 1) == 0
    ensures And(x << 1, 1) == 0
  {
  }

  lemma MaskZero()
    ensures Mask(0) == 1
  {
  }

  lemma {:induction false} MasksAreDisjoint(b: nat, c: nat)
    requires b < 64 && c < 64 && b != c
    ensures And(Mask(b), Mask(c)) == 0
  {
    hide Mask, And;
    MaskZero();
    if b == 0 {
      MaskStep(c - 1);
      ShiftBoth(Mask(c - 1), 0);
    } else if c == 0 {
      MaskStep(b - 1);
      ShiftBoth(Mask(b - 1), 0);
    } else {
      MaskStep(b - 1);
      MaskStep(c - 1);
      MasksAreDisjoint(b - 1, c - 1);
      ShiftBoth(Mask(b - 1), Mask(c - 1));
    }
  }

  lemma OrApart(w: bv64, x: bv64, y: bv64)
    requires And(x, y) == 0
    ensures And(Or(w, x), y) == And(w, y)
  {
  }

  lemma OrItself(w: bv64, x: bv64)
    requires x != 0
    ensures And(Or(w, x), x) != 0
  {
  }

  /** Setting bit `b` of a word sets that bit and changes no other. */
  lemma SetBit(w: bv64, b: nat, c: nat)
    requires b < 64 && c < 64
    ensures IsSet(Or(w, Mask(b)), c) <==> c == b || IsSet(w, c)
  {
    hide Mask, And, Or;
    if b == c {
      MaskNonzero(b);
      OrItself(w, Mask(b));
    } else {
      MasksAreDisjoint(b, c);
      OrApart(w, Mask(b), Mask(c));
    }
  }

  // ---------------------------------------------------------------- bits of the array

  /** Bit `p` of the packed words. */
  predicate BitAt(words: seq<bv64>, p: nat)
    requires p < 64 * |words|
  {
    IsSet(words[p / 64], p % 64)
  }

  /** The positions below `size` whose bit is set. */
  ghost function BitSet(words: seq<bv64>, size: nat): set<nat>
    requires size <= 64 * |words|
  {
    set p: nat | p < size && BitAt(words, p)
  }

  lemma SamePosition(p: nat, p': nat)
    requires p / 64 == p' / 64 && p % 64 == p' % 64
    ensures p == p'
  {
  }

  /** Or-ing one mask into one word adds exactly one position to the set. */
  lemma SetPosition(words: seq<bv64>, words': seq<bv64>, size: nat, p: nat)
    requires p < size <= 64 * |words| && p / 64 < |words|
    requires words' == words[p / 64 := Or(words[p / 64], Mask(p % 64))]
    ensures BitSet(words', size) == BitSet(words, size) + {p}
  {
    hide Mask, Or, IsSet;
    forall q: nat | q < size
      ensures BitAt(words', q) <==> q == p || BitAt(words, q)
    {
      SetBit(words[p / 64], p % 64, q % 64);
      if q / 64 == p / 64 && q % 64 == p % 64 {
        SamePosition(q, p);
      }
    }
  }

  lemma ZeroHasNoBit(b: nat)
    requires b < 64
    ensures !IsSet(0, b)
  {
  }

  // ---------------------------------------------------------------- index arithmetic

  function AddU64(x: uint64, y: uint64): uint64 { (x + y) % TWO_TO_64 }

  function MulU64(x: uint64, y: uint64): uint64 { (x * y) % TWO_TO_64 }

  /** The i-th probe, `(h1 + i*h2) % size` with wrap-around. */
  function Index(h: (uint64, uint64), i: uint64, size: uint64): (p: nat)
    requires size > 0
    ensures p < size
  {
    AddU64(h.0, MulU64(i, h.1)) % size
  }

  /** The wrap-arounds on the way do not matter: the probe is the exact `h1 + i*h2`, wrapped to
      64 bits once, modulo the size. */
  lemma IndexWrapsOnce(h: (uint64, uint64), i: uint64, size: uint64)
    requires size > 0
    ensures Index(h, i, size) == ((h.0 + i * h.1) % TWO_TO_64) % size
  {
    var x := i * h.1;
    SumWrapsOnce(h.0, x);
    assert MulU64(i, h.1) == x % TWO_TO_64;
  }

  lemma SumWrapsOnce(x: nat, y: nat)
    ensures (x + y % TWO_TO_64) % TWO_TO_64 == (x + y) % TWO_TO_64
  {
  }

  /** The positions of an item under `k` probes. */
  function Probes(h: (uint64, uint64), k: uint64, size: uint64): set<nat>
    requires size > 0
  {
    set i: nat | i < k :: Index(h, i, size)
  }

  /** The positions are those of the exact sums `h1 + i*h2` for i below `k`, wrapped once. */
  lemma ProbesAre(h: (uint64, uint64), k: uint64, size: uint64, p: nat)
    requires size > 0
    ensures p in Probes(h, k, size) <==> exists i: nat :: i < k && p == ((h.0 + i * h.1) % TWO_TO_64) % size
  {
    forall i: uint64 ensures Index(h, i, size) == ((h.0 + i * h.1) % TWO_TO_64) % size {
      IndexWrapsOnce(h, i, size);
    }
    hide Index;
    if p in Probes(h, k, size) {
      var i: nat :| i < k && p == Index(h, i, size);
      assert p == ((h.0 + i * h.1) % TWO_TO_64) % size;
    }
    if i: nat :| i < k && p == ((h.0 + i * h.1) % TWO_TO_64) % size {
      assert p == Index(h, i, size);
    }
  }

  lemma ProbesGrow(h: (uint64, uint64), i: uint64, size: uint64)
    requires size > 0 && i + 1 < TWO_TO_64
    ensures Probes(h, i + 1, size) == Probes(h, i, size) + {Index(h, i, size)}
  {
  }

  // ---------------------------------------------------------------- the filter

  /** What the floating-point formulas produce for an item count: a bit count and a probe count. */
  type Sizing = nat -> (uint64, uint64)

  const DEFAULT_ITEMS: nat := 1000000
  const MAX_PROBES: uint64 := 10

  /** Bit count and probe count for `n` expected items: no items means the default number, and
      the probe count is brought into 1..10. */
  function Dimensions(n: nat, sizing: Sizing): (uint64, uint64) {
    var raw := sizing(if n == 0 then DEFAULT_ITEMS else n);
    (raw.0, if raw.1 == 0 then 1 else if raw.1 > MAX_PROBES then MAX_PROBES else raw.1)
  }

  function Distance(x: int, y: int): nat {
    if x < y then y - x else x - y
  }

  /** The bit count is the computed one, and the probe count the nearest to the computed one
      among 1 to 10; no items count as the default number of them. */
  lemma DimensionsAreNearest(n: nat, sizing: Sizing, k: uint64)
    requires 1 <= k <= 10
    ensures var items := if n == 0 then 1000000 else n;
      && Dimensions(n, sizing).0 == sizing(items).0
      && 1 <= Dimensions(n, sizing).1 <= 10
      && Distance(sizing(items).1, Dimensions(n, sizing).1) <= Distance(sizing(items).1, k)
  {
  }

  /** What the constructor needs of the sizing for `n` items: at least one bit, and a bit count
      whose rounding up to whole words does not wrap. */
  predicate SizingFits(n: nat, sizing: Sizing) {
    0 < Dimensions(n, sizing).0 <= TWO_TO_64 - 64
  }

  /** A sizing fit for registries of every length. */
  ghost predicate SizingOk(sizing: Sizing) {
    forall n :: SizingFits(n, sizing)
  }

  class BloomFilter {
    var bits: array<bv64>
    var size: uint64
    var k: uint64
    const hash: Hash

    ghost predicate Valid()
      reads this
    {
      && 0 < size <= TWO_TO_64 - 64 && bits.Length == (size + 63) / 64
      && 1 <= k <= MAX_PROBES
    }

    /** The set of positions the packed words stand for. */
    ghost function Bits(): set<nat>
      reads this, bits
      requires Valid()
    {
      BitSet(bits[..], size)
    }

    /** The positions of an item. */
    function Positions(item: string): set<nat>
      reads this
      requires Valid()
    {
      Probes(hash(item), k, size)
    }

    constructor (n: nat, sizing: Sizing, hash: Hash)
      requires SizingFits(n, sizing)
      ensures Valid() && fresh(bits) && Bits() == {}
      ensures this.hash == hash && (size, k) == Dimensions(n, sizing)
    {
      var (m, probes) := Dimensions(n, sizing);
      this.hash, size, k := hash, m, probes;
      bits := new bv64[(m + 63) / 64](_ => 0);
      new;
      forall p: nat | p < size ensures !BitAt(bits[..], p) {
        ZeroHasNoBit(p % 64);
      }
    }

    method Add(item: string)
      requires Valid()
      modifies bits
      ensures Bits() == old(Bits()) + Positions(item)
    {
      hide Mask, Or, IsSet, Index;
      var h := hash(item);
      var i := 0;
      while i < k
        invariant i <= k
        invariant Bits() == old(Bits()) + Probes(h, i, size)
      {
        var index := Index(h, i, size);
        var wordIndex, bitIndex := index / 64, index % 64;
        ghost var before := bits[..];
        bits[wordIndex] := Or(bits[wordIndex], Mask(bitIndex));
        SetPosition(before, bits[..], size, index);
        ProbesGrow(h, i, size);
        i := i + 1;
      }
    }

    method Contains(item: string) returns (r: bool)
      requires Valid()
      ensures r <==> Positions(item) <= Bits()
    {
      hide Mask, And, Index;
      var h := hash(item);
      var i := 0;
      while i < k
        invariant i <= k
        invariant Probes(h, i, size) <= Bits()
      {
        var index := Index(h, i, size);
        ghost var p: nat := index;
        assert p in Positions(item);
        if And(bits[index / 64], Mask(index % 64)) == 0 {
          assert !BitAt(bits[..], p);
          return false;
        }
        assert BitAt(bits[..], p);
        ProbesGrow(h, i, size);
        i := i + 1;
      }
      r := true;
    }

    method Clear()
      requires Valid()
      modifies bits
      ensures Bits() == {}
    {
      var i := 0;
      while i < bits.Length
        invariant i <= bits.Length
        invariant forall j | 0 <= j < i :: bits[j] == 0
      {
        bits[i] := 0;
        i := i + 1;
      }
      forall p: nat | p < size ensures !BitAt(bits[..], p) {
        ZeroHasNoBit(p % 64);
      }
    }
  }

  // ---------------------------------------------------------------- whole runs

  datatype Op = Add(item: string) | Clear

  /** The position set after a run on an empty filter. */
  ghost function RunBits(ops: seq<Op>, hash: Hash, k: uint64, size: uint64): set<nat>
    requires size > 0
  {
    if ops == [] then {}
    else
      match ops[|ops| - 1]
      case Add(item) => RunBits(ops[..|ops| - 1], hash, k, size) + Probes(hash(item), k, size)
      case Clear => {}
  }

  /** The items added since the last `Clear`. */
  ghost function Added(ops: seq<Op>): set<string> {
    if ops == [] then {}
    else
      match ops[|ops| - 1]
      case Add(item) => Added(ops[..|ops| - 1]) + {item}
      case Clear => {}
  }

  ghost function AllProbes(items: set<string>, hash: Hash, k: uint64, size: uint64): set<nat>
    requires size > 0
  {
    set item, p | item in items && p in Probes(hash(item), k, size) :: p
  }

  lemma AllProbesNext(items: set<string>, item: string, hash: Hash, k: uint64, size: uint64)
    requires size > 0
    ensures AllProbes(items + {item}, hash, k, size) == AllProbes(items, hash, k, size) + Probes(hash(item), k, size)
  {
    hide Probes;
    forall p ensures p in AllProbes(items + {item}, hash, k, size) <==>
                     p in AllProbes(items, hash, k, size) || p in Probes(hash(item), k, size)
    {
      if p in AllProbes(items, hash, k, size) {
        var x :| x in items && p in Probes(hash(x), k, size);
        assert x in items + {item};
      }
      assert item in items + {item};
    }
  }

  lemma ProbesAreIncluded(items: set<string>, item: string, hash: Hash, k: uint64, size: uint64)
    requires size > 0 && item in items
    ensures Probes(hash(item), k, size) <= AllProbes(items, hash, k, size)
  {
  }

  /** After any run the set bits are exactly the positions of the items since the last
      `Clear`; so an answer is a false positive only when those positions cover the item. */
  lemma {:induction false} RunIsUnion(ops: seq<Op>, hash: Hash, k: uint64, size: uint64)
    requires size > 0
    ensures RunBits(ops, hash, k, size) == AllProbes(Added(ops), hash, k, size)
  {
    hide AllProbes, Probes;
    NoItemsNoProbes(hash, k, size);
    if ops != [] && ops[|ops| - 1].Add? {
      RunIsUnion(ops[..|ops| - 1], hash, k, size);
      AllProbesNext(Added(ops[..|ops| - 1]), ops[|ops| - 1].item, hash, k, size);
    }
  }

  lemma NoItemsNoProbes(hash: Hash, k: uint64, size: uint64)
    requires size > 0
    ensures AllProbes({}, hash, k, size) == {}
  {
  }

  /** No false negatives over any run. */
  lemma NoFalseNegative(ops: seq<Op>, item: string, hash: Hash, k: uint64, size: uint64)
    requires size > 0 && item in Added(ops)
    ensures Probes(hash(item), k, size) <= RunBits(ops, hash, k, size)
  {
    RunIsUnion(ops, hash, k, size);
    ProbesAreIncluded(Added(ops), item, hash, k, size);
  }
}
