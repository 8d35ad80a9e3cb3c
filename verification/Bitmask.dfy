/**
  The 64-bit masks of internal/pmm/ac.c: one bit per pattern id below 64. The expressions of the
  source (1ULL << p, |, & ~, b & (b - 1), count trailing zeros) are related here, once, to the set
  of bits they stand for, so that the matcher itself reasons about bits only.
 */
module Bitmask {
  const WIDTH: nat := 64

  type Mask = bv64
  type Place = bv6

  predicate Bit(m: Mask, k: Place) {
    (m >> k) & 1 == 1
  }

  function At(k: Place): Mask {
    (1 as Mask) << k
  }

  /** The lowest set bit of m on its own. */
  function Lowest(m: Mask): Mask {
    m & !(m - 1)
  }

  // ----- facts about one place; each is a pure bit-vector goal

  lemma OrBit(a: Mask, b: Mask, k: Place)
    ensures Bit(a | b, k) <==> Bit(a, k) || Bit(b, k)
  {
  }

  lemma AndNotBit(a: Mask, b: Mask, k: Place)
    ensures Bit(a & !b, k) <==> Bit(a, k) && !Bit(b, k)
  {
  }

  lemma AtBit(k: Place, l: Place)
    ensures Bit(At(k), l) <==> k == l
  {
  }

  lemma ClearBit(m: Mask, k: Place, l: Place)
    requires m != 0 && Lowest(m) == At(k)
    ensures Bit(m & (m - 1), l) <==> Bit(m, l) && l != k
  {
  }

  lemma LowestBit(m: Mask, k: Place, l: Place)
    requires m != 0 && Lowest(m) == At(k)
    ensures Bit(m, k) && (Bit(m, l) ==> k <= l)
  {
  }

  lemma ClearDecreases(m: Mask)
    requires m != 0
    ensures m & (m - 1) < m
  {
  }

  lemma LowestIsOneHot(m: Mask)
    requires m != 0
    ensures Lowest(m) != 0 && Lowest(m) & (Lowest(m) - 1) == 0
  {
  }

  // The place of a one-hot mask, by the six sieves of the usual bit trick.
  function Sieve(u: Mask, sieve: Mask, weight: Place): Place {
    if u & sieve != 0 then weight else 0
  }

  function Index(u: Mask): Place {
    Sieve(u, 0xAAAA_AAAA_AAAA_AAAA, 1) | Sieve(u, 0xCCCC_CCCC_CCCC_CCCC, 2) |
    Sieve(u, 0xF0F0_F0F0_F0F0_F0F0, 4) | Sieve(u, 0xFF00_FF00_FF00_FF00, 8) |
    Sieve(u, 0xFFFF_0000_FFFF_0000, 16) | Sieve(u, 0xFFFF_FFFF_0000_0000, 32)
  }

  lemma IndexInverts(u: Mask)
    requires u != 0 && u & (u - 1) == 0
    ensures At(Index(u)) == u
  {
  }

  // ----- bit numbers

  ghost function PlaceOf(p: nat): (k: Place)
    requires p < WIDTH
    ensures k as int == p
  {
    PlaceExists(p, p as Place);
    var k: Place :| (k as int) == p;
    k
  }

  lemma PlaceExists(p: nat, k: Place)
    requires p < WIDTH && k == p as Place
    ensures k as int == p
  {
  }

  lemma PlaceOrder(k: Place, l: Place)
    ensures (k as int) < WIDTH
    ensures k <= l <==> k as int <= l as int
    ensures k == l <==> k as int == l as int
  {
  }

  /** Bit p of m. */
  ghost predicate Has(m: Mask, p: nat)
    requires p < WIDTH
  {
    Bit(m, PlaceOf(p))
  }

  ghost function Unit(p: nat): Mask
    requires p < WIDTH
  {
    At(PlaceOf(p))
  }

  /** 1ULL << p is the mask with bit p alone. */
  lemma ShiftIsUnit(p: nat)
    requires p < WIDTH
    ensures (1 as Mask) << p == Unit(p)
  {
    PlaceExists(p, p as Place);
    assert p as Place == PlaceOf(p);
  }

  lemma HasZero(p: nat)
    requires p < WIDTH
    ensures !Has(0, p)
  {
  }

  lemma HasOr(a: Mask, b: Mask, p: nat)
    requires p < WIDTH
    ensures Has(a | b, p) <==> Has(a, p) || Has(b, p)
  {
    OrBit(a, b, PlaceOf(p));
  }

  lemma HasAndNot(a: Mask, b: Mask, p: nat)
    requires p < WIDTH
    ensures Has(a & !b, p) <==> Has(a, p) && !Has(b, p)
  {
    AndNotBit(a, b, PlaceOf(p));
  }

  lemma HasUnit(p: nat, q: nat)
    requires p < WIDTH && q < WIDTH
    ensures Has(Unit(p), q) <==> p == q
  {
    AtBit(PlaceOf(p), PlaceOf(q));
  }

  /** __builtin_ctzll: the least bit number set in m. */
  function CountTrailingZeros(m: Mask): (p: nat)
    requires m != 0
    ensures p < WIDTH && Has(m, p)
    ensures forall q: nat :: q < WIDTH && Has(m, q) ==> p <= q
  {
    TrailingZeros(m);
    Index(Lowest(m)) as int
  }

  lemma TrailingZeros(m: Mask)
    requires m != 0
    ensures var p := Index(Lowest(m)) as int;
            && p < WIDTH && Unit(p) == Lowest(m) && Has(m, p)
            && forall q: nat :: q < WIDTH && Has(m, q) ==> p <= q
  {
    LowestIsOneHot(m);
    IndexInverts(Lowest(m));
    LowestPlace(m, Index(Lowest(m)));
  }

  lemma LowestPlace(m: Mask, k: Place)
    requires m != 0 && At(k) == Lowest(m)
    ensures (k as int) < WIDTH && Unit(k as int) == Lowest(m) && Has(m, k as int)
    ensures forall q: nat :: q < WIDTH && Has(m, q) ==> k as int <= q
  {
    PlaceOrder(k, k);
    PlaceOrder(k, PlaceOf(k as int));
    LowestBit(m, k, k);
    forall q: nat | q < WIDTH && Has(m, q)
      ensures k as int <= q
    {
      LowestBit(m, k, PlaceOf(q));
      PlaceOrder(k, PlaceOf(q));
    }
  }

  /** b & (b - 1) drops exactly the bit that CountTrailingZeros names. */
  lemma ClearDropsLowest(m: Mask, q: nat)
    requires m != 0 && q < WIDTH
    ensures Has(m & (m - 1), q) <==> Has(m, q) && q != CountTrailingZeros(m)
  {
    TrailingZeros(m);
    ClearDropsUnit(m, CountTrailingZeros(m), q);
  }

  lemma ClearDropsUnit(m: Mask, p: nat, q: nat)
    requires m != 0 && p < WIDTH && q < WIDTH && Unit(p) == Lowest(m)
    ensures Has(m & (m - 1), q) <==> Has(m, q) && q != p
  {
    ClearBit(m, PlaceOf(p), PlaceOf(q));
  }

  // ----- masks as sets of bit numbers

  ghost function Ids(m: Mask): (s: set<nat>) {
    set p: nat | p < WIDTH && Has(m, p)
  }

  lemma IdsZero()
    ensures Ids(0) == {}
  {
    forall p: nat | p < WIDTH
      ensures !Has(0, p)
    {
      HasZero(p);
    }
  }

  lemma IdsOr(a: Mask, b: Mask)
    ensures Ids(a | b) == Ids(a) + Ids(b)
  {
    forall p: nat | p < WIDTH
      ensures Has(a | b, p) <==> Has(a, p) || Has(b, p)
    {
      HasOr(a, b, p);
    }
  }

  lemma IdsAndNot(a: Mask, b: Mask)
    ensures Ids(a & !b) == Ids(a) - Ids(b)
  {
    forall p: nat | p < WIDTH
      ensures Has(a & !b, p) <==> Has(a, p) && !Has(b, p)
    {
      HasAndNot(a, b, p);
    }
  }

  lemma IdsShift(p: nat)
    requires p < WIDTH
    ensures Ids((1 as Mask) << p) == {p}
  {
    ShiftIsUnit(p);
    forall q: nat | q < WIDTH
      ensures Has(Unit(p), q) <==> q == p
    {
      HasUnit(p, q);
    }
  }

  lemma IdsEmpty(m: Mask)
    ensures Ids(m) == {} <==> m == 0
  {
    IdsZero();
    if m != 0 {
      assert CountTrailingZeros(m) in Ids(m);
    }
  }

  lemma IdsLess(m: Mask, r: Mask, p: nat)
    requires p < WIDTH && forall q: nat :: q < WIDTH ==> (Has(r, q) <==> Has(m, q) && q != p)
    ensures Ids(r) == Ids(m) - {p}
  {
  }

  lemma IdsLeast(m: Mask)
    requires m != 0
    ensures CountTrailingZeros(m) in Ids(m)
    ensures forall q :: q in Ids(m) ==> CountTrailingZeros(m) <= q
  {
    TrailingZeros(m);
  }

  lemma IdsClear(m: Mask)
    requires m != 0
    ensures Ids(m & (m - 1)) == Ids(m) - {CountTrailingZeros(m)}
  {
    forall q: nat | q < WIDTH
      ensures Has(m & (m - 1), q) <==> Has(m, q) && q != CountTrailingZeros(m)
    {
      ClearDropsLowest(m, q);
    }
    IdsLess(m, m & (m - 1), CountTrailingZeros(m));
  }

  /** A mask is known by its ids. */
  lemma IdsInjective(a: Mask, b: Mask)
    requires Ids(a) == Ids(b)
    ensures a == b
  {
    IdsAndNot(a, b);
    IdsAndNot(b, a);
    IdsEmpty(a & !b);
    IdsEmpty(b & !a);
    SameBits(a, b);
  }

  lemma SameBits(a: Mask, b: Mask)
    requires a & !b == 0 && b & !a == 0
    ensures a == b
  {
  }

  lemma OneBit(p: nat) returns (b: Mask)
    requires p < WIDTH
    ensures Ids(b) == {p}
  {
    IdsShift(p);
    b := (1 as Mask) << p;
  }

  lemma MaskExists(s: set<nat>) returns (m: Mask)
    requires forall p :: p in s ==> p < WIDTH
    ensures Ids(m) == s
  {
    if p :| p in s {
      var rest := MaskExists(s - {p});
      var b := OneBit(p);
      IdsOr(rest, b);
      m := rest | b;
      assert s - {p} + {p} == s;
    } else {
      IdsZero();
      m := 0;
    }
  }

  ghost predicate HasIds(m: Mask, s: set<nat>) {
    Ids(m) == s
  }

  lemma SomeMask(s: set<nat>)
    requires forall p :: p in s ==> p < WIDTH
    ensures exists m :: HasIds(m, s)
  {
    var m := MaskExists(s);
    assert HasIds(m, s);
  }

  /** The mask with the ids of a set. */
  ghost function MaskOf(s: set<nat>): (m: Mask)
    requires forall p :: p in s ==> p < WIDTH
    ensures Ids(m) == s
  {
    SomeMask(s);
    var m :| HasIds(m, s);
    m
  }

  lemma IsMaskOf(m: Mask, s: set<nat>)
    requires Ids(m) == s
    ensures m == MaskOf(s)
  {
    IdsInjective(m, MaskOf(s));
  }

  // ----- the operations of the matcher, by what they do to the set of ids

  /** m | (1ULL << p) */
  method WithBit(m: Mask, p: nat) returns (r: Mask)
    requires p < WIDTH
    ensures Ids(r) == Ids(m) + {p}
  {
    IdsShift(p);
    IdsOr(m, (1 as Mask) << p);
    r := m | ((1 as Mask) << p);
  }

  /** a | b */
  method Union(a: Mask, b: Mask) returns (r: Mask)
    ensures Ids(r) == Ids(a) + Ids(b)
  {
    IdsOr(a, b);
    r := a | b;
  }

  /** a & ~b */
  method Difference(a: Mask, b: Mask) returns (r: Mask)
    ensures Ids(r) == Ids(a) - Ids(b)
  {
    IdsAndNot(a, b);
    r := a & !b;
  }

  /** The least id of m, and m without it. */
  method TakeLowest(m: Mask) returns (p: nat, r: Mask)
    requires m != 0
    ensures p < WIDTH && p in Ids(m) && forall q :: q in Ids(m) ==> p <= q
    ensures Ids(r) == Ids(m) - {p} && r < m
  {
    IdsLeast(m);
    IdsClear(m);
    ClearDecreases(m);
    p := CountTrailingZeros(m);
    r := m & (m - 1);
  }
}
