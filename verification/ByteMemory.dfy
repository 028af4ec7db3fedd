/** Byte-addressed memory with little-endian loads and stores. */
module ByteMemory {

  type Byte = b: nat | b < 0x100
  type Word16 = w: nat | w < 0x1_0000
  type Word32 = w: nat | w < 0x1_0000_0000
  type Word64 = w: nat | w < 0x1_0000_0000_0000_0000

  type Memory = int -> Byte

  /** The next multiple of 16 at or below an address. */
  function Down16(a: nat): (r: nat)
    ensures r <= a < r + 16 && r % 16 == 0
  {
    a - a % 16
  }

  /** Byte k of a number. */
  function ByteAt(v: nat, k: nat): Byte {
    if k == 0 then v % 0x100 else ByteAt(v / 0x100, k - 1)
  }

  function Limit(w: nat): nat { if w == 0 then 1 else 0x100 * Limit(w - 1) }

  function Load(m: Memory, a: int, w: nat): (v: nat)
    ensures v < Limit(w)
    decreases w
  {
    if w == 0 then 0 else m(a) + 0x100 * Load(m, a + 1, w - 1)
  }

  function Store(m: Memory, a: int, w: nat, v: nat): Memory {
    x => if a <= x < a + w then ByteAt(v, x - a) else m(x)
  }

  lemma Limits()
    ensures Limit(2) == 0x1_0000 && Limit(4) == 0x1_0000_0000 && Limit(8) == 0x1_0000_0000_0000_0000
  {
    assert Limit(2) == 0x100 * Limit(1) && Limit(3) == 0x100 * Limit(2) && Limit(4) == 0x100 * Limit(3);
    assert Limit(5) == 0x100 * Limit(4) && Limit(6) == 0x100 * Limit(5) && Limit(7) == 0x100 * Limit(6);
  }

  function Load16(m: Memory, a: int): Word16 { Limits(); Load(m, a, 2) }
  function Load32(m: Memory, a: int): Word32 { Limits(); Load(m, a, 4) }
  function Load64(m: Memory, a: int): Word64 { Limits(); Load(m, a, 8) }

  ghost predicate Same(m: Memory, n: Memory, lo: int, hi: int) {
    forall x :: lo <= x < hi ==> m(x) == n(x)
  }

  /** A load depends only on the bytes it reads. */
  lemma {:induction false} LoadSame(m: Memory, n: Memory, a: int, w: nat)
    requires Same(m, n, a, a + w)
    ensures Load(m, a, w) == Load(n, a, w)
    decreases w
  {
    if w == 0 {
    } else {
      LoadSame(m, n, a + 1, w - 1);
    }
  }

  lemma {:induction false} LoadBytes(m: Memory, a: int, w: nat, v: nat)
    requires v < Limit(w)
    requires forall x :: a <= x < a + w ==> m(x) == ByteAt(v, x - a)
    ensures Load(m, a, w) == v
    decreases w
  {
    if w == 0 {
    } else {
      assert m(a) == ByteAt(v, a - a);
      forall x | a + 1 <= x < a + 1 + (w - 1)
        ensures m(x) == ByteAt(v / 0x100, x - (a + 1))
      {
        assert m(x) == ByteAt(v, x - a);
      }
      LoadBytes(m, a + 1, w - 1, v / 0x100);
    }
  }

  /** A store is read back, every load apart from it reads what it did before, and no byte
      outside changes. */
  lemma Stored(m: Memory, a: int, w: nat, v: nat)
    requires v < Limit(w)
    ensures Load(Store(m, a, w, v), a, w) == v
    ensures forall b, u: nat :: b + u <= a || a + w <= b ==> Load(Store(m, a, w, v), b, u) == Load(m, b, u)
    ensures forall x :: x < a || a + w <= x ==> Store(m, a, w, v)(x) == m(x)
  {
    LoadBytes(Store(m, a, w, v), a, w, v);
    forall b, u: nat | b + u <= a || a + w <= b
      ensures Load(Store(m, a, w, v), b, u) == Load(m, b, u)
    {
      LoadSame(Store(m, a, w, v), m, b, u);
    }
  }

  /** A block of equally wide words, the first at the lowest address. */
  function StoreAll(m: Memory, a: int, w: nat, vs: seq<nat>): Memory
    decreases |vs|
  {
    if vs == [] then m else StoreAll(Store(m, a, w, vs[0]), a + w, w, vs[1..])
  }

  function LoadAll(m: Memory, a: int, w: nat, n: nat): (vs: seq<nat>)
    ensures |vs| == n && forall i :: 0 <= i < n ==> vs[i] < Limit(w)
    decreases n
  {
    if n == 0 then [] else [Load(m, a, w)] + LoadAll(m, a + w, w, n - 1)
  }

  lemma {:induction false} LoadAllSame(m: Memory, n: Memory, a: int, w: nat, k: nat)
    requires Same(m, n, a, a + w * k)
    ensures LoadAll(m, a, w, k) == LoadAll(n, a, w, k)
    decreases k
  {
    if k == 0 {
    } else {
      assert w * k == w + w * (k - 1);
      Product(w, k - 1);
      LoadSame(m, n, a, w);
      LoadAllSame(m, n, a + w, w, k - 1);
    }
  }

  lemma Product(w: nat, k: nat)
    ensures w * k >= 0
  {
  }

  lemma {:induction false} StoredAll(m: Memory, a: int, w: nat, vs: seq<nat>)
    requires forall i :: 0 <= i < |vs| ==> vs[i] < Limit(w)
    ensures LoadAll(StoreAll(m, a, w, vs), a, w, |vs|) == vs
    ensures forall x :: x < a || a + w * |vs| <= x ==> StoreAll(m, a, w, vs)(x) == m(x)
    decreases |vs|
  {
    if vs == [] {
    } else {
      var m1 := Store(m, a, w, vs[0]);
      var n := StoreAll(m1, a + w, w, vs[1..]);
      hide Store, Load, Limit;
      Stored(m, a, w, vs[0]);
      StoredAll(m1, a + w, w, vs[1..]);
      assert w * |vs| == w + w * |vs[1..]|;
      Product(w, |vs[1..]|);
      LoadSame(n, m1, a, w);
      assert [vs[0]] + vs[1..] == vs;
    }
  }
}
