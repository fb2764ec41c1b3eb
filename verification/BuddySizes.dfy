/** How a byte count is turned into a block order, in 64-bit words. */
module BuddySizes {
  const TOP_BIT: bv64 := 0x8000_0000_0000_0000

  /** Copies the highest set bit into every lower position. */
  function Smear(a: bv64): bv64 {
    var b := a | (a >> 1);
    var c := b | (b >> 2);
    var d := c | (c >> 4);
    var e := d | (d >> 8);
    var f := e | (e >> 16);
    f | (f >> 32)
  }

  function NextPow2(n: bv64): bv64 {
    Smear(n - 1) + 1
  }

  /** The position of the highest set bit, by halving the word. */
  function Fls(word: bv64): bv64 {
    var (n0, w0) := if word & 0xFFFF_FFFF_0000_0000 != 0 then (32, word >> 32) else (0, word);
    var (n1, w1) := if w0 & 0xFFFF_0000 != 0 then (n0 + 16, w0 >> 16) else (n0, w0);
    var (n2, w2) := if w1 & 0xFF00 != 0 then (n1 + 8, w1 >> 8) else (n1, w1);
    var (n3, w3) := if w2 & 0xF0 != 0 then (n2 + 4, w2 >> 4) else (n2, w2);
    var (n4, w4) := if w3 & 0xC != 0 then (n3 + 2, w3 >> 2) else (n3, w3);
    if w4 & 0x2 != 0 then n4 + 1 else n4
  }

  function SizeToOrder(size: bv64): bv64 {
    if size == 0 then 64
    else
      var order := Fls(NextPow2(size));
      if order < 4 then 0 else order - 4
  }

  /** The bytes in a block of order `k`. */
  function Bytes(k: bv64): bv64
    requires k < 60
  {
    16 << (k as bv6)
  }

  function Bit(k: bv64): bv64
    requires k < 64
  {
    1 << (k as bv6)
  }

  lemma Smeared(a: bv64)
    ensures Smear(a) >= a && (a < TOP_BIT ==> (Smear(a) + 1) >> 1 <= a)
    ensures Smear(a) & (Smear(a) + 1) == 0
    ensures a < TOP_BIT <==> Smear(a) < TOP_BIT
  {
  }

  lemma FlsIsLog(w: bv64)
    requires w != 0
    ensures Fls(w) < 64 && w >> (Fls(w) as bv6) == 1
  {
  }

  /** A word of ones followed by the bit above them. */
  lemma OneBit(g: bv64, w: bv64, k: bv64)
    requires g & w == 0 && w == g + 1 && k < 64 && w >> (k as bv6) == 1
    ensures w == Bit(k)
  {
  }

  lemma Shifted(k: bv64)
    requires 4 <= k < 64
    ensures Bytes(k - 4) == Bit(k)
  {
  }

  lemma HalfShift(k: bv64)
    requires 0 < k < 64
    ensures Bit(k) >> 1 == Bit(k - 1)
  {
  }

  lemma SmallShift(k: bv64)
    requires k < 4
    ensures Bit(k) <= 8 && Bytes(0) == 16
  {
  }

  lemma AllOnes(g: bv64)
    requires g >= TOP_BIT && g & (g + 1) == 0
    ensures g + 1 == 0
  {
  }

  lemma NotAllOnes(g: bv64)
    requires g < TOP_BIT
    ensures g + 1 != 0
  {
  }

  /** The last byte of a request of up to 2^63 bytes lies in a block of its order, but not in one of the order below. */
  lemma SmallOrder(size: bv64)
    requires size > 0 && size - 1 < TOP_BIT
    ensures SizeToOrder(size) < 60 && size - 1 <= Bytes(SizeToOrder(size)) - 1
    ensures SizeToOrder(size) > 0 ==> Bytes(SizeToOrder(size) - 1) <= size - 1
  {
    var g := Smear(size - 1);
    var w, k := g + 1, Fls(g + 1);
    Smeared(size - 1);
    NotAllOnes(g);
    FlsIsLog(w);
    OneBit(g, w, k);
    assert NextPow2(size) == w;
    hide *;
    if k >= 4 {
      Shifted(k);
      HalfShift(k);
      if k > 4 {
        Shifted(k - 1);
      }
    } else {
      SmallShift(k);
    }
  }

  /** Above 2^63 the power of two wraps to 0. */
  lemma LargeOrder(size: bv64)
    requires size > 0 && size - 1 >= TOP_BIT
    ensures SizeToOrder(size) == 0 && Bytes(0) == 16
  {
    Smeared(size - 1);
    AllOnes(Smear(size - 1));
    assert Fls(0) == 0;
  }

  /** The order of a request is the least whose blocks hold its last byte, exactly for requests of up to 2^63 bytes. */
  lemma OrderFits(size: bv64)
    requires size > 0
    ensures SizeToOrder(size) < 60
    ensures size - 1 <= Bytes(SizeToOrder(size)) - 1 <==> size - 1 < TOP_BIT
    ensures size - 1 < TOP_BIT && SizeToOrder(size) > 0 ==> Bytes(SizeToOrder(size) - 1) <= size - 1
  {
    hide SizeToOrder, Bytes;
    if size - 1 < TOP_BIT {
      SmallOrder(size);
    } else {
      LargeOrder(size);
    }
  }
}
