/** The simulators' data memory: a sparse dictionary from Python integer
    addresses to byte values, written by `store_byte`/`store_halfword`/
    `store_word` (least-significant byte first) and read by the `load_*`
    helpers, which treat a missing address as 0. The three drafts share this
    code; rv32i_simulator_v1.py spells the halfword sign extension
    differently, and `LoadHalfwordEarly` models its form. */
module Memory {
  import opened PyInt

  /** Every stored value is a byte: `store_byte` masks with 0xFF. */
  predicate ValidBytes(m: map<int, int>)
  {
    forall a :: a in m ==> 0 <= m[a] < 0x100
  }

  // ---------------------------------------------------------------------
  // The stores, as functions of the dictionary before the call.

  /** `memory[address] = value & 0xFF`. */
  function ByteStored(m: map<int, int>, address: int, value: int): map<int, int>
  {
    m[address := Mask8(value)]
  }

  /** `store_halfword`: two `store_byte` calls, low byte first. */
  function HalfwordStored(m: map<int, int>, address: int, value: int): map<int, int>
  {
    var m1 := ByteStored(m, address, Mask8(value));
    ByteStored(m1, address + 1, Mask8(Shr(value, 8)))
  }

  /** `store_word`: four `store_byte` calls, low byte first. */
  function WordStored(m: map<int, int>, address: int, value: int): map<int, int>
  {
    var m1 := ByteStored(m, address, Mask8(value));
    var m2 := ByteStored(m1, address + 1, Mask8(Shr(value, 8)));
    var m3 := ByteStored(m2, address + 2, Mask8(Shr(value, 16)));
    ByteStored(m3, address + 3, Mask8(Shr(value, 24)))
  }

  // ---------------------------------------------------------------------
  // The loads.

  /** `memory.get(address, 0)`: an address never written reads as 0. */
  function LoadByte(m: map<int, int>, address: int): (r: int)
    ensures address !in m ==> r == 0
    ensures ValidBytes(m) ==> 0 <= r < 0x100
  {
    if address in m then m[address] else 0
  }

  /** `load_halfword_unsigned`: `(byte2 << 8) | byte1`. */
  function LoadHalfwordUnsigned(m: map<int, int>, address: int): int
  {
    Or(Shl(LoadByte(m, address + 1), 8), LoadByte(m, address))
  }

  /** `load_halfword` of finalGUI/backend_gui.py and store_load.py: the same
      combination, or-ed with 0xFFFF0000 when bit 15 is set. */
  function LoadHalfword(m: map<int, int>, address: int): int
  {
    var value := Or(Shl(LoadByte(m, address + 1), 8), LoadByte(m, address));
    if BitSet(value, 15) then Or(value, 0xFFFF_0000) else value
  }

  /** `load_halfword` of rv32i_simulator_v1.py: the test is on the high byte. */
  function LoadHalfwordEarly(m: map<int, int>, address: int): int
  {
    var byte1 := LoadByte(m, address);
    var byte2 := LoadByte(m, address + 1);
    var value := Or(Shl(byte2, 8), byte1);
    if byte2 < 0x80 then value else Or(value, 0xFFFF_0000)
  }

  /** `load_word`: `(byte4 << 24) | (byte3 << 16) | (byte2 << 8) | byte1`. */
  function LoadWord(m: map<int, int>, address: int): int
  {
    Or(Or(Or(Shl(LoadByte(m, address + 3), 24), Shl(LoadByte(m, address + 2), 16)),
          Shl(LoadByte(m, address + 1), 8)),
       LoadByte(m, address))
  }

  /** The LB extension of finalGUI/backend_gui.py and store_load.py:
      `if byte & 0x80: byte |= 0xFFFFFF00`. */
  function SignExtendByte(b: int): int
  {
    if BitSet(b, 7) then Or(b, 0xFFFF_FF00) else b
  }

  /** The LB extension of rv32i_simulator_v1.py:
      `byte if byte < 0x80 else byte | 0xFFFFFF00`. */
  function SignExtendByteEarly(b: int): int
  {
    if b < 0x80 then b else Or(b, 0xFFFF_FF00)
  }

  // ---------------------------------------------------------------------
  // What the loads compute.

  /** Or-ing a byte-aligned high part with a byte is addition. */
  lemma ByteJoin(hi: int, lo: int)
    requires 0 <= lo < 0x100
    ensures Or(Shl(hi, 8), lo) == hi * 0x100 + lo
  {
    Pow2Table();
    OrDisjoint(hi, lo, 8);
  }

  /** A halfword is its low byte plus 256 times its high byte, and is never
      sign-extended by load_halfword_unsigned. */
  lemma HalfwordValue(m: map<int, int>, address: int)
    requires ValidBytes(m)
    ensures LoadHalfwordUnsigned(m, address)
         == LoadByte(m, address) + 0x100 * LoadByte(m, address + 1)
    ensures 0 <= LoadHalfwordUnsigned(m, address) < 0x1_0000
  {
    ByteJoin(LoadByte(m, address + 1), LoadByte(m, address));
  }

  /** A word is its four bytes, least significant first. */
  lemma WordValue(m: map<int, int>, address: int)
    requires ValidBytes(m)
    ensures LoadWord(m, address)
         == LoadByte(m, address) + 0x100 * LoadByte(m, address + 1)
          + 0x1_0000 * LoadByte(m, address + 2) + 0x100_0000 * LoadByte(m, address + 3)
    ensures 0 <= LoadWord(m, address) < TWO32
  {
    var b0, b1 := LoadByte(m, address), LoadByte(m, address + 1);
    var b2, b3 := LoadByte(m, address + 2), LoadByte(m, address + 3);
    Pow2Table();
    Pow2Add(8, 16);
    Pow2Add(8, 8);
    // (b3 << 24) | (b2 << 16)
    assert Shl(b3, 24) == (b3 * Pow2(8)) * Pow2(16);
    BitwiseShifted(OrOp, b3 * Pow2(8), b2, 16);
    OrDisjoint(b3, b2, 8);
    var hi := b3 * 0x100 + b2;
    assert Or(Shl(b3, 24), Shl(b2, 16)) == hi * Pow2(16);
    // ... | (b1 << 8)
    assert hi * Pow2(16) == (hi * Pow2(8)) * Pow2(8);
    BitwiseShifted(OrOp, hi * Pow2(8), b1, 8);
    OrDisjoint(hi, b1, 8);
    var mid := hi * 0x100 + b1;
    assert Or(hi * Pow2(16), Shl(b1, 8)) == mid * Pow2(8);
    // ... | b0
    OrDisjoint(mid, b0, 8);
    assert LoadWord(m, address) == mid * 0x100 + b0;
  }

  /** load_halfword or-s in 0xFFFF0000 exactly when bit 15 is set, that is
      when the high byte is at least 0x80; the result is then the 32-bit
      pattern of the negative halfword. */
  lemma HalfwordSignExtension(m: map<int, int>, address: int)
    requires ValidBytes(m)
    ensures var u := LoadHalfwordUnsigned(m, address);
      LoadHalfword(m, address) == (if LoadByte(m, address + 1) >= 0x80 then u + 0xFFFF_0000 else u)
    ensures 0 <= LoadHalfword(m, address) < TWO32
  {
    var u := LoadHalfwordUnsigned(m, address);
    HalfwordValue(m, address);
    Pow2Table();
    assert BitSet(u, 15) <==> LoadByte(m, address + 1) >= 0x80;
    OrDisjoint(0xFFFF, u, 16);
  }

  /** The two spellings of load_halfword agree on every byte map. */
  lemma HalfwordEarlyAgrees(m: map<int, int>, address: int)
    requires ValidBytes(m)
    ensures LoadHalfwordEarly(m, address) == LoadHalfword(m, address)
  {
    HalfwordValue(m, address);
    Pow2Table();
    assert BitSet(LoadHalfwordUnsigned(m, address), 15) <==> LoadByte(m, address + 1) >= 0x80;
  }

  /** LB or-s in 0xFFFFFF00 exactly when bit 7 of the byte is set, in both
      spellings. */
  lemma ByteSignExtension(b: int)
    requires 0 <= b < 0x100
    ensures SignExtendByte(b) == (if b >= 0x80 then b + 0xFFFF_FF00 else b)
    ensures SignExtendByteEarly(b) == SignExtendByte(b)
  {
    Pow2Table();
    assert BitSet(b, 7) <==> b >= 0x80;
    OrDisjoint(0xFF_FFFF, b, 8);
  }

  // ---------------------------------------------------------------------
  // Round trips and frames.

  lemma ByteOf(v: int, k: nat)
    ensures Mask8(Mask8(Shr(v, k))) == (v / Pow2(k)) % 0x100
  {
    var b := Mask8(Shr(v, k));
    ModOfSmall(b, 0x100);
  }

  /** The four bytes of a value, least significant first, make up the value
      modulo 2^32. */
  lemma WordBytes(v: int)
    ensures v % 0x100 + 0x100 * ((v / 0x100) % 0x100) + 0x1_0000 * ((v / 0x1_0000) % 0x100)
          + 0x100_0000 * ((v / 0x100_0000) % 0x100) == v % TWO32
  {
    DivModProduct(v, 0x100, 0x100_0000);
    DivModProduct(v / 0x100, 0x100, 0x1_0000);
    DivModProduct(v, 0x100, 0x100);
    DivModProduct(v / 0x1_0000, 0x100, 0x100);
    DivModProduct(v, 0x1_0000, 0x100);
  }

  /** A halfword's two bytes make up the value modulo 2^16. */
  lemma HalfwordBytes(v: int)
    ensures v % 0x100 + 0x100 * ((v / 0x100) % 0x100) == v % 0x1_0000
  {
    DivModProduct(v, 0x100, 0x100);
  }

  /** store_word adds keys a..a+3 and leaves every other address as it was. */
  lemma WordStoredFrame(m: map<int, int>, a: int, v: int)
    ensures var w := WordStored(m, a, v);
      w.Keys == m.Keys + {a, a + 1, a + 2, a + 3}
      && (forall b :: b in m && !(a <= b <= a + 3) ==> w[b] == m[b])
  {
  }

  /** store_word writes the bytes of v least significant first. */
  lemma WordStoredBytes(m: map<int, int>, a: int, v: int)
    ensures var w := WordStored(m, a, v);
      w[a] == v % 0x100 && w[a + 1] == (v / 0x100) % 0x100
      && w[a + 2] == (v / 0x1_0000) % 0x100 && w[a + 3] == (v / 0x100_0000) % 0x100
  {
    var w := WordStored(m, a, v);
    ModOfSmall(Mask8(v), 0x100);
    assert w[a + 1] == Mask8(Mask8(Shr(v, 8)));
    assert w[a + 2] == Mask8(Mask8(Shr(v, 16)));
    assert w[a + 3] == Mask8(Mask8(Shr(v, 24)));
    ByteOf(v, 8);
    ByteOf(v, 16);
    ByteOf(v, 24);
    Pow2Table();
  }

  /** Storing into a byte map keeps it a byte map. */
  lemma StoresKeepBytes(m: map<int, int>, a: int, v: int)
    requires ValidBytes(m)
    ensures ValidBytes(ByteStored(m, a, v))
    ensures ValidBytes(HalfwordStored(m, a, v))
    ensures ValidBytes(WordStored(m, a, v))
  {
  }

  /** After store_word(a, v), load_word(a) returns `v & 0xFFFFFFFF`. */
  lemma WordRoundTrip(m: map<int, int>, a: int, v: int)
    requires ValidBytes(m)
    ensures LoadWord(WordStored(m, a, v), a) == Mask32(v)
  {
    var w := WordStored(m, a, v);
    WordStoredBytes(m, a, v);
    WordStoredFrame(m, a, v);
    StoresKeepBytes(m, a, v);
    WordValue(w, a);
    WordBytes(v);
  }

  /** After store_halfword(a, v), load_halfword_unsigned(a) returns the low
      16 bits of v, and load_halfword their sign extension to 32 bits. */
  lemma HalfwordRoundTrip(m: map<int, int>, a: int, v: int)
    requires ValidBytes(m)
    ensures LoadHalfwordUnsigned(HalfwordStored(m, a, v), a) == v % 0x1_0000
    ensures LoadHalfword(HalfwordStored(m, a, v), a)
         == (if v % 0x1_0000 >= 0x8000 then v % 0x1_0000 + 0xFFFF_0000 else v % 0x1_0000)
  {
    var h := HalfwordStored(m, a, v);
    Pow2Table();
    ByteOf(v, 8);
    ModOfSmall(Mask8(v), 0x100);
    StoresKeepBytes(m, a, v);
    assert LoadByte(h, a) == v % 0x100;
    assert LoadByte(h, a + 1) == (v / 0x100) % 0x100;
    HalfwordValue(h, a);
    HalfwordBytes(v);
    HalfwordSignExtension(h, a);
  }

  /** After store_byte(a, v), load_byte(a) returns `v & 0xFF`. */
  lemma ByteRoundTrip(m: map<int, int>, a: int, v: int)
    ensures LoadByte(ByteStored(m, a, v), a) == v % 0x100
  {
  }

  // ---------------------------------------------------------------------
  // The dictionary itself, updated in place.

  /** The global `memory` dictionary of a simulator module. */
  class ByteMemory {
    var cells: map<int, int>

    ghost predicate Valid()
      reads this
    {
      ValidBytes(cells)
    }

    constructor ()
      ensures cells == map[] && Valid()
    {
      cells := map[];
    }

    /** `memory = {}`. */
    method Clear()
      modifies this
      ensures cells == map[] && Valid()
    {
      cells := map[];
    }

    /** `store_byte(address, value)`. */
    method StoreByte(address: int, value: int)
      modifies this
      ensures old(Valid()) ==> Valid()
      ensures cells == ByteStored(old(cells), address, value)
    {
      cells := cells[address := Mask8(value)];
    }

    /** `store_halfword(address, value)`. */
    method StoreHalfword(address: int, value: int)
      modifies this
      ensures old(Valid()) ==> Valid()
      ensures cells == HalfwordStored(old(cells), address, value)
    {
      StoreByte(address, Mask8(value));
      StoreByte(address + 1, Mask8(Shr(value, 8)));
    }

    /** `store_word(address, value)`. */
    method StoreWord(address: int, value: int)
      modifies this
      ensures old(Valid()) ==> Valid()
      ensures cells == WordStored(old(cells), address, value)
    {
      StoreByte(address, Mask8(value));
      StoreByte(address + 1, Mask8(Shr(value, 8)));
      StoreByte(address + 2, Mask8(Shr(value, 16)));
      StoreByte(address + 3, Mask8(Shr(value, 24)));
    }
  }
}
