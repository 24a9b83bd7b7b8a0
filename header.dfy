/** The second header word (section 4.1.1 of RFC 1035): the encoder packs
    the header fields into it and parseHeader takes it apart with the same
    masks. The three reserved bits are all written from res1. */
module Headers {
  import opened Wire
  import opened Messages

  /** The flag word the HEADER state writes. Each term is (x << k) & mask
      for a mask of n bits at bit k, which keeps the low n bits of x; for
      JavaScript's two's-complement integers those are Dafny's Euclidean
      remainder, whatever the sign. qr goes to bit 15, opcode to bits 11-14,
      aa, tc, rd and ra to bits 10 down to 7, res1 to each of bits 6, 5 and
      4, and rcode to bits 0-3. */
  function FlagsWord(h: Header): (w: int)
    ensures 0 <= w < TWO16
  {
    Low(h.qr, 2) * 0x8000 + Low(h.opcode, 16) * 0x800 + Low(h.aa, 2) * 0x400 +
    Low(h.tc, 2) * 0x200 + Low(h.rd, 2) * 0x100 + Low(h.ra, 2) * 0x80 +
    Low(h.res1, 2) * 0x40 + Low(h.res1, 2) * 0x20 + Low(h.res1, 2) * 0x10 + Low(h.rcode, 16)
  }

  /** The low bits of x that a mask of m values keeps. */
  function Low(x: int, m: int): (r: int)
    requires m > 0
    ensures 0 <= r < m && (0 <= x < m ==> r == x)
  {
    x % m
  }

  /** (w & mask) >> k for the field of m values at bit k, d being 2^k. */
  function BitField(w: int, d: int, m: int): (f: int)
    requires d > 0 && m > 0
    ensures 0 <= f < m
  {
    w / d % m
  }

  /** parseHeader: the id word, then each field of the flag word. */
  function ParseFlags(id: int, w: int): Header
  {
    Header(id, BitField(w, 0x8000, 2), BitField(w, 0x800, 16), BitField(w, 0x400, 2),
           BitField(w, 0x200, 2), BitField(w, 0x100, 2), BitField(w, 0x80, 2), BitField(w, 0x40, 2),
           BitField(w, 0x20, 2), BitField(w, 0x10, 2), BitField(w, 1, 16))
  }

  /** The fields the flag word holds, each reduced to its width, with the
      three reserved bits all taken from res1. */
  function Masked(id: int, h: Header): Header
  {
    Header(id, Low(h.qr, 2), Low(h.opcode, 16), Low(h.aa, 2), Low(h.tc, 2), Low(h.rd, 2),
           Low(h.ra, 2), Low(h.res1, 2), Low(h.res1, 2), Low(h.res1, 2), Low(h.rcode, 16))
  }

  /** The fields are within the widths the flag word gives them. */
  predicate FlagsInRange(h: Header)
  {
    0 <= h.qr < 2 && 0 <= h.opcode < 16 && 0 <= h.aa < 2 && 0 <= h.tc < 2 &&
    0 <= h.rd < 2 && 0 <= h.ra < 2 && 0 <= h.res1 < 2 && 0 <= h.rcode < 16
  }

  lemma {:induction false} MulAtLeast(x: int, d: int)
    requires x >= 1 && d > 0
    ensures x * d >= d
  {
    assert (x - 1) * d >= 0;
  }

  /** Division by d splits a number into its high part and its remainder. */
  lemma {:induction false} DivModUnique(w: int, d: int, hi: int, lo: int)
    requires d > 0 && 0 <= lo < d && w == hi * d + lo
    ensures w / d == hi && w % d == lo
  {
    var q, r := w / d, w % d;
    assert w == q * d + r && 0 <= r < d;
    assert (hi - q) * d == r - lo;
    if hi > q {
      MulAtLeast(hi - q, d);
    } else if hi < q {
      MulAtLeast(q - hi, d);
    }
  }

  /** The field of m values at d of a number whose digit there is x. */
  lemma {:induction false} FieldAt(w: int, d: int, m: int, hi: int, x: int, lo: int)
    requires d > 0 && m > 0 && 0 <= x < m && 0 <= lo < d && w == (hi * m + x) * d + lo
    ensures BitField(w, d, m) == x
  {
    DivModUnique(w, d, hi * m + x, lo);
    DivModUnique(hi * m + x, m, hi, x);
  }

  /** Decoding the written flag word gives back every field reduced to its
      width, and res2 and res3 always come back equal to res1. */
  lemma {:induction false} FlagsRoundTrip(id: int, h: Header)
    ensures ParseFlags(id, FlagsWord(h)) == Masked(id, h)
  {
    var w := FlagsWord(h);
    var qr, op, aa, tc, rd, ra, z, rc := Low(h.qr, 2), Low(h.opcode, 16), Low(h.aa, 2),
      Low(h.tc, 2), Low(h.rd, 2), Low(h.ra, 2), Low(h.res1, 2), Low(h.rcode, 16);
    var top := qr * 256 + op * 16 + aa * 8 + tc * 4 + rd * 2 + ra;
    var low := z * 0x70 + rc;
    FieldAt(w, 0x8000, 2, 0, qr,
            op * 0x800 + aa * 0x400 + tc * 0x200 + rd * 0x100 + ra * 0x80 + low);
    FieldAt(w, 0x800, 16, qr, op, aa * 0x400 + tc * 0x200 + rd * 0x100 + ra * 0x80 + low);
    FieldAt(w, 0x400, 2, qr * 16 + op, aa, tc * 0x200 + rd * 0x100 + ra * 0x80 + low);
    FieldAt(w, 0x200, 2, qr * 32 + op * 2 + aa, tc, rd * 0x100 + ra * 0x80 + low);
    FieldAt(w, 0x100, 2, qr * 64 + op * 4 + aa * 2 + tc, rd, ra * 0x80 + low);
    FieldAt(w, 0x80, 2, qr * 128 + op * 8 + aa * 4 + tc * 2 + rd, ra, low);
    FieldAt(w, 0x40, 2, top, z, z * 0x30 + rc);
    FieldAt(w, 0x20, 2, top * 2 + z, z, z * 0x10 + rc);
    FieldAt(w, 0x10, 2, top * 4 + z * 3, z, rc);
    FieldAt(w, 1, 16, top * 8 + z * 7, rc, 0);
  }

  /** For in-range fields the round trip is exact, and the reserved bits
      come back as res1. */
  lemma {:induction false} MaskedInRange(id: int, h: Header)
    requires FlagsInRange(h)
    ensures Masked(id, h) == h.(id := id, res2 := h.res1, res3 := h.res1)
  {
  }

  /** In-range fields are written without reduction. */
  lemma {:induction false} FlagsWordInRange(h: Header)
    requires FlagsInRange(h)
    ensures FlagsWord(h) == h.qr * 0x8000 + h.opcode * 0x800 + h.aa * 0x400 + h.tc * 0x200 +
      h.rd * 0x100 + h.ra * 0x80 + h.res1 * 0x70 + h.rcode
  {
  }

  /** Conversely, a 16-bit flag word is the one the encoder writes for the
      header parsed from it exactly when its three reserved bits agree. */
  lemma {:induction false} FlagsWordOfParsed(id: int, w: int)
    requires 0 <= w < TWO16
    ensures var p := ParseFlags(id, w);
      FlagsWord(p) == w <==> p.res2 == p.res1 && p.res3 == p.res1
  {
    var p := ParseFlags(id, w);
    Digits(w);
    FlagsWordInRange(p);
  }

  /** The flag word holding the fields of h, each reserved bit its own. */
  function FlagsOf(h: Header): int
  {
    h.qr * 0x8000 + h.opcode * 0x800 + h.aa * 0x400 + h.tc * 0x200 + h.rd * 0x100 + h.ra * 0x80 +
    h.res1 * 0x40 + h.res2 * 0x20 + h.res3 * 0x10 + h.rcode
  }

  /** Every field within its width, the reserved bits each one bit. */
  predicate FieldsInRange(h: Header)
  {
    FlagsInRange(h) && 0 <= h.res2 < 2 && 0 <= h.res3 < 2
  }

  /** parseHeader takes apart any word built from in-range fields. */
  lemma {:induction false} ParseFlagsOf(id: int, h: Header)
    requires FieldsInRange(h)
    ensures ParseFlags(id, FlagsOf(h)) == h.(id := id)
  {
    var w := FlagsOf(h);
    var top := h.qr * 256 + h.opcode * 16 + h.aa * 8 + h.tc * 4 + h.rd * 2 + h.ra;
    var low := h.res1 * 0x40 + h.res2 * 0x20 + h.res3 * 0x10 + h.rcode;
    FieldAt(w, 0x8000, 2, 0, h.qr,
            h.opcode * 0x800 + h.aa * 0x400 + h.tc * 0x200 + h.rd * 0x100 + h.ra * 0x80 + low);
    FieldAt(w, 0x800, 16, h.qr, h.opcode, h.aa * 0x400 + h.tc * 0x200 + h.rd * 0x100 + h.ra * 0x80 + low);
    FieldAt(w, 0x400, 2, h.qr * 16 + h.opcode, h.aa, h.tc * 0x200 + h.rd * 0x100 + h.ra * 0x80 + low);
    FieldAt(w, 0x200, 2, h.qr * 32 + h.opcode * 2 + h.aa, h.tc, h.rd * 0x100 + h.ra * 0x80 + low);
    FieldAt(w, 0x100, 2, h.qr * 64 + h.opcode * 4 + h.aa * 2 + h.tc, h.rd, h.ra * 0x80 + low);
    FieldAt(w, 0x80, 2, h.qr * 128 + h.opcode * 8 + h.aa * 4 + h.tc * 2 + h.rd, h.ra, low);
    FieldAt(w, 0x40, 2, top, h.res1, h.res2 * 0x20 + h.res3 * 0x10 + h.rcode);
    FieldAt(w, 0x20, 2, top * 2 + h.res1, h.res2, h.res3 * 0x10 + h.rcode);
    FieldAt(w, 0x10, 2, top * 4 + h.res1 * 2 + h.res2, h.res3, h.rcode);
    FieldAt(w, 1, 16, top * 8 + h.res1 * 4 + h.res2 * 2 + h.res3, h.rcode, 0);
  }

  /** Setting the TC bit (val | 0x200) changes the parsed header in tc
      alone. */
  lemma {:induction false} SetTcFlags(id: int, w: int)
    requires 0 <= w < TWO16
    ensures ParseFlags(id, SetTc(w)) == ParseFlags(id, w).(tc := 1)
  {
    var p := ParseFlags(id, w);
    Digits(w);
    assert w == FlagsOf(p);
    if p.tc == 0 {
      assert SetTc(w) == FlagsOf(p.(tc := 1));
      ParseFlagsOf(id, p.(tc := 1));
    }
  }

  /** val |= 0x200: the TC bit set in a flag word. */
  function SetTc(w: int): (r: int)
    requires 0 <= w < TWO16
    ensures 0 <= r < TWO16
  {
    if BitField(w, 0x200, 2) == 1 then w else w + 0x200
  }

  lemma {:induction false} MulMono(a: int, b: int, d: int)
    requires a >= b && d > 0
    ensures a * d >= b * d
  {
    assert a * d - b * d == (a - b) * d;
  }

  lemma {:induction false} DivBelow(r: int, d: int, m: int)
    requires d > 0 && m > 0 && 0 <= r < d * m
    ensures r / d < m
  {
    if r / d >= m {
      MulMono(r / d, m, d);
    }
  }

  /** The field of m values at d, and what lies below it, make up w modulo d * m. */
  lemma {:induction false} FieldSplit(w: int, d: int, m: int)
    requires d > 0 && m > 0
    ensures w % (d * m) == BitField(w, d, m) * d + w % d
  {
    MulAtLeast(m, d);
    var q, r := w / (d * m), w % (d * m);
    var a, b := r / d, r % d;
    DivBelow(r, d, m);
    assert w == (q * m + a) * d + b;
    DivModUnique(w, d, q * m + a, b);
    DivModUnique(q * m + a, m, q, a);
  }

  /** A 16-bit word is the sum of its fields. */
  lemma {:induction false} Digits(w: int)
    requires 0 <= w < TWO16
    ensures w == BitField(w, 0x8000, 2) * 0x8000 + BitField(w, 0x800, 16) * 0x800 +
      BitField(w, 0x400, 2) * 0x400 + BitField(w, 0x200, 2) * 0x200 + BitField(w, 0x100, 2) * 0x100 +
      BitField(w, 0x80, 2) * 0x80 + BitField(w, 0x40, 2) * 0x40 + BitField(w, 0x20, 2) * 0x20 +
      BitField(w, 0x10, 2) * 0x10 + BitField(w, 1, 16)
  {
    DivModUnique(w, TWO16, 0, w);
    FieldSplit(w, 0x8000, 2);
    FieldSplit(w, 0x800, 16);
    FieldSplit(w, 0x400, 2);
    FieldSplit(w, 0x200, 2);
    FieldSplit(w, 0x100, 2);
    FieldSplit(w, 0x80, 2);
    FieldSplit(w, 0x40, 2);
    FieldSplit(w, 0x20, 2);
    FieldSplit(w, 0x10, 2);
    FieldSplit(w, 1, 16);
    DivModUnique(w, 1, w, 0);
  }
}
