/** Encoding followed by decoding, piece by piece: what the decoder's
    readers make of the octets the encoder's writers lay down. */
module RoundTrip {
  import opened Wrappers
  import opened Wire
  import opened Messages
  import opened Names
  import opened Headers
  import opened Encoding
  import opened Decoding

  // ---------------------------------------------------------------------
  // Words and character strings.

  /** A 16-bit word written at p reads back. */
  lemma {:induction false} ReadU16Back(msg: seq<byte>, p: nat, v: int)
    requires 0 <= v < TWO16 && At(msg, p, U16(v))
    ensures GetU16(msg, p) == Success(v)
  {
    AtIndex(msg, p, U16(v), 0);
    AtIndex(msg, p, U16(v), 1);
    U16Value(v);
  }

  /** A 32-bit word written at p reads back. */
  lemma {:induction false} ReadU32Back(msg: seq<byte>, p: nat, v: int)
    requires 0 <= v < TWO32 && At(msg, p, U32(v))
    ensures GetU32(msg, p) == Success(v)
  {
    var hi, lo := v / TWO16, v % TWO16;
    AtSplit(msg, p, U16(hi), U16(lo));
    ReadU16Back(msg, p, hi);
    ReadU16Back(msg, p + 2, lo);
  }

  /** A character string of fewer than 256 'ascii' characters written at k
      reads back, and the reader stops right after it. */
  lemma {:induction false} ReadStringBack(b: seq<byte>, k: nat, s: string)
    requires |s| < 0x100 && IsAscii(s) && At(b, k, StringBytes(s))
    ensures StringAt(b, k).Success?
    ensures StringAt(b, k).value.0 == s && StringAt(b, k).value.1 == k + 1 + |s|
  {
    var w := StringBytes(s);
    AtSlice(b, k, w);
    assert b[k] == b[k..k + |w|][0];
    assert b[k + 1..k + 1 + |s|] == b[k..k + |w|][1..];
    assert w[1..] == AsciiBytes(s);
    AsciiRoundTrip(s);
  }

  // ---------------------------------------------------------------------
  // The header.

  /** parseHeader reads back what the HEADER state wrote: the id and every
      flag reduced to its width, res2 and res3 equal to res1, a question
      count of 1 and each section's length modulo 2^16. */
  lemma {:induction false} HeaderRoundTrip(msg: seq<byte>, m: Message)
    requires At(msg, 0, HeaderBytes(m))
    ensures HeaderAt(msg).Success?
    ensures HeaderAt(msg).value.header == Masked(Low(m.header.id, TWO16), m.header)
    ensures HeaderAt(msg).value.counts ==
      Counts(1, Low(|m.answer|, TWO16), Low(|m.authority|, TWO16), Low(|m.additional|, TWO16))
  {
    var id, flags := U16(Low(m.header.id, TWO16)), U16(FlagsWord(m.header));
    var an, ns, ar := U16(Low(|m.answer|, TWO16)), U16(Low(|m.authority|, TWO16)),
      U16(Low(|m.additional|, TWO16));
    AtSplit(msg, 0, id + flags + U16(1) + an + ns, ar);
    AtSplit(msg, 0, id + flags + U16(1) + an, ns);
    AtSplit(msg, 0, id + flags + U16(1), an);
    AtSplit(msg, 0, id + flags, U16(1));
    AtSplit(msg, 0, id, flags);
    ReadU16Back(msg, 0, Low(m.header.id, TWO16));
    ReadU16Back(msg, 2, FlagsWord(m.header));
    ReadU16Back(msg, 4, 1);
    ReadU16Back(msg, 6, Low(|m.answer|, TWO16));
    ReadU16Back(msg, 8, Low(|m.authority|, TWO16));
    ReadU16Back(msg, 10, Low(|m.additional|, TWO16));
    FlagsRoundTrip(Low(m.header.id, TWO16), m.header);
  }

  // ---------------------------------------------------------------------
  // The question.

  /** parseQuestion reads back what the QUESTION state wrote after the
      header: the name, type & 0xFFFF and class & 0xFFFF, ending where the
      question's octets end; the index the state leaves is sound for what
      follows. */
  lemma {:induction false} QuestionRoundTrip(msg: seq<byte>, cap: int, qs: seq<Question>, hops: nat)
    requires qs != [] && qs[0].name.Some? && qs[0].qtype.Some? && qs[0].qclass.Some?
    requires ReadableName(qs[0].name.value)
    requires QuestionEmit(12, cap, qs).status == Going
    requires At(msg, 12, QuestionEmit(12, cap, qs).bytes) && 12 <= hops
    ensures var e, q := QuestionEmit(12, cap, qs), qs[0];
      QuestionAt(msg, 12, hops).Success? &&
      QuestionAt(msg, 12, hops).value.0 ==
        Question(q.name, Some(Low(q.qtype.value, TWO16)), Some(Low(q.qclass.value, TWO16))) &&
      QuestionAt(msg, 12, hops).value.1 == 12 + |e.bytes| &&
      Sound(msg, e.state, 12 + |e.bytes|)
  {
    var q := qs[0];
    var name := q.name.value;
    var n := PackName(12, cap, map[], name);
    var t, c := Low(q.qtype.value, TWO16), Low(q.qclass.value, TWO16);
    var e := 12 + |n.bytes|;
    assert QuestionEmit(12, cap, qs).bytes == n.bytes + (U16(t) + U16(c));
    AtSplit(msg, 12, n.bytes, U16(t) + U16(c));
    assert Reads(NameAt(msg, 12, hops), name, e) && Sound(msg, n.state, e) by {
      NamePackRead(msg, 12, cap, map[], name, hops);
    }
    assert GetU16(msg, e) == Success(t) && GetU16(msg, e + 2) == Success(c) by {
      AtSplit(msg, e, U16(t), U16(c));
      ReadU16Back(msg, e, t);
      ReadU16Back(msg, e + 2, c);
    }
    QuestionAtOf(msg, hops, name, e, t, c);
  }

  /** parseQuestion over a name that reads back and two words. */
  lemma {:induction false} QuestionAtOf(msg: seq<byte>, hops: nat, name: string, e: nat, t: int, c: int)
    requires Reads(NameAt(msg, 12, hops), name, e)
    requires GetU16(msg, e) == Success(t) && GetU16(msg, e + 2) == Success(c)
    ensures QuestionAt(msg, 12, hops) == Success((Question(Some(name), Some(t), Some(c)), e + 4))
  {
  }

  // ---------------------------------------------------------------------
  // Truncation.

  /** A 16-bit word written over buf at off reads back there, and a word
      elsewhere is untouched. */
  lemma {:induction false} PatchWord(buf: seq<byte>, off: nat, v: int, q: nat)
    requires off + 2 <= |buf| && q + 2 <= |buf| && 0 <= v < TWO16
    requires q == off || q + 2 <= off || off + 2 <= q
    ensures BeU16(Patch(buf, off, U16(v)), q) == if q == off then v else BeU16(buf, q)
  {
    var b := Patch(buf, off, U16(v));
    if q == off {
      assert b[q] == U16(v)[0] && b[q + 1] == U16(v)[1];
      U16Value(v);
    } else {
      assert b[q] == buf[q] && b[q + 1] == buf[q + 1];
    }
  }

  /** The words of the header after TRUNCATE: the flag word with TC set,
      the current section's count overwritten by count - 1, and the counts
      of the sections after it zeroed. */
  function TruncatedWord(buf: seq<byte>, s: Section, count: int, q: nat): int
    requires |buf| >= 12 && q + 2 <= 12 && 0 <= BeU16(buf, 2)
  {
    if q == 2 then SetTc(BeU16(buf, 2))
    else if q == CountAt(s) then count - 1
    else if q > CountAt(s) && q >= 6 then 0
    else BeU16(buf, q)
  }

  lemma {:induction false} TruncateWords(buf: seq<byte>, s: Section, count: nat, q: nat)
    requires |buf| >= 12 && 1 <= count <= TWO16 && q % 2 == 0 && q + 2 <= 12
    ensures BeU16(TruncateBytes(buf, s, count), q) == TruncatedWord(buf, s, count, q)
  {
    var b1 := Patch(buf, 2, U16(SetTc(BeU16(buf, 2))));
    assert BeU16(b1, q) == if q == 2 then SetTc(BeU16(buf, 2)) else BeU16(buf, q) by {
      PatchWord(buf, 2, SetTc(BeU16(buf, 2)), q);
    }
    var b2 := ZeroLater(b1, s);
    assert BeU16(b2, q) == if q > CountAt(s) then 0 else BeU16(b1, q) by {
      ZeroLaterWord(b1, s, q);
    }
    PatchWord(b2, CountAt(s), count - 1, q);
  }

  /** Zeroing the later sections' counts clears exactly the words after
      the current section's count. */
  lemma {:induction false} ZeroLaterWord(buf: seq<byte>, s: Section, q: nat)
    requires |buf| >= 12 && q % 2 == 0 && q + 2 <= 12
    ensures BeU16(ZeroLater(buf, s), q) == if q > CountAt(s) then 0 else BeU16(buf, q)
  {
    match s {
      case Answer =>
        PatchWord(buf, 8, 0, q);
        PatchWord(Patch(buf, 8, U16(0)), 10, 0, q);
      case Authority =>
        PatchWord(buf, 10, 0, q);
      case Additional =>
    }
  }

  /** TRUNCATE read back: TC set and every other flag kept, the question
      count kept, the current section's count one below the records it
      completed, the later sections' counts zero, the earlier ones kept,
      and nothing after the header touched. */
  lemma {:induction false} TruncateHeader(buf: seq<byte>, s: Section, count: nat)
    requires |buf| >= 12 && 1 <= count <= TWO16
    ensures var t, before := TruncateBytes(buf, s, count), HeaderAt(buf).value;
      HeaderAt(t).Success? &&
      HeaderAt(t).value.header == before.header.(tc := 1) &&
      HeaderAt(t).value.counts.qd == before.counts.qd &&
      HeaderAt(t).value.counts.Of(s) == count - 1 &&
      (forall u :: Rank(u) < Rank(s) ==> HeaderAt(t).value.counts.Of(u) == 0) &&
      (forall u :: Rank(u) > Rank(s) ==> HeaderAt(t).value.counts.Of(u) == before.counts.Of(u)) &&
      t[12..] == buf[12..]
  {
    var t := TruncateBytes(buf, s, count);
    TruncateWords(buf, s, count, 0);
    TruncateWords(buf, s, count, 2);
    TruncateWords(buf, s, count, 4);
    TruncateWords(buf, s, count, 6);
    TruncateWords(buf, s, count, 8);
    TruncateWords(buf, s, count, 10);
    SetTcFlags(BeU16(buf, 0), BeU16(buf, 2));
    TruncateTake(buf, s, count, 12);
    assert t[12..] == buf[12..] by {
      TruncateTail(buf, s, count);
    }
  }

  /** TRUNCATE only writes within the header. */
  lemma {:induction false} TruncateTail(buf: seq<byte>, s: Section, count: nat)
    requires |buf| >= 12 && 1 <= count <= TWO16
    ensures TruncateBytes(buf, s, count)[12..] == buf[12..]
  {
    forall off: nat, b: seq<byte>, x: seq<byte> | off + |b| <= 12 <= |x|
      ensures Patch(x, off, b)[12..] == x[12..]
    {
      assert Patch(x, off, b)[12..] == x[off + |b|..][12 - off - |b|..];
    }
  }
}
