/** Whole resource records, encoding followed by decoding: the framing
    RESOURCE_WRITE, RESOURCE_WRITE_NEXT, RDATA and RESOURCE_DONE lay down
    is the framing parseRR reads, and the record comes back with its
    numbers reduced to their width. */
module RecordRoundTrip {
  import opened Wrappers
  import opened Wire
  import opened Messages
  import opened Names
  import opened Headers
  import opened Encoding
  import opened Decoding
  import opened RoundTrip
  import opened RDataRoundTrip

  // ---------------------------------------------------------------------
  // The writer's side.

  /** The pieces of record i as written, when the walk completed it: the
      packed owner name, type, class and ttl, the RDATA length patched to
      the size of the RDATA state's octets, those octets, and then the
      walk from record i + 1. */
  lemma {:induction false} RecordRunBytes(at: int, cap: int, w: Work, rs: seq<Rr>, i: nat)
    requires i < |rs| && RecordRun(at, cap, w, rs, i).done >= 1
    ensures var rr := rs[i];
      rr.name.Some? && rr.rrtype.Some? && rr.rrclass.Some? && rr.ttl.Some? &&
      var n := PackName(at, cap, w.index, rr.name.value);
      var r := RDataEmit(at + |n.bytes| + 10, cap, w.(index := n.state), TagOf(rr.rrtype.value), rr.rdata);
      var rest := SectionRun(at + |n.bytes| + 10 + |r.bytes|, cap, r.state, rs, i + 1);
      n.status == Going && r.status == Going && |r.bytes| < TWO16 &&
      RecordRun(at, cap, w, rs, i) ==
        After(n.bytes + FixedBytes(rr.rrtype.value, rr.rrclass.value, rr.ttl.value) + U16(|r.bytes|) + r.bytes,
              1, rest)
  {
    var rr := rs[i];
    var n := PackName(at, cap, w.index, rr.name.value);
    var nw := Named(n, w);
    assert n.status == Going;
    var pre := n.bytes + FixedBytes(rr.rrtype.value, rr.rrclass.value, rr.ttl.value);
    assert RecordRun(at, cap, w, rs, i) == FramedRun(at + |n.bytes| + 8, cap, nw.state, rs, i, pre);
  }

  // ---------------------------------------------------------------------
  // The reader's side.

  /** type, class and ttl as written read back, each reduced to its width. */
  lemma {:induction false} FixedBack(msg: seq<byte>, p: nat, t: int, c: int, ttl: int)
    requires At(msg, p, FixedBytes(t, c, ttl))
    ensures GetU16(msg, p) == Success(Low(t, TWO16)) && GetU16(msg, p + 2) == Success(Low(c, TWO16))
    ensures GetU32(msg, p + 4) == Success(Low(ttl, TWO32))
  {
    var a, b, d := U16(Low(t, TWO16)), U16(Low(c, TWO16)), U32(Low(ttl, TWO32));
    AtSplit(msg, p, a + b, d);
    AtSplit(msg, p, a, b);
    ReadU16Back(msg, p, Low(t, TWO16));
    ReadU16Back(msg, p + 2, Low(c, TWO16));
    ReadU32Back(msg, p + 4, Low(ttl, TWO32));
  }

  /** parseRR from the reads it makes. */
  lemma {:induction false} FrameAtOf(msg: seq<byte>, p: nat, hops: nat, rr: Rr, e: nat, len: nat)
    requires rr.name.Some? && rr.rrtype.Some? && rr.rrclass.Some? && rr.ttl.Some? && rr.rdata == NoData
    requires Reads(NameAt(msg, p, hops), rr.name.value, e)
    requires GetU16(msg, e) == Success(rr.rrtype.value) && GetU16(msg, e + 2) == Success(rr.rrclass.value)
    requires GetU32(msg, e + 4) == Success(rr.ttl.value) && GetU16(msg, e + 8) == Success(len)
    requires e + 10 + len <= |msg|
    ensures FrameAt(msg, p, hops).Success? && FrameAt(msg, p, hops).value.rr == rr
    ensures FrameAt(msg, p, hops).value.start == e + 10 && FrameAt(msg, p, hops).value.len == len
  {
  }

  /** parseRR reads back the frame RESOURCE_WRITE and RESOURCE_WRITE_NEXT
      wrote, the RDATA length being rlen and the RDATA following it: the
      owner name, type & 0xFFFF, class & 0xFFFF, ttl & 0xFFFFFFFF, and the
      RDATA's offset and length. */
  lemma {:induction false} FrameBack(msg: seq<byte>, at: nat, cap: int, w: Work, rr: Rr, rlen: nat, hops: nat)
    requires rr.name.Some? && rr.rrtype.Some? && rr.rrclass.Some? && rr.ttl.Some?
    requires ReadableName(rr.name.value)
    requires PackName(at, cap, w.index, rr.name.value).status == Going
    requires var n := PackName(at, cap, w.index, rr.name.value);
      rlen < TWO16 &&
      At(msg, at, n.bytes + FixedBytes(rr.rrtype.value, rr.rrclass.value, rr.ttl.value) + U16(rlen)) &&
      at + |n.bytes| + 10 + rlen <= |msg|
    requires 0 < at && |msg| <= hops && Sound(msg, w.index, at)
    ensures var n := PackName(at, cap, w.index, rr.name.value);
      var f := FrameAt(msg, at, hops);
      f.Success? &&
      f.value.rr == Rr(rr.name, Some(Low(rr.rrtype.value, TWO16)), Some(Low(rr.rrclass.value, TWO16)),
                       Some(Low(rr.ttl.value, TWO32)), NoData) &&
      f.value.start == at + |n.bytes| + 10 && f.value.len == rlen &&
      Sound(msg, n.state, at + |n.bytes|)
  {
    var name := rr.name.value;
    var n := PackName(at, cap, w.index, name);
    var fx := FixedBytes(rr.rrtype.value, rr.rrclass.value, rr.ttl.value);
    var e := at + |n.bytes|;
    AtSplit(msg, at, n.bytes + fx, U16(rlen));
    AtSplit(msg, at, n.bytes, fx);
    FixedBack(msg, e, rr.rrtype.value, rr.rrclass.value, rr.ttl.value);
    ReadU16Back(msg, e + 8, rlen);
    NamePackRead(msg, at, cap, w.index, name, hops);
    FrameAtOf(msg, at, hops, Rr(rr.name, Some(Low(rr.rrtype.value, TWO16)), Some(Low(rr.rrclass.value, TWO16)),
                                Some(Low(rr.ttl.value, TWO32)), NoData), e, rlen);
  }

  // ---------------------------------------------------------------------
  // A whole record.

  /** A type with an RDATA state is one of the codes of the type table,
      so it survives the reduction to 16 bits. */
  lemma {:induction false} HandledCode(t: int)
    requires TagOf(t) != Unhandled
    ensures 0 <= t < TWO16 && Low(t, TWO16) == t
  {
    var tag := TagOf(t);
    assert CodeOf(tag) == t;
    match tag {
      case A | NS | CNAME | SOA | PTR | MX | TXT | AAAA | SRV | NAPTR | OPT | SPF =>
    }
  }

  /** Record i of rs reads back: the walk completed it, its owner name is
      readable, and its RDATA is readable for its type. */
  predicate Returns(at: int, cap: int, w: Work, rs: seq<Rr>, i: nat)
  {
    i < |rs| && RecordRun(at, cap, w, rs, i).done >= 1 &&
    var rr := rs[i];
    rr.name.Some? && rr.rrtype.Some? && rr.rrclass.Some? && rr.ttl.Some? && ReadableName(rr.name.value) &&
    RDataReadable(TagOf(rr.rrtype.value), rr.rdata)
  }

  /** RESOURCE_RECORD with the frame and the fields parsed. */
  lemma {:induction false} RecordAtOf(msg: seq<byte>, hops: nat, p: nat, m: Message, c: Counts, s: Section,
                                      f: Frame, d: RData)
    requires FrameAt(msg, p, hops).Success? && FrameAt(msg, p, hops).value == f
    requires TagOf(f.rr.rrtype.value) != OPT && RDataAt(msg, f, TagOf(f.rr.rrtype.value), hops) == Success(d)
    ensures RecordAt(msg, hops, p, m, c, s).Success?
    ensures RecordAt(msg, hops, p, m, c, s).value ==
      Stepped(m.WithRecords(s, m.Records(s) + [f.rr.(rdata := d)]), c, f.start + f.len)
  {
  }

  /** The record parse gives back for rr: class and ttl reduced to their
      widths and the RDATA as Expected for its type. */
  function Returned(rr: Rr): Rr
    requires rr.rrtype.Some? && rr.rrclass.Some? && rr.ttl.Some?
  {
    Rr(rr.name, rr.rrtype, Some(Low(rr.rrclass.value, TWO16)), Some(Low(rr.ttl.value, TWO32)),
       Expected(TagOf(rr.rrtype.value), rr.rdata))
  }

  /** One record written by the section walk and read back by
      RESOURCE_RECORD: it is appended to its section with its class and
      ttl reduced to their widths and its RDATA as Expected, the counts
      are unchanged, the cursor ends where the record's octets end, and the
      index the writer goes on with is sound there. */
  lemma {:induction false} RecordBack(msg: seq<byte>, at: nat, cap: int, w: Work, rs: seq<Rr>, i: nat,
                                      m: Message, c: Counts, s: Section, hops: nat)
    requires Returns(at, cap, w, rs, i) && At(msg, at, RecordRun(at, cap, w, rs, i).bytes)
    requires 0 < at && |msg| <= hops && Sound(msg, w.index, at)
    ensures var rr := rs[i];
      var n := PackName(at, cap, w.index, rr.name.value);
      var r := RDataEmit(at + |n.bytes| + 10, cap, w.(index := n.state), TagOf(rr.rrtype.value), rr.rdata);
      var st := RecordAt(msg, hops, at, m, c, s);
      st.Success? && st.value.m == m.WithRecords(s, m.Records(s) + [Returned(rr)]) &&
      st.value.counts == c && st.value.pos == at + |n.bytes| + 10 + |r.bytes| &&
      Sound(msg, r.state.index, st.value.pos)
  {
    RecordRunBytes(at, cap, w, rs, i);
    var rr := rs[i];
    var n := PackName(at, cap, w.index, rr.name.value);
    var start := at + |n.bytes| + 10;
    var r := RDataEmit(start, cap, w.(index := n.state), TagOf(rr.rrtype.value), rr.rdata);
    var fx := FixedBytes(rr.rrtype.value, rr.rrclass.value, rr.ttl.value);
    var rest := SectionRun(start + |r.bytes|, cap, r.state, rs, i + 1);
    AtSplit(msg, at, n.bytes + fx + U16(|r.bytes|) + r.bytes, rest.bytes);
    RecordRead(msg, at, cap, w, rr, m, c, s, hops);
  }

  /** RecordBack for the octets of one record, whatever follows them. */
  lemma {:induction false} RecordRead(msg: seq<byte>, at: nat, cap: int, w: Work, rr: Rr,
                                      m: Message, c: Counts, s: Section, hops: nat)
    requires rr.name.Some? && rr.rrtype.Some? && rr.rrclass.Some? && rr.ttl.Some?
    requires ReadableName(rr.name.value)
    requires PackName(at, cap, w.index, rr.name.value).status == Going
    requires var n := PackName(at, cap, w.index, rr.name.value);
      var w1 := w.(index := n.state);
      var r := RDataEmit(at + |n.bytes| + 10, cap, w1, TagOf(rr.rrtype.value), rr.rdata);
      RDataReadable(TagOf(rr.rrtype.value), rr.rdata) &&
      r.status == Going && |r.bytes| < TWO16 &&
      At(msg, at, n.bytes + FixedBytes(rr.rrtype.value, rr.rrclass.value, rr.ttl.value) + U16(|r.bytes|) + r.bytes)
    requires 0 < at && |msg| <= hops && Sound(msg, w.index, at)
    ensures var n := PackName(at, cap, w.index, rr.name.value);
      var r := RDataEmit(at + |n.bytes| + 10, cap, w.(index := n.state), TagOf(rr.rrtype.value), rr.rdata);
      var st := RecordAt(msg, hops, at, m, c, s);
      st.Success? && st.value.m == m.WithRecords(s, m.Records(s) + [Returned(rr)]) &&
      st.value.counts == c && st.value.pos == at + |n.bytes| + 10 + |r.bytes| &&
      Sound(msg, r.state.index, st.value.pos)
  {
    var n := PackName(at, cap, w.index, rr.name.value);
    var w1 := w.(index := n.state);
    var start := at + |n.bytes| + 10;
    var tag := TagOf(rr.rrtype.value);
    var r := RDataEmit(start, cap, w1, tag, rr.rdata);
    var fx := FixedBytes(rr.rrtype.value, rr.rrclass.value, rr.ttl.value);
    AtSplit(msg, at, n.bytes + fx + U16(|r.bytes|), r.bytes);
    FrameBack(msg, at, cap, w, rr, |r.bytes|, hops);
    HandledCode(rr.rrtype.value);
    var f := FrameAt(msg, at, hops).value;
    assert f.start == start && f.len == |r.bytes|;
    assert f.rr == Rr(rr.name, rr.rrtype, Some(Low(rr.rrclass.value, TWO16)), Some(Low(rr.ttl.value, TWO32)), NoData);
    SoundGrow(msg, n.state, at + |n.bytes|, start);
    RDataBack(msg, f, cap, w1, tag, rr.rdata, hops);
    assert f.rr.(rdata := Expected(tag, rr.rdata)) == Returned(rr);
    RecordAtOf(msg, hops, at, m, c, s, f, Expected(tag, rr.rdata));
  }
}
