/** The RDATA states of the two directions mirror each other: for every
    handled type, the reader of parse gives back the fields the writer of
    write laid down, with its numbers reduced to their width. */
module RDataRoundTrip {
  import opened Wrappers
  import opened Wire
  import opened Messages
  import opened Names
  import opened Headers
  import opened Encoding
  import opened Decoding
  import opened RoundTrip

  /** The RDATA of a frame that starts where b was written and is as long
      as b is b. */
  lemma {:induction false} SliceOf(msg: seq<byte>, f: Frame, b: seq<byte>)
    requires At(msg, f.start, b) && f.len == |b|
    ensures f.start + f.len <= |msg| && Slice(msg, f) == b
  {
    AtSlice(msg, f.start, b);
  }

  /** A piece at offset k of b, b[k..k + |x|] being x. */
  lemma {:induction false} AtOf(b: seq<byte>, k: nat, x: seq<byte>, y: seq<byte>, z: seq<byte>)
    requires b == x + y + z && k == |x|
    ensures At(b, k, y)
  {
    AtSlice(b, k, y);
    assert b[k..k + |y|] == y;
  }

  /** A 16-bit word at offset k of b reads back. */
  lemma {:induction false} WordAt(b: seq<byte>, k: nat, x: seq<byte>, v: int, z: seq<byte>)
    requires 0 <= v < TWO16 && b == x + U16(v) + z && k == |x|
    ensures GetU16(b, k) == Success(v)
  {
    AtOf(b, k, x, U16(v), z);
    ReadU16Back(b, k, v);
  }

  /** A 32-bit word at offset k of b reads back. */
  lemma {:induction false} LongAt(b: seq<byte>, k: nat, x: seq<byte>, v: int, z: seq<byte>)
    requires 0 <= v < TWO32 && b == x + U32(v) + z && k == |x|
    ensures GetU32(b, k) == Success(v)
  {
    AtOf(b, k, x, U32(v), z);
    ReadU32Back(b, k, v);
  }

  /** A character string at offset k of b reads back. */
  lemma {:induction false} TextAt(b: seq<byte>, k: nat, x: seq<byte>, s: string, z: seq<byte>)
    requires b == x + StringBytes(s) + z && k == |x| && |s| < 0x100 && IsAscii(s)
    ensures StringAt(b, k) == Success((s, k + 1 + |s|))
  {
    AtOf(b, k, x, StringBytes(s), z);
    ReadStringBack(b, k, s);
  }

  /** A domain field packed at `at` reads back from there, ending where
      its octets end, and leaves the index sound. */
  lemma {:induction false} DomainBack(msg: seq<byte>, at: nat, cap: int, w: Work, name: string, hops: nat)
    requires ReadableName(name)
    requires FieldEmit(at, cap, w, Domain(name)).status == Going
    requires At(msg, at, FieldEmit(at, cap, w, Domain(name)).bytes)
    requires 0 < at && |msg| <= hops && Sound(msg, w.index, at)
    ensures var e := FieldEmit(at, cap, w, Domain(name));
      Reads(NameAt(msg, at, hops), name, at + |e.bytes|) &&
      Sound(msg, e.state.index, at + |e.bytes|) && e.state.options == w.options
  {
    NamePackRead(msg, at, cap, w.index, name, hops);
  }

  // ---------------------------------------------------------------------
  // One lemma per RDATA state.

  /** MX: the priority & 0xFFFF and the exchange. */
  lemma {:induction false} MxBack(msg: seq<byte>, f: Frame, cap: int, w: Work, d: RData, hops: nat)
    requires d.Mx? && ReadableName(d.exchange)
    requires RDataEmit(f.start, cap, w, MX, d).status == Going
    requires At(msg, f.start, RDataEmit(f.start, cap, w, MX, d).bytes)
    requires f.len == |RDataEmit(f.start, cap, w, MX, d).bytes|
    requires 0 < f.start && |msg| <= hops && Sound(msg, w.index, f.start)
    ensures f.start + f.len <= |msg|
    ensures MxAt(msg, f, hops) == Success(Mx(Low(d.priority, TWO16), d.exchange))
    ensures Sound(msg, RDataEmit(f.start, cap, w, MX, d).state.index, f.start + f.len)
  {
    var at := f.start;
    var p := Low(d.priority, TWO16);
    var fs := [Word(p), Domain(d.exchange)];
    var e := RDataEmit(at, cap, w, MX, d);
    var n := FieldEmit(at + 2, cap, w, Domain(d.exchange));
    FieldsNext(at, cap, w, fs, PutU16(at, cap, w, p));
    FieldsNext(at + 2, cap, w, fs[1..], n);
    assert fs[1..][1..] == [];
    assert e.bytes == U16(p) + n.bytes + [];
    SliceOf(msg, f, e.bytes);
    WordAt(e.bytes, 0, [], p, n.bytes);
    AtSplit(msg, at, U16(p), n.bytes);
    DomainBack(msg, at + 2, cap, w, d.exchange, hops);
  }

  /** A and AAAA: the first 4 (16) octets of the address, or a read past
      the end of an RDATA that holds fewer. */
  lemma {:induction false} AddressBack(msg: seq<byte>, f: Frame, cap: int, w: Work, tag: Tag, d: RData)
    requires (tag == A || tag == AAAA) && d.Address?
    requires RDataEmit(f.start, cap, w, tag, d).status == Going
    requires At(msg, f.start, RDataEmit(f.start, cap, w, tag, d).bytes)
    requires f.len == |RDataEmit(f.start, cap, w, tag, d).bytes|
    ensures f.start + f.len <= |msg|
    ensures var n := if tag == A then 4 else 16;
      AddressAt(Slice(msg, f), n) ==
        if |d.address| < n then Failure(ReadPastEnd) else Success(Address(d.address[..n]))
    ensures RDataEmit(f.start, cap, w, tag, d).state == w
  {
    var fs := [Octets(d.address)];
    FieldsNext(f.start, cap, w, fs, PutBytes(f.start, cap, w, d.address));
    assert fs[1..] == [];
    assert RDataEmit(f.start, cap, w, tag, d).bytes == d.address + [];
    assert d.address + [] == d.address;
    SliceOf(msg, f, d.address);
  }

  /** NS, CNAME and PTR: the name. */
  lemma {:induction false} CnameBack(msg: seq<byte>, f: Frame, cap: int, w: Work, tag: Tag, d: RData,
                                     hops: nat)
    requires (tag == NS || tag == CNAME || tag == PTR) && d.Data? && ReadableName(d.data)
    requires RDataEmit(f.start, cap, w, tag, d).status == Going
    requires At(msg, f.start, RDataEmit(f.start, cap, w, tag, d).bytes)
    requires f.len == |RDataEmit(f.start, cap, w, tag, d).bytes|
    requires 0 < f.start && |msg| <= hops && Sound(msg, w.index, f.start)
    ensures f.start + f.len <= |msg|
    ensures CnameAt(msg, f, hops) == Success(Data(d.data))
    ensures Sound(msg, RDataEmit(f.start, cap, w, tag, d).state.index, f.start + f.len)
    ensures RDataEmit(f.start, cap, w, tag, d).state.options == w.options
  {
    var fs := [Domain(d.data)];
    var n := FieldEmit(f.start, cap, w, Domain(d.data));
    FieldsNext(f.start, cap, w, fs, n);
    assert fs[1..] == [];
    assert RDataEmit(f.start, cap, w, tag, d).bytes == n.bytes + [];
    SliceOf(msg, f, n.bytes + []);
    assert n.bytes + [] == n.bytes;
    DomainBack(msg, f.start, cap, w, d.data, hops);
  }

  /** TXT and SPF: the one character string written reads back whole. */
  lemma {:induction false} TxtBack(msg: seq<byte>, f: Frame, cap: int, w: Work, tag: Tag, d: RData)
    requires (tag == TXT || tag == SPF) && d.Data? && IsAscii(d.data)
    requires RDataEmit(f.start, cap, w, tag, d).status == Going
    requires At(msg, f.start, RDataEmit(f.start, cap, w, tag, d).bytes)
    requires f.len == |RDataEmit(f.start, cap, w, tag, d).bytes|
    ensures f.start + f.len <= |msg|
    ensures TxtAt(Slice(msg, f)) == Success(Data(d.data))
    ensures RDataEmit(f.start, cap, w, tag, d).state == w
  {
    var b := StringBytes(d.data);
    assert |d.data| < 0x100 && RDataEmit(f.start, cap, w, tag, d) == Emit(Going, b, w) by {
      var fs := [Text(d.data)];
      FieldsNext(f.start, cap, w, fs, PutString(f.start, cap, w, d.data));
      assert fs[1..] == [];
      assert b + [] == b;
    }
    SliceOf(msg, f, b);
    TextsOne(d.data);
  }

  /** One character string, and nothing after it. */
  lemma {:induction false} TextsOne(s: string)
    requires |s| < 0x100 && IsAscii(s)
    ensures TextsAt(StringBytes(s), 0) == Success(s)
  {
    var b := StringBytes(s);
    assert b == [] + b + [];
    TextAt(b, 0, [], s, []);
    assert TextsAt(b, |b|) == Success("");
    assert s + "" == s;
  }

  /** SRV: priority, weight and port & 0xFFFF, and the target. */
  lemma {:induction false} SrvBack(msg: seq<byte>, f: Frame, cap: int, w: Work, d: RData, hops: nat)
    requires d.Srv? && ReadableName(d.target)
    requires RDataEmit(f.start, cap, w, SRV, d).status == Going
    requires At(msg, f.start, RDataEmit(f.start, cap, w, SRV, d).bytes)
    requires f.len == |RDataEmit(f.start, cap, w, SRV, d).bytes|
    requires 0 < f.start && |msg| <= hops && Sound(msg, w.index, f.start)
    ensures f.start + f.len <= |msg|
    ensures SrvAt(msg, f, hops) ==
      Success(Srv(Low(d.priority, TWO16), Low(d.weight, TWO16), Low(d.port, TWO16), d.target))
    ensures Sound(msg, RDataEmit(f.start, cap, w, SRV, d).state.index, f.start + f.len)
  {
    var e := RDataEmit(f.start, cap, w, SRV, d);
    var n := FieldEmit(f.start + 6, cap, w, Domain(d.target));
    SrvFields(f.start, cap, w, d);
    SliceOf(msg, f, e.bytes);
    SrvNumbersBack(e.bytes, d, n.bytes);
    AtSplit(msg, f.start, SrvNumbers(d), n.bytes);
    DomainBack(msg, f.start + 6, cap, w, d.target, hops);
    SrvAtOf(msg, f, hops, Low(d.priority, TWO16), Low(d.weight, TWO16), Low(d.port, TWO16), d.target);
  }

  /** The three words the SRV state writes before the target. */
  function SrvNumbers(d: RData): (b: seq<byte>)
    requires d.Srv?
    ensures |b| == 6
  {
    U16(Low(d.priority, TWO16)) + U16(Low(d.weight, TWO16)) + U16(Low(d.port, TWO16))
  }

  /** SRV's fields: the three words, then the packed target. */
  lemma {:induction false} SrvFields(at: int, cap: int, w: Work, d: RData)
    requires d.Srv? && RDataEmit(at, cap, w, SRV, d).status == Going
    ensures var n := FieldEmit(at + 6, cap, w, Domain(d.target));
      n.status == Going &&
      RDataEmit(at, cap, w, SRV, d) == Emit(Going, SrvNumbers(d) + n.bytes, n.state)
  {
    var p, wt, port := Low(d.priority, TWO16), Low(d.weight, TWO16), Low(d.port, TWO16);
    var fs := [Word(p), Word(wt), Word(port), Domain(d.target)];
    assert fs == RDataLayout(SRV, d).value;
    var n := FieldEmit(at + 6, cap, w, Domain(d.target));
    FieldsNext(at, cap, w, fs, PutU16(at, cap, w, p));
    FieldsNext(at + 2, cap, w, fs[1..], PutU16(at + 2, cap, w, wt));
    FieldsNext(at + 4, cap, w, fs[2..], PutU16(at + 4, cap, w, port));
    FieldsNext(at + 6, cap, w, fs[3..], n);
    assert fs[1..][1..] == fs[2..] && fs[2..][1..] == fs[3..] && fs[3..][1..] == [];
    assert U16(p) + (U16(wt) + (U16(port) + (n.bytes + []))) == U16(p) + U16(wt) + U16(port) + n.bytes;
  }

  /** The three words read back from the front of the RDATA. */
  lemma {:induction false} SrvNumbersBack(b: seq<byte>, d: RData, rest: seq<byte>)
    requires d.Srv? && b == SrvNumbers(d) + rest
    ensures GetU16(b, 0) == Success(Low(d.priority, TWO16)) && GetU16(b, 2) == Success(Low(d.weight, TWO16))
    ensures GetU16(b, 4) == Success(Low(d.port, TWO16))
  {
    var p, wt, port := Low(d.priority, TWO16), Low(d.weight, TWO16), Low(d.port, TWO16);
    WordAt(b, 0, [], p, U16(wt) + U16(port) + rest);
    WordAt(b, 2, U16(p), wt, U16(port) + rest);
    WordAt(b, 4, U16(p) + U16(wt), port, rest);
  }

  /** parseSrv from the reads it makes. */
  lemma {:induction false} SrvAtOf(msg: seq<byte>, f: Frame, hops: nat, p: int, wt: int, port: int, t: string)
    requires f.start + f.len <= |msg|
    requires GetU16(Slice(msg, f), 0) == Success(p) && GetU16(Slice(msg, f), 2) == Success(wt)
    requires GetU16(Slice(msg, f), 4) == Success(port)
    requires NameAt(msg, f.start + 6, hops).Success? && NameAt(msg, f.start + 6, hops).value.0 == t
    ensures SrvAt(msg, f, hops) == Success(Srv(p, wt, port, t))
  {
  }

  /** SOA: the two names and the five numbers & 0xFFFFFFFF; parseSoa reads
      the admin name from where the primary name left the cursor and the
      numbers from where the admin name left it. */
  lemma {:induction false} SoaBack(msg: seq<byte>, f: Frame, cap: int, w: Work, d: RData, hops: nat)
    requires d.Soa? && ReadableName(d.primary) && ReadableName(d.admin)
    requires RDataEmit(f.start, cap, w, SOA, d).status == Going
    requires At(msg, f.start, RDataEmit(f.start, cap, w, SOA, d).bytes)
    requires f.len == |RDataEmit(f.start, cap, w, SOA, d).bytes|
    requires 0 < f.start && |msg| <= hops && Sound(msg, w.index, f.start)
    ensures f.start + f.len <= |msg|
    ensures SoaAt(msg, f, hops) == Success(Reduced(d))
    ensures Sound(msg, RDataEmit(f.start, cap, w, SOA, d).state.index, f.start + f.len)
  {
    var at := f.start;
    var e := RDataEmit(at, cap, w, SOA, d);
    var n1 := FieldEmit(at, cap, w, Domain(d.primary));
    var n2 := FieldEmit(at + |n1.bytes|, cap, n1.state, Domain(d.admin));
    SoaFields(at, cap, w, d);
    SoaRead(msg, f, cap, w, d, hops, n1, n2);
  }

  /** The SOA octets, written as the two names n1 and n2 and the five
      words, read back. */
  lemma {:induction false} SoaRead(msg: seq<byte>, f: Frame, cap: int, w: Work, d: RData, hops: nat,
                                   n1: Emit<Work>, n2: Emit<Work>)
    requires d.Soa? && ReadableName(d.primary) && ReadableName(d.admin)
    requires n1 == FieldEmit(f.start, cap, w, Domain(d.primary)) && n1.status == Going
    requires n2 == FieldEmit(f.start + |n1.bytes|, cap, n1.state, Domain(d.admin)) && n2.status == Going
    requires At(msg, f.start, n1.bytes + (n2.bytes + SoaNumbers(d))) && f.len == |n1.bytes| + |n2.bytes| + 20
    requires 0 < f.start && |msg| <= hops && Sound(msg, w.index, f.start)
    ensures f.start + f.len <= |msg| && SoaAt(msg, f, hops) == Success(Reduced(d))
    ensures Sound(msg, n2.state.index, f.start + f.len)
  {
    var e1 := f.start + |n1.bytes|;
    var e2 := e1 + |n2.bytes|;
    assert At(msg, f.start, n1.bytes) && At(msg, e1, n2.bytes) && At(msg, e2, SoaNumbers(d)) by {
      AtSplit(msg, f.start, n1.bytes, n2.bytes + SoaNumbers(d));
      AtSplit(msg, e1, n2.bytes, SoaNumbers(d));
    }
    TwoNamesBack(msg, f.start, cap, w, d.primary, d.admin, hops, n1, n2, e1, e2);
    SoaAtFrom(msg, f, hops, d, e1, e2, n2.state.index);
  }

  /** Two names packed one after the other, as n1 and n2, read back one
      after the other. */
  lemma {:induction false} TwoNamesBack(msg: seq<byte>, at: nat, cap: int, w: Work, p: string, a: string,
                                        hops: nat, n1: Emit<Work>, n2: Emit<Work>, e1: nat, e2: nat)
    requires ReadableName(p) && ReadableName(a)
    requires n1 == FieldEmit(at, cap, w, Domain(p)) && n1.status == Going && e1 == at + |n1.bytes|
    requires n2 == FieldEmit(e1, cap, n1.state, Domain(a)) && n2.status == Going && e2 == e1 + |n2.bytes|
    requires At(msg, at, n1.bytes) && At(msg, e1, n2.bytes)
    requires 0 < at && |msg| <= hops && Sound(msg, w.index, at)
    ensures Reads(NameAt(msg, at, hops), p, e1)
    ensures Reads(NameAt(msg, e1, hops), a, e2)
    ensures Sound(msg, n2.state.index, e2)
  {
    assert Reads(NameAt(msg, at, hops), p, e1) && Sound(msg, n1.state.index, e1) by {
      DomainBack(msg, at, cap, w, p, hops);
    }
    assert Reads(NameAt(msg, e1, hops), a, e2) && Sound(msg, n2.state.index, e2) by {
      DomainBack(msg, e1, cap, n1.state, a, hops);
    }
  }

  /** The numeric fields reduced to the widths the writers mask them to. */
  function Reduced(d: RData): (r: RData)
    ensures r.Mx? == d.Mx? && r.Srv? == d.Srv? && r.Soa? == d.Soa? && r.Naptr? == d.Naptr?
  {
    match d
    case Mx(p, x) => Mx(Low(p, TWO16), x)
    case Srv(p, wt, port, t) => Srv(Low(p, TWO16), Low(wt, TWO16), Low(port, TWO16), t)
    case Soa(p, a, serial, refresh, retry, expiration, minimum) =>
      Soa(p, a, Low(serial, TWO32), Low(refresh, TWO32), Low(retry, TWO32), Low(expiration, TWO32),
          Low(minimum, TWO32))
    case Naptr(o, pref, fl, sv, re, rp) => Naptr(Low(o, TWO16), Low(pref, TWO16), fl, sv, re, rp)
    case _ => d
  }

  /** The five words the SOA state writes after the names. */
  function SoaNumbers(d: RData): (b: seq<byte>)
    requires d.Soa?
    ensures |b| == 20
  {
    U32(Low(d.serial, TWO32)) + U32(Low(d.refresh, TWO32)) + U32(Low(d.retry, TWO32)) +
    U32(Low(d.expiration, TWO32)) + U32(Low(d.minimum, TWO32))
  }

  /** SOA's fields: the two packed names, then the five words. */
  lemma {:induction false} SoaFields(at: int, cap: int, w: Work, d: RData)
    requires d.Soa? && RDataEmit(at, cap, w, SOA, d).status == Going
    ensures var n1 := FieldEmit(at, cap, w, Domain(d.primary));
      var n2 := FieldEmit(at + |n1.bytes|, cap, n1.state, Domain(d.admin));
      n1.status == Going && n2.status == Going &&
      RDataEmit(at, cap, w, SOA, d) == Emit(Going, n1.bytes + (n2.bytes + SoaNumbers(d)), n2.state)
  {
    var n1 := FieldEmit(at, cap, w, Domain(d.primary));
    SoaFront(at, cap, w, d);
    SoaRest(at + |n1.bytes|, cap, n1.state, d);
  }

  /** The fields after SOA's primary name: the admin name, then the five
      words. */
  lemma {:induction false} SoaRest(at: int, cap: int, w: Work, d: RData)
    requires d.Soa? && FieldsEmit(at, cap, w, [Domain(d.admin)] + SoaLongFields(d)).status == Going
    ensures var n2 := FieldEmit(at, cap, w, Domain(d.admin));
      n2.status == Going &&
      FieldsEmit(at, cap, w, [Domain(d.admin)] + SoaLongFields(d)) == Emit(Going, n2.bytes + SoaNumbers(d), n2.state)
  {
    var n2 := FieldEmit(at, cap, w, Domain(d.admin));
    var longs := SoaLongFields(d);
    FieldsGoing(at, cap, w, [Domain(d.admin)] + longs, n2);
    assert ([Domain(d.admin)] + longs)[1..] == longs;
    SoaLongs(at + |n2.bytes|, cap, n2.state, d, longs);
  }

  /** The five words of SOA's layout. */
  function SoaLongFields(d: RData): (fs: seq<Field>)
    requires d.Soa?
    ensures |fs| == 5
  {
    [Long(Low(d.serial, TWO32)), Long(Low(d.refresh, TWO32)), Long(Low(d.retry, TWO32)),
     Long(Low(d.expiration, TWO32)), Long(Low(d.minimum, TWO32))]
  }

  /** SOA's first field, the primary name, and the fields after it. */
  lemma {:induction false} SoaFront(at: int, cap: int, w: Work, d: RData)
    requires d.Soa? && RDataEmit(at, cap, w, SOA, d).status == Going
    ensures var n1 := FieldEmit(at, cap, w, Domain(d.primary));
      var rest := FieldsEmit(at + |n1.bytes|, cap, n1.state, [Domain(d.admin)] + SoaLongFields(d));
      n1.status == Going && rest.status == Going && RDataEmit(at, cap, w, SOA, d) == Cat(n1.bytes, rest)
  {
    var fs := [Domain(d.primary)] + ([Domain(d.admin)] + SoaLongFields(d));
    assert fs == RDataLayout(SOA, d).value;
    assert fs[1..] == [Domain(d.admin)] + SoaLongFields(d);
    FieldsGoing(at, cap, w, fs, FieldEmit(at, cap, w, Domain(d.primary)));
  }

  /** FieldsNext when the fields as a whole go on: then so does the first,
      and so do the rest after it. */
  lemma {:induction false} FieldsGoing(at: int, cap: int, w: Work, fs: seq<Field>, e: Emit<Work>)
    requires fs != [] && e == FieldEmit(at, cap, w, fs[0]) && FieldsEmit(at, cap, w, fs).status == Going
    ensures e.status == Going && FieldsEmit(at + |e.bytes|, cap, e.state, fs[1..]).status == Going
    ensures FieldsEmit(at, cap, w, fs) == Cat(e.bytes, FieldsEmit(at + |e.bytes|, cap, e.state, fs[1..]))
  {
    FieldsNext(at, cap, w, fs, e);
  }

  /** The five words written one after the other. */
  lemma {:induction false} SoaLongs(at: int, cap: int, w: Work, d: RData, fs: seq<Field>)
    requires d.Soa? && FieldsEmit(at, cap, w, fs).status == Going
    requires fs == SoaLongFields(d)
    ensures FieldsEmit(at, cap, w, fs) == Emit(Going, SoaNumbers(d), w)
  {
    var a, b, c := U32(Low(d.serial, TWO32)), U32(Low(d.refresh, TWO32)), U32(Low(d.retry, TWO32));
    var x, y := U32(Low(d.expiration, TWO32)), U32(Low(d.minimum, TWO32));
    FieldsNext(at, cap, w, fs, PutU32(at, cap, w, Low(d.serial, TWO32)));
    FieldsNext(at + 4, cap, w, fs[1..], PutU32(at + 4, cap, w, Low(d.refresh, TWO32)));
    FieldsNext(at + 8, cap, w, fs[2..], PutU32(at + 8, cap, w, Low(d.retry, TWO32)));
    FieldsNext(at + 12, cap, w, fs[3..], PutU32(at + 12, cap, w, Low(d.expiration, TWO32)));
    FieldsNext(at + 16, cap, w, fs[4..], PutU32(at + 16, cap, w, Low(d.minimum, TWO32)));
    assert fs[1..][1..] == fs[2..] && fs[2..][1..] == fs[3..] && fs[3..][1..] == fs[4..];
    assert fs[4..][1..] == [];
    assert a + (b + (c + (x + (y + [])))) == a + b + c + x + y;
  }

  /** The five words read back from offset k of the RDATA. */
  lemma {:induction false} SoaNumbersBack(b: seq<byte>, k: nat, d: RData, front: seq<byte>, rest: seq<byte>)
    requires d.Soa? && b == front + SoaNumbers(d) + rest && k == |front|
    ensures SoaNumbersAt(b, k, d.primary, d.admin) == Success(Reduced(d))
  {
    var a, b1, c := U32(Low(d.serial, TWO32)), U32(Low(d.refresh, TWO32)), U32(Low(d.retry, TWO32));
    var x, y := U32(Low(d.expiration, TWO32)), U32(Low(d.minimum, TWO32));
    LongAt(b, k, front, Low(d.serial, TWO32), b1 + c + x + y + rest);
    LongAt(b, k + 4, front + a, Low(d.refresh, TWO32), c + x + y + rest);
    LongAt(b, k + 8, front + a + b1, Low(d.retry, TWO32), x + y + rest);
    LongAt(b, k + 12, front + a + b1 + c, Low(d.expiration, TWO32), y + rest);
    LongAt(b, k + 16, front + a + b1 + c + x, Low(d.minimum, TWO32), rest);
  }

  /** parseSoa from the reads it makes: the primary name ending at e1, the
      admin name read from there ending at e2, and the five words filling
      the RDATA from e2 to its end. */
  lemma {:induction false} SoaAtFrom(msg: seq<byte>, f: Frame, hops: nat, d: RData, e1: nat, e2: nat, index: Index)
    requires d.Soa? && f.start <= e2 && e2 + 20 == f.start + f.len
    requires Reads(NameAt(msg, f.start, hops), d.primary, e1) && Reads(NameAt(msg, e1, hops), d.admin, e2)
    requires At(msg, e2, SoaNumbers(d)) && Sound(msg, index, e2)
    ensures f.start + f.len <= |msg| && SoaAt(msg, f, hops) == Success(Reduced(d))
    ensures Sound(msg, index, f.start + f.len)
  {
    SoundGrow(msg, index, e2, f.start + f.len);
    SoaNumbersIn(msg, f, d, e2);
    SoaAtOf(msg, f, hops, d.primary, d.admin, e1, e2, Reduced(d));
  }

  /** The five words at the end of the RDATA read back from its slice. */
  lemma {:induction false} SoaNumbersIn(msg: seq<byte>, f: Frame, d: RData, e2: nat)
    requires d.Soa? && f.start <= e2 && e2 + 20 == f.start + f.len && At(msg, e2, SoaNumbers(d))
    ensures f.start + f.len <= |msg|
    ensures SoaNumbersAt(Slice(msg, f), e2 - f.start, d.primary, d.admin) == Success(Reduced(d))
  {
    AtSlice(msg, e2, SoaNumbers(d));
    var k := e2 - f.start;
    var b := Slice(msg, f);
    assert b == b[..k] + SoaNumbers(d) + [] by {
      assert b[k..] == msg[e2..e2 + 20];
    }
    SoaNumbersBack(b, k, d, b[..k], []);
  }

  /** parseSoa from the two name reads and the read of the numbers. */
  lemma {:induction false} SoaAtOf(msg: seq<byte>, f: Frame, hops: nat, p: string, a: string, e1: nat, e2: nat,
                                   r: RData)
    requires f.start + f.len <= |msg| && f.start <= e2 <= f.start + f.len
    requires Reads(NameAt(msg, f.start, hops), p, e1) && Reads(NameAt(msg, e1, hops), a, e2)
    requires SoaNumbersAt(Slice(msg, f), e2 - f.start, p, a) == Success(r)
    ensures SoaAt(msg, f, hops) == Success(r)
  {
  }

  /** NAPTR: order and preference & 0xFFFF and the four character strings,
      each of 'ascii' characters. */
  lemma {:induction false} NaptrBack(msg: seq<byte>, f: Frame, cap: int, w: Work, d: RData)
    requires d.Naptr? && IsAscii(d.flags) && IsAscii(d.service) && IsAscii(d.regexp) && IsAscii(d.replacement)
    requires RDataEmit(f.start, cap, w, NAPTR, d).status == Going
    requires At(msg, f.start, RDataEmit(f.start, cap, w, NAPTR, d).bytes)
    requires f.len == |RDataEmit(f.start, cap, w, NAPTR, d).bytes|
    ensures f.start + f.len <= |msg|
    ensures NaptrAt(Slice(msg, f)) == Success(Reduced(d))
    ensures RDataEmit(f.start, cap, w, NAPTR, d).state == w
  {
    NaptrFields(f.start, cap, w, d);
    SliceOf(msg, f, NaptrBytes(d));
    NaptrBytesBack(d);
  }

  /** The four character strings of NAPTR's layout. */
  function NaptrTextFields(d: RData): (fs: seq<Field>)
    requires d.Naptr?
    ensures |fs| == 4
  {
    [Text(d.flags), Text(d.service), Text(d.regexp), Text(d.replacement)]
  }

  /** The four character strings as written. */
  function NaptrTexts(d: RData): seq<byte>
    requires d.Naptr?
  {
    StringBytes(d.flags) + (StringBytes(d.service) + (StringBytes(d.regexp) + StringBytes(d.replacement)))
  }

  /** The octets the NAPTR state writes. */
  function NaptrBytes(d: RData): seq<byte>
    requires d.Naptr?
  {
    U16(Low(d.order, TWO16)) + (U16(Low(d.preference, TWO16)) + NaptrTexts(d))
  }

  /** NAPTR's fields: the two words, then the four strings, none of them
      longer than 255 characters. */
  lemma {:induction false} NaptrFields(at: int, cap: int, w: Work, d: RData)
    requires d.Naptr? && RDataEmit(at, cap, w, NAPTR, d).status == Going
    ensures |d.flags| < 0x100 && |d.service| < 0x100 && |d.regexp| < 0x100 && |d.replacement| < 0x100
    ensures RDataEmit(at, cap, w, NAPTR, d) == Emit(Going, NaptrBytes(d), w)
  {
    var o, p := Low(d.order, TWO16), Low(d.preference, TWO16);
    var texts := NaptrTextFields(d);
    var fs := [Word(o)] + ([Word(p)] + texts);
    assert fs == RDataLayout(NAPTR, d).value;
    assert fs[1..] == [Word(p)] + texts && ([Word(p)] + texts)[1..] == texts;
    FieldsGoing(at, cap, w, fs, PutU16(at, cap, w, o));
    FieldsGoing(at + 2, cap, w, fs[1..], PutU16(at + 2, cap, w, p));
    TextsFields(at + 4, cap, w, d);
  }

  /** The four strings written one after the other. */
  lemma {:induction false} TextsFields(at: int, cap: int, w: Work, d: RData)
    requires d.Naptr? && FieldsEmit(at, cap, w, NaptrTextFields(d)).status == Going
    ensures |d.flags| < 0x100 && |d.service| < 0x100 && |d.regexp| < 0x100 && |d.replacement| < 0x100
    ensures FieldsEmit(at, cap, w, NaptrTextFields(d)) == Emit(Going, NaptrTexts(d), w)
  {
    var fs := NaptrTextFields(d);
    var a, b, c, e := StringBytes(d.flags), StringBytes(d.service), StringBytes(d.regexp),
      StringBytes(d.replacement);
    assert fs[1..][1..] == fs[2..] && fs[2..][1..] == fs[3..] && fs[3..][1..] == [];
    FieldsGoing(at, cap, w, fs, PutString(at, cap, w, d.flags));
    FieldsGoing(at + |a|, cap, w, fs[1..], PutString(at + |a|, cap, w, d.service));
    FieldsGoing(at + |a| + |b|, cap, w, fs[2..], PutString(at + |a| + |b|, cap, w, d.regexp));
    FieldsGoing(at + |a| + |b| + |c|, cap, w, fs[3..], PutString(at + |a| + |b| + |c|, cap, w, d.replacement));
    assert e + [] == e;
  }

  /** parseNaptr reads NaptrBytes back. */
  lemma {:induction false} NaptrBytesBack(d: RData)
    requires d.Naptr? && IsAscii(d.flags) && IsAscii(d.service) && IsAscii(d.regexp) && IsAscii(d.replacement)
    requires |d.flags| < 0x100 && |d.service| < 0x100 && |d.regexp| < 0x100 && |d.replacement| < 0x100
    ensures NaptrAt(NaptrBytes(d)) == Success(Reduced(d))
  {
    var k1 := 4 + 1 + |d.flags|;
    var k2 := k1 + 1 + |d.service|;
    var k3 := k2 + 1 + |d.regexp|;
    var m := NaptrBytes(d);
    assert At(m, 0, m) by {
      AtSlice(m, 0, m);
      assert m[0..|m|] == m;
    }
    NaptrReads(m, d);
    NaptrAtOf(m, Reduced(d), k1, k2, k3);
  }

  /** The six reads of parseNaptr over octets that start with NaptrBytes. */
  lemma {:induction false} NaptrReads(m: seq<byte>, d: RData)
    requires d.Naptr? && IsAscii(d.flags) && IsAscii(d.service) && IsAscii(d.regexp) && IsAscii(d.replacement)
    requires |d.flags| < 0x100 && |d.service| < 0x100 && |d.regexp| < 0x100 && |d.replacement| < 0x100
    requires At(m, 0, NaptrBytes(d))
    ensures var k1 := 4 + 1 + |d.flags|;
      var k2 := k1 + 1 + |d.service|;
      var k3 := k2 + 1 + |d.regexp|;
      GetU16(m, 0) == Success(Low(d.order, TWO16)) && GetU16(m, 2) == Success(Low(d.preference, TWO16)) &&
      Reads(StringAt(m, 4), d.flags, k1) && Reads(StringAt(m, k1), d.service, k2) &&
      Reads(StringAt(m, k2), d.regexp, k3) && Reads(StringAt(m, k3), d.replacement, k3 + 1 + |d.replacement|)
  {
    var o, p := Low(d.order, TWO16), Low(d.preference, TWO16);
    WordThen(m, 0, o, U16(p) + NaptrTexts(d));
    WordThen(m, 2, p, NaptrTexts(d));
    NaptrStrings(m, 4, d);
  }

  /** The four character strings of NAPTR read back from offset k. */
  lemma {:induction false} NaptrStrings(m: seq<byte>, k: nat, d: RData)
    requires d.Naptr? && IsAscii(d.flags) && IsAscii(d.service) && IsAscii(d.regexp) && IsAscii(d.replacement)
    requires |d.flags| < 0x100 && |d.service| < 0x100 && |d.regexp| < 0x100 && |d.replacement| < 0x100
    requires At(m, k, NaptrTexts(d))
    ensures var k1 := k + 1 + |d.flags|;
      var k2 := k1 + 1 + |d.service|;
      var k3 := k2 + 1 + |d.regexp|;
      Reads(StringAt(m, k), d.flags, k1) && Reads(StringAt(m, k1), d.service, k2) &&
      Reads(StringAt(m, k2), d.regexp, k3) && Reads(StringAt(m, k3), d.replacement, k3 + 1 + |d.replacement|)
  {
    var c, e := StringBytes(d.regexp), StringBytes(d.replacement);
    TwoStrings(m, k, d.flags, d.service, c + e);
    assert e == e + [];
    TwoStrings(m, k + 1 + |d.flags| + 1 + |d.service|, d.regexp, d.replacement, []);
  }

  /** Two character strings one after the other read back. */
  lemma {:induction false} TwoStrings(m: seq<byte>, k: nat, s: string, t: string, rest: seq<byte>)
    requires |s| < 0x100 && IsAscii(s) && |t| < 0x100 && IsAscii(t)
    requires At(m, k, StringBytes(s) + (StringBytes(t) + rest))
    ensures Reads(StringAt(m, k), s, k + 1 + |s|)
    ensures Reads(StringAt(m, k + 1 + |s|), t, k + 1 + |s| + 1 + |t|)
    ensures At(m, k + 1 + |s| + 1 + |t|, rest)
  {
    StringThen(m, k, s, StringBytes(t) + rest);
    StringThen(m, k + 1 + |s|, t, rest);
  }

  /** A 16-bit word at k reads back, and what follows it starts at k + 2. */
  lemma {:induction false} WordThen(m: seq<byte>, k: nat, v: int, rest: seq<byte>)
    requires 0 <= v < TWO16 && At(m, k, U16(v) + rest)
    ensures GetU16(m, k) == Success(v) && At(m, k + 2, rest)
  {
    AtSplit(m, k, U16(v), rest);
    ReadU16Back(m, k, v);
  }

  /** A character string at k reads back, and what follows it starts right
      after it. */
  lemma {:induction false} StringThen(m: seq<byte>, k: nat, s: string, rest: seq<byte>)
    requires |s| < 0x100 && IsAscii(s) && At(m, k, StringBytes(s) + rest)
    ensures Reads(StringAt(m, k), s, k + 1 + |s|) && At(m, k + 1 + |s|, rest)
  {
    AtSplit(m, k, StringBytes(s), rest);
    ReadStringBack(m, k, s);
  }

  /** parseNaptr from the reads it makes. */
  lemma {:induction false} NaptrAtOf(m: seq<byte>, r: RData, k1: nat, k2: nat, k3: nat)
    requires r.Naptr?
    requires GetU16(m, 0) == Success(r.order) && GetU16(m, 2) == Success(r.preference)
    requires Reads(StringAt(m, 4), r.flags, k1) && Reads(StringAt(m, k1), r.service, k2)
    requires Reads(StringAt(m, k2), r.regexp, k3) && StringAt(m, k3).Success?
    requires StringAt(m, k3).value.0 == r.replacement
    ensures NaptrAt(m) == Success(r)
  {
  }

  // ---------------------------------------------------------------------
  // Every handled type.

  /** What the RDATA of a record must hold for it to read back: the
      variant the type's state reads, names the reader can follow, strings
      of 'ascii' characters, a whole address. OPT and unhandled types are
      not among them. */
  predicate RDataReadable(tag: Tag, d: RData)
  {
    match tag
    case A => d.Address? && |d.address| >= 4
    case AAAA => d.Address? && |d.address| >= 16
    case NS | CNAME | PTR => d.Data? && ReadableName(d.data)
    case TXT | SPF => d.Data? && IsAscii(d.data)
    case MX => d.Mx? && ReadableName(d.exchange)
    case SRV => d.Srv? && ReadableName(d.target)
    case SOA => d.Soa? && ReadableName(d.primary) && ReadableName(d.admin)
    case NAPTR =>
      d.Naptr? && IsAscii(d.flags) && IsAscii(d.service) && IsAscii(d.regexp) && IsAscii(d.replacement)
    case OPT | Unhandled => false
  }

  /** What the RDATA state of tag reads back: the first 4 (16) octets of
      an A (AAAA) address, and otherwise the data with its numbers masked. */
  function Expected(tag: Tag, d: RData): RData
  {
    if d.Address? && tag == A && |d.address| >= 4 then Address(d.address[..4])
    else if d.Address? && tag == AAAA && |d.address| >= 16 then Address(d.address[..16])
    else Reduced(d)
  }

  /** The RDATA state of every handled type read back by parseRR's reader
      for that type, leaving the compression index sound. */
  lemma {:induction false} RDataBack(msg: seq<byte>, f: Frame, cap: int, w: Work, tag: Tag, d: RData, hops: nat)
    requires RDataReadable(tag, d)
    requires RDataEmit(f.start, cap, w, tag, d).status == Going
    requires At(msg, f.start, RDataEmit(f.start, cap, w, tag, d).bytes)
    requires f.len == |RDataEmit(f.start, cap, w, tag, d).bytes|
    requires 0 < f.start && |msg| <= hops && Sound(msg, w.index, f.start)
    ensures f.start + f.len <= |msg|
    ensures RDataAt(msg, f, tag, hops) == Success(Expected(tag, d))
    ensures Sound(msg, RDataEmit(f.start, cap, w, tag, d).state.index, f.start + f.len)
  {
    match tag {
      case A | AAAA =>
        AddressBack(msg, f, cap, w, tag, d);
        SoundGrow(msg, w.index, f.start, f.start + f.len);
      case NS | CNAME | PTR => CnameBack(msg, f, cap, w, tag, d, hops);
      case TXT | SPF =>
        TxtBack(msg, f, cap, w, tag, d);
        SoundGrow(msg, w.index, f.start, f.start + f.len);
      case MX => MxBack(msg, f, cap, w, d, hops);
      case SRV => SrvBack(msg, f, cap, w, d, hops);
      case SOA => SoaBack(msg, f, cap, w, d, hops);
      case NAPTR =>
        NaptrBack(msg, f, cap, w, d);
        SoundGrow(msg, w.index, f.start, f.start + f.len);
    }
  }
}
