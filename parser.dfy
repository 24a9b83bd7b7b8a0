/** Packet.parse and its helpers as packet.js runs them: a reader cursor
    over the message, a second one over each record's RDATA, and the packet
    object filled in place, each proved to build what Decode describes. */
module Parsing {
  import opened Wrappers
  import opened Wire
  import opened Messages
  import opened Names
  import opened Headers
  import opened Cursors
  import opened Decoding

  /** parseHeader(msg, packet, counts) */
  method ParseHeader(msg: Reader, packet: Packet) returns (r: Result<Counts, DecodeError>)
    requires msg.Valid() && msg.pos == 0
    modifies msg, packet
    ensures msg.Valid()
    ensures var h := HeaderAt(msg.data);
      (r.Success? <==> h.Success?) &&
      (r.Success? ==> r.value == h.value.counts && msg.pos == 12 &&
                      packet.Value() == old(packet.Value()).(header := h.value.header)) &&
      (r.Failure? ==> r.error == h.error)
  {
    var id := msg.ReadU16();
    if id.Failure? {
      return Failure(id.error);
    }
    var val := msg.ReadU16();
    if val.Failure? {
      return Failure(val.error);
    }
    packet.header := ParseFlags(id.value, val.value);
    var qd := msg.ReadU16();
    if qd.Failure? {
      return Failure(qd.error);
    }
    var an := msg.ReadU16();
    if an.Failure? {
      return Failure(an.error);
    }
    var ns := msg.ReadU16();
    if ns.Failure? {
      return Failure(ns.error);
    }
    var ar := msg.ReadU16();
    if ar.Failure? {
      return Failure(ar.error);
    }
    r := Success(Counts(qd.value, an.value, ns.value, ar.value));
  }

  /** parseQuestion(msg, packet): the question is pushed to the packet. */
  method ParseQuestion(msg: Reader, packet: Packet, hops: nat) returns (r: Result<Question, DecodeError>)
    requires msg.Valid()
    modifies msg, packet
    ensures msg.Valid()
    ensures var q := QuestionAt(msg.data, old(msg.pos), hops);
      (r.Success? <==> q.Success?) &&
      (r.Success? ==> r.value == q.value.0 && msg.pos == q.value.1 &&
                      packet.Value() == old(packet.Value()).(question := old(packet.question) + [r.value])) &&
      (r.Failure? ==> r.error == q.error)
  {
    var name := NameUnpack(msg, hops);
    if name.Failure? {
      return Failure(name.error);
    }
    var qtype := msg.ReadU16();
    if qtype.Failure? {
      return Failure(qtype.error);
    }
    var qclass := msg.ReadU16();
    if qclass.Failure? {
      return Failure(qclass.error);
    }
    var val := Question(Some(name.value), Some(qtype.value), Some(qclass.value));
    packet.question := packet.question + [val];
    r := Success(val);
  }

  /** parseRR(msg, val, rdata): the record's fixed fields, and a cursor
      over its RDATA (rdata.buf, whose length is rdata.len). */
  method ParseRR(msg: Reader, hops: nat) returns (r: Result<(Rr, Reader), DecodeError>)
    requires msg.Valid()
    modifies msg
    ensures msg.Valid()
    ensures var f := FrameAt(msg.data, old(msg.pos), hops);
      (r.Success? <==> f.Success?) &&
      (r.Success? ==> r.value.0 == f.value.rr && msg.pos == f.value.start + f.value.len &&
                      fresh(r.value.1) && r.value.1.Valid() && r.value.1.pos == 0 &&
                      r.value.1.data == Slice(msg.data, f.value)) &&
      (r.Failure? ==> r.error == f.error)
  {
    var name := NameUnpack(msg, hops);
    if name.Failure? {
      return Failure(name.error);
    }
    var rtype := msg.ReadU16();
    if rtype.Failure? {
      return Failure(rtype.error);
    }
    var rclass := msg.ReadU16();
    if rclass.Failure? {
      return Failure(rclass.error);
    }
    var ttl := msg.ReadU32();
    if ttl.Failure? {
      return Failure(ttl.error);
    }
    var len := msg.ReadU16();
    if len.Failure? {
      return Failure(len.error);
    }
    var buf := msg.Slice(len.value);
    if buf.Failure? {
      return Failure(buf.error);
    }
    r := Success((Rr(Some(name.value), Some(rtype.value), Some(rclass.value), Some(ttl.value), NoData),
                  buf.value));
  }

  /** parseA: four octets, read one at a time. */
  method ParseA(rdata: Reader) returns (r: Result<RData, DecodeError>)
    requires rdata.Valid() && rdata.pos == 0
    modifies rdata
    ensures r == AddressAt(rdata.data, 4)
  {
    var b0 := rdata.ReadU8();
    if b0.Failure? {
      return Failure(b0.error);
    }
    var b1 := rdata.ReadU8();
    if b1.Failure? {
      return Failure(b1.error);
    }
    var b2 := rdata.ReadU8();
    if b2.Failure? {
      return Failure(b2.error);
    }
    var b3 := rdata.ReadU8();
    if b3.Failure? {
      return Failure(b3.error);
    }
    assert rdata.data[..4] == [b0.value, b1.value, b2.value, b3.value];
    r := Success(Address([b0.value, b1.value, b2.value, b3.value]));
  }

  /** The two octets of a 16-bit word read back from where they lay. */
  lemma WordOctets(s: seq<byte>, p: nat)
    requires p + 2 <= |s|
    ensures U16(BeU16(s, p)) == s[p..p + 2]
  {
  }

  /** parseAAAA: eight 16-bit words; the address keeps their sixteen
      octets. */
  method ParseAaaa(rdata: Reader) returns (r: Result<RData, DecodeError>)
    requires rdata.Valid() && rdata.pos == 0
    modifies rdata
    ensures r == AddressAt(rdata.data, 16)
  {
    var address: seq<byte> := [];
    var i := 0;
    while i < 8
      invariant 0 <= i <= 8 && rdata.Valid() && rdata.pos == 2 * i
      invariant address == rdata.data[..2 * i]
    {
      var word := rdata.ReadU16();
      if word.Failure? {
        return Failure(word.error);
      }
      WordOctets(rdata.data, 2 * i);
      address := address + U16(word.value);
      i := i + 1;
    }
    r := Success(Address(address));
  }

  /** parseCname: the message cursor is moved back to the start of the
      RDATA, a name is read there, and the cursor is put back. */
  method ParseCname(msg: Reader, rdata: Reader, hops: nat, ghost f: Frame) returns (r: Result<RData, DecodeError>)
    requires msg.Valid() && f.start + f.len == msg.pos && |rdata.data| == f.len
    modifies msg
    ensures msg.Valid() && (r.Success? ==> msg.pos == old(msg.pos))
    ensures r == CnameAt(msg.data, f, hops)
  {
    var pos := msg.pos;
    msg.Seek(pos - |rdata.data|);
    var data := NameUnpack(msg, hops);
    if data.Failure? {
      return Failure(data.error);
    }
    msg.Seek(pos);
    r := Success(Data(data.value));
  }

  /** parseTxt: character strings are read and concatenated until the
      RDATA cursor reaches its end. */
  method ParseTxt(rdata: Reader) returns (r: Result<RData, DecodeError>)
    requires rdata.Valid() && rdata.pos == 0
    modifies rdata
    ensures r == TxtAt(rdata.data)
  {
    ghost var goal := TextsAt(rdata.data, 0);
    var data := "";
    BehindNothing(goal);
    while !rdata.Eof()
      invariant rdata.Valid()
      invariant goal == Behind(data, TextsAt(rdata.data, rdata.pos))
      decreases |rdata.data| - rdata.pos
    {
      ghost var k := rdata.pos;
      var len := rdata.ReadU8();
      var part := rdata.ReadAscii(len.value);
      if part.Failure? {
        return Failure(part.error);
      }
      assert StringAt(rdata.data, k) == Success((part.value, rdata.pos));
      assert TextsAt(rdata.data, k) == Behind(part.value, TextsAt(rdata.data, rdata.pos));
      BehindBehind(data, part.value, TextsAt(rdata.data, rdata.pos));
      data := data + part.value;
    }
    assert data + "" == data;
    r := Success(Data(data));
  }

  /** parseMx: a 16-bit word from the RDATA, then a name read from the
      message at the matching offset, and the message cursor put back. */
  method ParseMx(msg: Reader, rdata: Reader, hops: nat, ghost f: Frame) returns (r: Result<RData, DecodeError>)
    requires msg.Valid() && f.start + f.len == msg.pos && rdata.data == Slice(msg.data, f)
    requires rdata.Valid() && rdata.pos == 0 && msg != rdata
    modifies msg, rdata
    ensures msg.Valid() && (r.Success? ==> msg.pos == old(msg.pos))
    ensures r == MxAt(msg.data, f, hops)
  {
    var priority := rdata.ReadU16();
    if priority.Failure? {
      return Failure(priority.error);
    }
    var pos := msg.pos;
    msg.Seek(pos - |rdata.data| + rdata.pos);
    var exchange := NameUnpack(msg, hops);
    if exchange.Failure? {
      return Failure(exchange.error);
    }
    msg.Seek(pos);
    r := Success(Mx(priority.value, exchange.value));
  }

  /** parseSrv: three 16-bit words from the RDATA, then a name read from
      the message at the matching offset, and the message cursor put back. */
  method ParseSrv(msg: Reader, rdata: Reader, hops: nat, ghost f: Frame) returns (r: Result<RData, DecodeError>)
    requires msg.Valid() && f.start + f.len == msg.pos && rdata.data == Slice(msg.data, f)
    requires rdata.Valid() && rdata.pos == 0 && msg != rdata
    modifies msg, rdata
    ensures msg.Valid() && (r.Success? ==> msg.pos == old(msg.pos))
    ensures r == SrvAt(msg.data, f, hops)
  {
    var priority := rdata.ReadU16();
    if priority.Failure? {
      return Failure(priority.error);
    }
    var weight := rdata.ReadU16();
    if weight.Failure? {
      return Failure(weight.error);
    }
    var port := rdata.ReadU16();
    if port.Failure? {
      return Failure(port.error);
    }
    var pos := msg.pos;
    msg.Seek(pos - |rdata.data| + rdata.pos);
    var target := NameUnpack(msg, hops);
    if target.Failure? {
      return Failure(target.error);
    }
    msg.Seek(pos);
    r := Success(Srv(priority.value, weight.value, port.value, target.value));
  }

  /** parseSoa: two names read from the message at the start of the
      RDATA, the RDATA cursor moved to where they ended, the message cursor
      put back, and five 32-bit words read from the RDATA. */
  method ParseSoa(msg: Reader, rdata: Reader, hops: nat, ghost f: Frame) returns (r: Result<RData, DecodeError>)
    requires msg.Valid() && f.start + f.len == msg.pos && rdata.data == Slice(msg.data, f)
    requires rdata.Valid() && rdata.pos == 0 && msg != rdata
    modifies msg, rdata
    ensures msg.Valid() && (r.Success? ==> msg.pos == old(msg.pos))
    ensures r == SoaAt(msg.data, f, hops)
  {
    var pos := msg.pos;
    msg.Seek(pos - |rdata.data| + rdata.pos);
    var primary := NameUnpack(msg, hops);
    if primary.Failure? {
      return Failure(primary.error);
    }
    var admin := NameUnpack(msg, hops);
    if admin.Failure? {
      return Failure(admin.error);
    }
    var local := msg.pos - (pos - |rdata.data| + rdata.pos);
    if local < 0 || local > |rdata.data| {
      return Failure(BadSeek);
    }
    rdata.Seek(local);
    msg.Seek(pos);
    r := ParseSoaNumbers(rdata, primary.value, admin.value);
  }

  /** The five 32-bit words that end parseSoa. */
  method ParseSoaNumbers(rdata: Reader, primary: string, admin: string) returns (r: Result<RData, DecodeError>)
    requires rdata.Valid()
    modifies rdata
    ensures r == SoaNumbersAt(rdata.data, old(rdata.pos), primary, admin)
  {
    var serial := rdata.ReadU32();
    if serial.Failure? {
      return Failure(serial.error);
    }
    var refresh := rdata.ReadU32();
    if refresh.Failure? {
      return Failure(refresh.error);
    }
    var retry := rdata.ReadU32();
    if retry.Failure? {
      return Failure(retry.error);
    }
    var expiration := rdata.ReadU32();
    if expiration.Failure? {
      return Failure(expiration.error);
    }
    var minimum := rdata.ReadU32();
    if minimum.Failure? {
      return Failure(minimum.error);
    }
    r := Success(Soa(primary, admin, serial.value, refresh.value, retry.value, expiration.value,
                     minimum.value));
  }

  /** readUInt8 then toString('ascii', len), as parseTxt and parseNaptr
      read a character string. */
  method ReadString(rdata: Reader) returns (r: Result<string, DecodeError>)
    requires rdata.Valid()
    modifies rdata
    ensures rdata.Valid()
    ensures var s := StringAt(rdata.data, old(rdata.pos));
      (r.Success? <==> s.Success?) &&
      (r.Success? ==> r.value == s.value.0 && rdata.pos == s.value.1) &&
      (r.Failure? ==> r.error == s.error)
  {
    var len := rdata.ReadU8();
    if len.Failure? {
      return Failure(len.error);
    }
    r := rdata.ReadAscii(len.value);
  }

  /** parseNaptr: two 16-bit words and four character strings. */
  method ParseNaptr(rdata: Reader) returns (r: Result<RData, DecodeError>)
    requires rdata.Valid() && rdata.pos == 0
    modifies rdata
    ensures r == NaptrAt(rdata.data)
  {
    var order := rdata.ReadU16();
    if order.Failure? {
      return Failure(order.error);
    }
    var preference := rdata.ReadU16();
    if preference.Failure? {
      return Failure(preference.error);
    }
    var flags := ReadString(rdata);
    if flags.Failure? {
      return Failure(flags.error);
    }
    var service := ReadString(rdata);
    if service.Failure? {
      return Failure(service.error);
    }
    var regexp := ReadString(rdata);
    if regexp.Failure? {
      return Failure(regexp.error);
    }
    var replacement := ReadString(rdata);
    if replacement.Failure? {
      return Failure(replacement.error);
    }
    r := Success(Naptr(order.value, preference.value, flags.value, service.value, regexp.value,
                       replacement.value));
  }

  /** The state of a record's type, other than OPT: the fields it reads. */
  method ParseRData(msg: Reader, rdata: Reader, tag: Tag, hops: nat, ghost f: Frame)
    returns (r: Result<RData, DecodeError>)
    requires msg.Valid() && f.start + f.len == msg.pos && rdata.data == Slice(msg.data, f)
    requires rdata.Valid() && rdata.pos == 0 && msg != rdata
    modifies msg, rdata
    ensures msg.Valid() && (r.Success? ==> msg.pos == old(msg.pos))
    ensures r == RDataAt(msg.data, f, tag, hops)
  {
    match tag
    case A => r := ParseA(rdata);
    case AAAA => r := ParseAaaa(rdata);
    case NS | CNAME | PTR => r := ParseCname(msg, rdata, hops, f);
    case TXT | SPF => r := ParseTxt(rdata);
    case MX => r := ParseMx(msg, rdata, hops, f);
    case SRV => r := ParseSrv(msg, rdata, hops, f);
    case SOA => r := ParseSoa(msg, rdata, hops, f);
    case NAPTR => r := ParseNaptr(rdata);
    case OPT | Unhandled => r := Success(NoData);
  }

  /** The OPT state, apart from its count update: the EDNS fields, then
      the options pushed to the packet. */
  method ParseOpt(msg: Reader, packet: Packet, val: Rr, rdata: Reader, ghost f: Frame)
    returns (r: Result<(), DecodeError>)
    requires msg.Valid() && f.start + f.len == msg.pos && rdata.data == Slice(msg.data, f)
    requires rdata.Valid() && rdata.pos == 0 && 6 <= f.start && val == f.rr
    modifies msg, packet, rdata
    ensures msg.Valid() && msg.pos == old(msg.pos)
    ensures var o := OptAt(msg.data, old(packet.Value()), f);
      (r.Success? <==> o.Success?) &&
      (r.Success? ==> packet.Value() == o.value) &&
      (r.Failure? ==> r.error == o.error)
  {
    ReadEdnsFields(msg, packet, val, f);
    r := ParseOptions(packet, rdata);
  }

  /** payload, rcode, edns_version and do, read by seeking six octets back
      from the end of the RDATA and then returning there. */
  method ReadEdnsFields(msg: Reader, packet: Packet, val: Rr, ghost f: Frame)
    requires msg.Valid() && f.start + f.len == msg.pos && 6 <= f.start && val == f.rr
    modifies msg, packet
    ensures msg.Valid() && msg.pos == old(msg.pos)
    ensures packet.Value() == EdnsFields(msg.data, old(packet.Value()), f)
  {
    packet.payload := val.rrclass;
    var pos := msg.pos;
    msg.Seek(pos - 6);
    var hi := msg.ReadU8();
    packet.header := packet.header.(rcode := hi.value as int * 16 + packet.header.rcode);
    var version := msg.ReadU8();
    packet.ednsVersion := Some(version.value as int);
    var flags := msg.ReadU16();
    msg.Seek(pos);
    packet.dnssecOk := Some(DnssecOkOf(flags.value));
  }

  /** The options loop of the OPT state: code, length and data, pushed to
      the packet's option list until the RDATA cursor reaches its end. */
  method ParseOptions(packet: Packet, rdata: Reader) returns (r: Result<(), DecodeError>)
    requires rdata.Valid() && rdata.pos == 0
    modifies packet, rdata
    ensures var o := OptionsAt(rdata.data, 0);
      (r.Success? <==> o.Success?) &&
      (r.Success? ==> packet.Value() == old(packet.Value()).(ednsOptions := old(packet.ednsOptions) + o.value)) &&
      (r.Failure? ==> r.error == o.error)
  {
    ghost var goal := OptionsAt(rdata.data, 0);
    ghost var got: seq<EdnsOption> := [];
    ghost var m0 := packet.Value();
    BehindNothing(goal);
    assert m0.ednsOptions + got == m0.ednsOptions;
    while !rdata.Eof()
      invariant rdata.Valid()
      invariant packet.Value() == m0.(ednsOptions := m0.ednsOptions + got)
      invariant goal == Behind(got, OptionsAt(rdata.data, rdata.pos))
      decreases |rdata.data| - rdata.pos
    {
      ghost var k := rdata.pos;
      var code := rdata.ReadU16();
      if code.Failure? {
        return Failure(code.error);
      }
      var len := rdata.ReadU16();
      if len.Failure? {
        return Failure(len.error);
      }
      var data := rdata.Slice(len.value);
      if data.Failure? {
        return Failure(data.error);
      }
      var o := EdnsOption(code.value, data.value.data);
      assert OptionsAt(rdata.data, k) == Behind([o], OptionsAt(rdata.data, rdata.pos));
      BehindBehind(got, [o], OptionsAt(rdata.data, rdata.pos));
      packet.ednsOptions := packet.ednsOptions + [o];
      got := got + [o];
    }
    r := Success(());
  }

  /** RR_UNPACK, the state of the record's type, and RESOURCE_DONE (or the
      OPT state, which lowers counts[count] instead of pushing the record). */
  method ParseRecord(msg: Reader, packet: Packet, counts: Counts, section: Section, hops: nat)
    returns (r: Result<Counts, DecodeError>)
    requires msg.Valid()
    modifies msg, packet
    ensures msg.Valid()
    ensures var st := RecordAt(msg.data, hops, old(msg.pos), old(packet.Value()), counts, section);
      (r.Success? <==> st.Success?) &&
      (r.Success? ==> r.value == st.value.counts && packet.Value() == st.value.m && msg.pos == st.value.pos) &&
      (r.Failure? ==> r.error == st.error)
  {
    ghost var f := FrameAt(msg.data, msg.pos, hops);
    var rr := ParseRR(msg, hops);
    if rr.Failure? {
      return Failure(rr.error);
    }
    var val, rdata := rr.value.0, rr.value.1;
    var tag := TagOf(val.rrtype.value);
    if tag == OPT {
      var o := ParseOpt(msg, packet, val, rdata, f.value);
      if o.Failure? {
        return Failure(o.error);
      }
      return Success(counts.Drop(section));
    }
    var d := ParseRData(msg, rdata, tag, hops, f.value);
    if d.Failure? {
      return Failure(d.error);
    }
    packet.Push(section, val.(rdata := d.value));
    r := Success(counts);
  }

  /** Packet.parse(msg), allowing every name `hops` pointer jumps. */
  method Parse(data: seq<byte>, hops: nat) returns (r: Result<Packet, DecodeError>)
    ensures var d := Decode(data, hops);
      (r.Success? <==> d.Success?) &&
      (r.Success? ==> fresh(r.value) && r.value.Value() == d.value) &&
      (r.Failure? ==> r.error == d.error)
  {
    var packet := new Packet();
    var msg := new Reader(data);
    var counts := ParseHeader(msg, packet);
    if counts.Failure? {
      return Failure(counts.error);
    }
    var question := ParseQuestion(msg, packet, hops);
    if question.Failure? {
      return Failure(question.error);
    }
    var c := counts.value;
    var section := Answer;
    assert packet.Value() == EmptyMessage.(header := HeaderAt(data).value.header, question := [question.value]);
    while true
      invariant msg.Valid() && msg.data == data && fresh(packet) && fresh(msg)
      invariant Decode(data, hops) == SectionsFrom(data, hops, msg.pos, packet.Value(), c, section)
      decreases Rank(section), |data| - msg.pos
    {
      if c.Of(section) == |packet.Value().Records(section)| {
        if section == Additional {
          return Success(packet);
        }
        section := Next(section);
      } else {
        var next := ParseRecord(msg, packet, c, section, hops);
        if next.Failure? {
          return Failure(next.error);
        }
        c := next.value;
      }
    }
  }
}
