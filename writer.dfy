/** Packet.write as it runs: a cursor over the caller's buffer, the packet
    object it mutates (the OPT record spliced in, rcode reduced, the option
    list popped empty), and the compression index of the call. Each state
    of Packet.write's state machine is a method here, and the dispatch
    between states is the control flow of Write. Every method is proved
    against the functions of Encoding. */
module Writing {
  import opened Wrappers
  import opened Wire
  import opened Messages
  import opened Names
  import opened Headers
  import opened Cursors
  import opened Encoding

  /** The EDNS state. */
  method AddOpt(packet: Packet)
    requires packet.ednsVersion.Some?
    modifies packet
    ensures packet.Value() == PrepareEdns(old(packet.Value()))
  {
    var val := OptRecord(packet.Value());
    packet.header := packet.header.(rcode := Low(packet.header.rcode, 16));
    packet.additional := [val] + packet.additional;
  }

  /** The HEADER state, on a cursor at offset 0. */
  method WriteHeader(buff: Writer, packet: Packet)
    requires buff.Valid() && buff.pos == 0 && buff.buf.Length >= 12
    modifies buff, buff.buf
    ensures buff.Valid() && buff.pos == 12
    ensures buff.buf[..12] == HeaderBytes(packet.Value())
  {
    var m := packet.Value();
    var st := buff.WriteU16(Low(m.header.id, TWO16));
    st := buff.WriteU16(FlagsWord(m.header));
    st := buff.WriteU16(1);
    st := buff.WriteU16(Low(|m.answer|, TWO16));
    st := buff.WriteU16(Low(|m.authority|, TWO16));
    st := buff.WriteU16(Low(|m.additional|, TWO16));
  }

  /** The QUESTION and QUESTION_NEXT states, with the NAME_PACK between them. */
  method WriteQuestion(buff: Writer, packet: Packet) returns (st: Status, index: Index)
    requires buff.Valid()
    modifies buff, buff.buf
    ensures buff.Valid()
    ensures var e := QuestionEmit(old(buff.pos), buff.buf.Length, packet.question);
      st == e.status && index == e.state &&
      (st == Going ==> buff.buf[..buff.pos] == old(buff.buf[..buff.pos]) + e.bytes)
  {
    if packet.question == [] || packet.question[0].name.None? {
      return Failed(MissingField), map[];
    }
    var val := packet.question[0];
    ghost var front := buff.buf[..buff.pos];
    st, index := NamePack(val.name.value, buff, map[]);
    if st != Going {
      return;
    }
    if val.qtype.None? || val.qclass.None? {
      return Failed(MissingField), index;
    }
    ghost var mid := buff.buf[..buff.pos];
    st := buff.WriteU16(Low(val.qtype.value, TWO16));
    if st != Going {
      return;
    }
    st := buff.WriteU16(Low(val.qclass.value, TWO16));
    if st != Going {
      return;
    }
    assert buff.buf[..buff.pos] == mid + (U16(Low(val.qtype.value, TWO16)) + U16(Low(val.qclass.value, TWO16)));
  }

  /** writeUInt8 of each octet in turn, as the A/AAAA and OPT states do. */
  method WriteOctets(buff: Writer, data: seq<byte>) returns (st: Status)
    requires buff.Valid()
    modifies buff, buff.buf
    ensures buff.Valid() && buff.Kept(old(buff.buf[..]), old(buff.pos))
    ensures st == WriteStatus(old(buff.pos), buff.buf.Length, |data|, true)
    ensures st == Going ==> buff.buf[..buff.pos] == old(buff.buf[..buff.pos]) + data
  {
    ghost var at, front, buf0 := buff.pos, buff.buf[..buff.pos], buff.buf[..];
    var i := 0;
    while i < |data|
      invariant i <= |data| && buff.Valid() && buff.pos == at + i && buff.Kept(buf0, at)
      invariant buff.buf[..buff.pos] == front + data[..i]
    {
      st := buff.WriteU8(data[i]);
      if st != Going {
        return;
      }
      assert data[..i + 1] == data[..i] + [data[i]];
      i := i + 1;
    }
    assert data[..i] == data;
    st := Going;
  }

  /** One round of the OPT state: pop the last option and write it. */
  method PopOption(buff: Writer, opts: seq<EdnsOption>) returns (st: Status, rest: seq<EdnsOption>)
    requires buff.Valid() && opts != []
    modifies buff, buff.buf
    ensures buff.Valid() && buff.Kept(old(buff.buf[..]), old(buff.pos))
    ensures rest == opts[..|opts| - 1]
    ensures var e := OptionEmit(old(buff.pos), buff.buf.Length, rest, opts[|opts| - 1]);
      st == e.status &&
      (st == Going ==> buff.pos == old(buff.pos) + |e.bytes| &&
                       buff.buf[..buff.pos] == old(buff.buf[..buff.pos]) + e.bytes)
    ensures var all := OptionsEmit(old(buff.pos), buff.buf.Length, opts);
      if st == Going then all == Cat(buff.buf[old(buff.pos)..buff.pos], OptionsEmit(buff.pos, buff.buf.Length, rest))
      else all.status == st && all.state == rest
  {
    ghost var front := buff.buf[..buff.pos];
    var n := |opts| - 1;
    var o := opts[n];
    rest := opts[..n];
    st := buff.WriteU16(o.code);
    if st != Going {
      return;
    }
    st := buff.WriteU16(|o.data|);
    if st != Going {
      return;
    }
    st := WriteOctets(buff, o.data);
    if st == Going {
      assert buff.buf[..buff.pos] == front + (U16(o.code) + U16(|o.data|) + o.data);
    }
  }

  /** The OPT state: pop and write options until the list is empty. */
  method WriteOptions(buff: Writer, packet: Packet) returns (st: Status)
    requires buff.Valid()
    modifies buff, buff.buf, packet
    ensures buff.Valid() && buff.Kept(old(buff.buf[..]), old(buff.pos))
    ensures var e := OptionsEmit(old(buff.pos), buff.buf.Length, old(packet.ednsOptions));
      st == e.status && packet.Value() == old(packet.Value()).(ednsOptions := e.state) &&
      (st == Going ==> buff.buf[..buff.pos] == old(buff.buf[..buff.pos]) + e.bytes)
  {
    ghost var at, cap, front, buf0 := buff.pos, buff.buf.Length, buff.buf[..buff.pos], buff.buf[..];
    ghost var goal := OptionsEmit(at, cap, packet.ednsOptions);
    ghost var written: seq<byte> := [];
    ghost var m0 := packet.Value();
    while |packet.ednsOptions| > 0
      invariant buff.Valid() && buff.Kept(buf0, at) && buff.buf[..buff.pos] == front + written
      invariant packet.Value() == m0.(ednsOptions := packet.ednsOptions)
      invariant goal == Cat(written, OptionsEmit(buff.pos, cap, packet.ednsOptions))
      decreases |packet.ednsOptions|
    {
      ghost var p := buff.pos;
      ghost var mid := buff.buf[..];
      st, packet.ednsOptions := PopOption(buff, packet.ednsOptions);
      PrefixTrans(buf0, mid, buff.buf[..], at, p);
      if st != Going {
        return;
      }
      ghost var e := buff.buf[p..buff.pos];
      CatCat(written, e, OptionsEmit(buff.pos, cap, packet.ednsOptions));
      AppendAssoc(front, written, e);
      written := written + e;
    }
    st := Going;
  }

  // ---------------------------------------------------------------------
  // One field of a layout, and how the rest of the layout then goes on.

  /** A 16-bit field, written with writeUInt16BE. */
  method WriteWord(buff: Writer, v: int, ghost w: Work, ghost fs: seq<Field>) returns (st: Status)
    requires buff.Valid() && 0 <= v < TWO16 && fs != [] && fs[0] == Word(v)
    modifies buff, buff.buf
    ensures buff.Valid() && buff.Kept(old(buff.buf[..]), old(buff.pos))
    ensures var all := FieldsEmit(old(buff.pos), buff.buf.Length, w, fs);
      if st == Going then
        buff.pos == old(buff.pos) + 2 && buff.buf[..buff.pos] == old(buff.buf[..buff.pos]) + U16(v) &&
        all == Cat(U16(v), FieldsEmit(buff.pos, buff.buf.Length, w, fs[1..]))
      else all.status == st && all.state == w
  {
    FieldsNext(buff.pos, buff.buf.Length, w, fs, PutU16(buff.pos, buff.buf.Length, w, v));
    st := buff.WriteU16(v);
  }

  /** A 32-bit field, written with writeUInt32BE. */
  method WriteLong(buff: Writer, v: int, ghost w: Work, ghost fs: seq<Field>) returns (st: Status)
    requires buff.Valid() && 0 <= v < TWO32 && fs != [] && fs[0] == Long(v)
    modifies buff, buff.buf
    ensures buff.Valid() && buff.Kept(old(buff.buf[..]), old(buff.pos))
    ensures var all := FieldsEmit(old(buff.pos), buff.buf.Length, w, fs);
      if st == Going then
        buff.pos == old(buff.pos) + 4 && buff.buf[..buff.pos] == old(buff.buf[..buff.pos]) + U32(v) &&
        all == Cat(U32(v), FieldsEmit(buff.pos, buff.buf.Length, w, fs[1..]))
      else all.status == st && all.state == w
  {
    FieldsNext(buff.pos, buff.buf.Length, w, fs, PutU32(buff.pos, buff.buf.Length, w, v));
    st := buff.WriteU32(v);
  }

  /** A character string: its length octet, then its octets. */
  method WriteText(buff: Writer, t: string, ghost w: Work, ghost fs: seq<Field>) returns (st: Status)
    requires buff.Valid() && fs != [] && fs[0] == Text(t)
    modifies buff, buff.buf
    ensures buff.Valid() && buff.Kept(old(buff.buf[..]), old(buff.pos))
    ensures var all := FieldsEmit(old(buff.pos), buff.buf.Length, w, fs);
      if st == Going then
        buff.pos == old(buff.pos) + 1 + |t| &&
        buff.buf[..buff.pos] == old(buff.buf[..buff.pos]) + StringBytes(t) &&
        all == Cat(StringBytes(t), FieldsEmit(buff.pos, buff.buf.Length, w, fs[1..]))
      else all.status == st && all.state == w
  {
    FieldsNext(buff.pos, buff.buf.Length, w, fs, PutString(buff.pos, buff.buf.Length, w, t));
    st := buff.WriteString(t);
  }

  /** A name, packed with the compression index by NAME_PACK. */
  method WriteDomain(buff: Writer, name: string, index: Index, ghost opts: seq<EdnsOption>, ghost fs: seq<Field>)
    returns (st: Status, index': Index, ghost wrote: seq<byte>)
    requires buff.Valid() && fs != [] && fs[0] == Domain(name)
    modifies buff, buff.buf
    ensures buff.Valid() && buff.Kept(old(buff.buf[..]), old(buff.pos))
    ensures var all := FieldsEmit(old(buff.pos), buff.buf.Length, Work(index, opts), fs);
      if st == Going then
        buff.pos == old(buff.pos) + |wrote| && buff.buf[..buff.pos] == old(buff.buf[..buff.pos]) + wrote &&
        all == Cat(wrote, FieldsEmit(buff.pos, buff.buf.Length, Work(index', opts), fs[1..]))
      else all.status == st && all.state == Work(index', opts)
  {
    ghost var e := PackName(buff.pos, buff.buf.Length, index, name);
    FieldsNext(buff.pos, buff.buf.Length, Work(index, opts), fs, Named(e, Work(index, opts)));
    st, index' := NamePack(name, buff, index);
    wrote := e.bytes;
  }

  /** The layout is complete once no field is left. */
  lemma FieldsDone(at: int, cap: int, w: Work, fs: seq<Field>)
    requires |fs| == 0
    ensures FieldsEmit(at, cap, w, fs) == Emit(Going, [], w)
  {
  }

  // ---------------------------------------------------------------------
  // The RDATA states. Each is proved against RDataEmit for its type.

  /** The A and AAAA states: the address octets one by one. */
  method WriteAddress(buff: Writer, tag: Tag, d: RData, index: Index, ghost opts: seq<EdnsOption>)
    returns (st: Status, index': Index)
    requires buff.Valid() && (tag == A || tag == AAAA) && d.Address?
    modifies buff, buff.buf
    ensures buff.Valid() && buff.Kept(old(buff.buf[..]), old(buff.pos))
    ensures var e := RDataEmit(old(buff.pos), buff.buf.Length, Work(index, opts), tag, d);
      st == e.status && e.state == Work(index', opts) &&
      (st == Going ==> buff.pos == old(buff.pos) + |e.bytes| &&
                       buff.buf[..buff.pos] == old(buff.buf[..buff.pos]) + e.bytes)
  {
    ghost var at, cap, w := buff.pos, buff.buf.Length, Work(index, opts);
    ghost var fs := RDataLayout(tag, d).value;
    FieldsNext(at, cap, w, fs, PutBytes(at, cap, w, d.address));
    FieldsDone(at + |d.address|, cap, w, fs[1..]);
    st := WriteOctets(buff, d.address);
    index' := index;
  }

  /** The NS, CNAME and PTR states: the name in data. */
  method WriteTarget(buff: Writer, tag: Tag, d: RData, index: Index, ghost opts: seq<EdnsOption>)
    returns (st: Status, index': Index)
    requires buff.Valid() && (tag == NS || tag == CNAME || tag == PTR) && d.Data?
    modifies buff, buff.buf
    ensures buff.Valid() && buff.Kept(old(buff.buf[..]), old(buff.pos))
    ensures var e := RDataEmit(old(buff.pos), buff.buf.Length, Work(index, opts), tag, d);
      st == e.status && e.state == Work(index', opts) &&
      (st == Going ==> buff.pos == old(buff.pos) + |e.bytes| &&
                       buff.buf[..buff.pos] == old(buff.buf[..buff.pos]) + e.bytes)
  {
    ghost var fs := RDataLayout(tag, d).value;
    ghost var wrote;
    st, index', wrote := WriteDomain(buff, d.data, index, opts, fs);
    if st == Going {
      FieldsDone(buff.pos, buff.buf.Length, Work(index', opts), fs[1..]);
      assert wrote + [] == wrote;
    }
  }

  /** The TXT and SPF states: one character string. */
  method WriteTxt(buff: Writer, tag: Tag, d: RData, index: Index, ghost opts: seq<EdnsOption>)
    returns (st: Status, index': Index)
    requires buff.Valid() && (tag == TXT || tag == SPF) && d.Data?
    modifies buff, buff.buf
    ensures buff.Valid() && buff.Kept(old(buff.buf[..]), old(buff.pos))
    ensures var e := RDataEmit(old(buff.pos), buff.buf.Length, Work(index, opts), tag, d);
      st == e.status && e.state == Work(index', opts) &&
      (st == Going ==> buff.pos == old(buff.pos) + |e.bytes| &&
                       buff.buf[..buff.pos] == old(buff.buf[..buff.pos]) + e.bytes)
  {
    ghost var fs := RDataLayout(tag, d).value;
    index' := index;
    st := WriteText(buff, d.data, Work(index, opts), fs);
    if st == Going {
      FieldsDone(buff.pos, buff.buf.Length, Work(index, opts), fs[1..]);
      assert StringBytes(d.data) + [] == StringBytes(d.data);
    }
  }

  /** The MX state: the preference, then the exchange's name. */
  method WriteMx(buff: Writer, d: RData, index: Index, ghost opts: seq<EdnsOption>)
    returns (st: Status, index': Index)
    requires buff.Valid() && d.Mx?
    modifies buff, buff.buf
    ensures buff.Valid() && buff.Kept(old(buff.buf[..]), old(buff.pos))
    ensures var e := RDataEmit(old(buff.pos), buff.buf.Length, Work(index, opts), MX, d);
      st == e.status && e.state == Work(index', opts) &&
      (st == Going ==> buff.pos == old(buff.pos) + |e.bytes| &&
                       buff.buf[..buff.pos] == old(buff.buf[..buff.pos]) + e.bytes)
  {
    ghost var at, front, buf0 := buff.pos, buff.buf[..buff.pos], buff.buf[..];
    ghost var fs := RDataLayout(MX, d).value;
    index' := index;
    st := WriteWord(buff, Low(d.priority, TWO16), Work(index, opts), fs);
    if st != Going {
      return;
    }
    ghost var p, mid, wrote := buff.pos, buff.buf[..], U16(Low(d.priority, TWO16));
    ghost var name;
    st, index', name := WriteDomain(buff, d.exchange, index, opts, fs[1..]);
    PrefixTrans(buf0, mid, buff.buf[..], at, p);
    if st == Going {
      FieldsDone(buff.pos, buff.buf.Length, Work(index', opts), fs[2..]);
      assert name + [] == name;
      AppendAssoc(front, wrote, name);
    }
  }

  /** The SRV state: priority, weight and port, then the target's name. */
  method WriteSrv(buff: Writer, d: RData, index: Index, ghost opts: seq<EdnsOption>)
    returns (st: Status, index': Index)
    requires buff.Valid() && d.Srv?
    modifies buff, buff.buf
    ensures buff.Valid() && buff.Kept(old(buff.buf[..]), old(buff.pos))
    ensures var e := RDataEmit(old(buff.pos), buff.buf.Length, Work(index, opts), SRV, d);
      st == e.status && e.state == Work(index', opts) &&
      (st == Going ==> buff.pos == old(buff.pos) + |e.bytes| &&
                       buff.buf[..buff.pos] == old(buff.buf[..buff.pos]) + e.bytes)
  {
    ghost var at, front, buf0 := buff.pos, buff.buf[..buff.pos], buff.buf[..];
    ghost var fs := RDataLayout(SRV, d).value;
    index' := index;
    ghost var numbers;
    st, numbers := WriteSrvNumbers(buff, d, Work(index, opts), fs);
    if st != Going {
      return;
    }
    ghost var p, mid, rest := buff.pos, buff.buf[..], fs[3..];
    ghost var name;
    st, index', name := WriteDomain(buff, d.target, index, opts, rest);
    PrefixTrans(buf0, mid, buff.buf[..], at, p);
    if st == Going {
      FieldsDone(buff.pos, buff.buf.Length, Work(index', opts), rest[1..]);
      assert name + [] == name;
      AppendAssoc(front, numbers, name);
    }
  }

  /** SRV's priority, weight and port. */
  method WriteSrvNumbers(buff: Writer, d: RData, ghost w: Work, ghost fs: seq<Field>)
    returns (st: Status, ghost wrote: seq<byte>)
    requires buff.Valid() && d.Srv? && |fs| == 4
    requires fs[0] == Word(Low(d.priority, TWO16)) && fs[1] == Word(Low(d.weight, TWO16)) &&
      fs[2] == Word(Low(d.port, TWO16))
    modifies buff, buff.buf
    ensures buff.Valid() && buff.Kept(old(buff.buf[..]), old(buff.pos))
    ensures var all := FieldsEmit(old(buff.pos), buff.buf.Length, w, fs);
      if st == Going then
        buff.pos == old(buff.pos) + |wrote| && buff.buf[..buff.pos] == old(buff.buf[..buff.pos]) + wrote &&
        all == Cat(wrote, FieldsEmit(buff.pos, buff.buf.Length, w, fs[3..]))
      else all.status == st && all.state == w
  {
    wrote := [];
    ghost var at, cap, front, buf0 := buff.pos, buff.buf.Length, buff.buf[..buff.pos], buff.buf[..];
    var priority, weight, port := Low(d.priority, TWO16), Low(d.weight, TWO16), Low(d.port, TWO16);
    st := WriteWord(buff, priority, w, fs);
    if st != Going {
      return;
    }
    ghost var p1, m1, fs1 := buff.pos, buff.buf[..], fs[1..];
    st := WriteWord(buff, weight, w, fs1);
    PrefixTrans(buf0, m1, buff.buf[..], at, p1);
    if st != Going {
      return;
    }
    ghost var p2, m2, fs2 := buff.pos, buff.buf[..], fs1[1..];
    CatCat(U16(priority), U16(weight), FieldsEmit(p2, cap, w, fs2));
    AppendAssoc(front, U16(priority), U16(weight));
    ghost var two := U16(priority) + U16(weight);
    st := WriteWord(buff, port, w, fs2);
    PrefixTrans(buf0, m2, buff.buf[..], at, p2);
    if st == Going {
      assert fs2[1..] == fs[3..];
      CatCat(two, U16(port), FieldsEmit(buff.pos, cap, w, fs2[1..]));
      AppendAssoc(front, two, U16(port));
      wrote := two + U16(port);
    }
  }

  /** The SOA, SOA_ADMIN and SOA_NEXT states: the primary's name, the
      admin's name, then the numbers. */
  method WriteSoa(buff: Writer, d: RData, index: Index, ghost opts: seq<EdnsOption>)
    returns (st: Status, index': Index)
    requires buff.Valid() && d.Soa?
    modifies buff, buff.buf
    ensures buff.Valid() && buff.Kept(old(buff.buf[..]), old(buff.pos))
    ensures var e := RDataEmit(old(buff.pos), buff.buf.Length, Work(index, opts), SOA, d);
      st == e.status && e.state == Work(index', opts) &&
      (st == Going ==> buff.pos == old(buff.pos) + |e.bytes| &&
                       buff.buf[..buff.pos] == old(buff.buf[..buff.pos]) + e.bytes)
  {
    ghost var at, cap, front, buf0 := buff.pos, buff.buf.Length, buff.buf[..buff.pos], buff.buf[..];
    ghost var fs := RDataLayout(SOA, d).value;
    ghost var primary, admin;
    st, index', primary := WriteDomain(buff, d.primary, index, opts, fs);
    if st != Going {
      return;
    }
    ghost var p1, m1, fs1 := buff.pos, buff.buf[..], fs[1..];
    st, index', admin := WriteDomain(buff, d.admin, index', opts, fs1);
    PrefixTrans(buf0, m1, buff.buf[..], at, p1);
    if st != Going {
      return;
    }
    ghost var p2, m2, fs2 := buff.pos, buff.buf[..], fs1[1..];
    ghost var w := Work(index', opts);
    CatCat(primary, admin, FieldsEmit(p2, cap, w, fs2));
    AppendAssoc(front, primary, admin);
    ghost var numbers;
    st, numbers := WriteSoaNumbers(buff, d, w, fs2);
    PrefixTrans(buf0, m2, buff.buf[..], at, p2);
    if st == Going {
      AppendAssoc(front, primary + admin, numbers);
    }
  }

  /** SOA_NEXT: serial, refresh, retry, expiration and minimum. */
  method WriteSoaNumbers(buff: Writer, d: RData, ghost w: Work, ghost fs: seq<Field>)
    returns (st: Status, ghost wrote: seq<byte>)
    requires buff.Valid() && d.Soa? && |fs| == 5
    requires fs[0] == Long(Low(d.serial, TWO32)) && fs[1] == Long(Low(d.refresh, TWO32)) &&
      fs[2] == Long(Low(d.retry, TWO32)) && fs[3] == Long(Low(d.expiration, TWO32)) &&
      fs[4] == Long(Low(d.minimum, TWO32))
    modifies buff, buff.buf
    ensures buff.Valid() && buff.Kept(old(buff.buf[..]), old(buff.pos))
    ensures var e := FieldsEmit(old(buff.pos), buff.buf.Length, w, fs);
      st == e.status && e.state == w &&
      (st == Going ==> e.bytes == wrote && buff.pos == old(buff.pos) + |wrote| &&
                       buff.buf[..buff.pos] == old(buff.buf[..buff.pos]) + wrote)
  {
    wrote := [];
    ghost var at, cap, front, buf0 := buff.pos, buff.buf.Length, buff.buf[..buff.pos], buff.buf[..];
    var serial, refresh := Low(d.serial, TWO32), Low(d.refresh, TWO32);
    st := WriteLong(buff, serial, w, fs);
    if st != Going {
      return;
    }
    ghost var p1, m1, fs1 := buff.pos, buff.buf[..], fs[1..];
    st := WriteLong(buff, refresh, w, fs1);
    PrefixTrans(buf0, m1, buff.buf[..], at, p1);
    if st != Going {
      return;
    }
    ghost var p2, m2, fs2 := buff.pos, buff.buf[..], fs1[1..];
    CatCat(U32(serial), U32(refresh), FieldsEmit(p2, cap, w, fs2));
    AppendAssoc(front, U32(serial), U32(refresh));
    ghost var two := U32(serial) + U32(refresh);
    ghost var rest;
    st, rest := WriteSoaTail(buff, d, w, fs2);
    PrefixTrans(buf0, m2, buff.buf[..], at, p2);
    if st == Going {
      wrote := two + rest;
      AppendAssoc(front, two, rest);
    }
  }

  /** The last three SOA numbers: retry, expiration and minimum. */
  method WriteSoaTail(buff: Writer, d: RData, ghost w: Work, ghost fs: seq<Field>)
    returns (st: Status, ghost wrote: seq<byte>)
    requires buff.Valid() && d.Soa? && |fs| == 3
    requires fs[0] == Long(Low(d.retry, TWO32)) && fs[1] == Long(Low(d.expiration, TWO32)) &&
      fs[2] == Long(Low(d.minimum, TWO32))
    modifies buff, buff.buf
    ensures buff.Valid() && buff.Kept(old(buff.buf[..]), old(buff.pos))
    ensures var e := FieldsEmit(old(buff.pos), buff.buf.Length, w, fs);
      st == e.status && e.state == w &&
      (st == Going ==> e.bytes == wrote && buff.pos == old(buff.pos) + |wrote| &&
                       buff.buf[..buff.pos] == old(buff.buf[..buff.pos]) + wrote)
  {
    wrote := [];
    ghost var at, cap, front, buf0 := buff.pos, buff.buf.Length, buff.buf[..buff.pos], buff.buf[..];
    var retry, expiration, minimum := Low(d.retry, TWO32), Low(d.expiration, TWO32), Low(d.minimum, TWO32);
    st := WriteLong(buff, retry, w, fs);
    if st != Going {
      return;
    }
    ghost var p1, m1, fs1 := buff.pos, buff.buf[..], fs[1..];
    st := WriteLong(buff, expiration, w, fs1);
    PrefixTrans(buf0, m1, buff.buf[..], at, p1);
    if st != Going {
      return;
    }
    ghost var p2, m2, fs2 := buff.pos, buff.buf[..], fs1[1..];
    CatCat(U32(retry), U32(expiration), FieldsEmit(p2, cap, w, fs2));
    AppendAssoc(front, U32(retry), U32(expiration));
    ghost var two := U32(retry) + U32(expiration);
    st := WriteLong(buff, minimum, w, fs2);
    PrefixTrans(buf0, m2, buff.buf[..], at, p2);
    if st == Going {
      FieldsDone(buff.pos, cap, w, fs2[1..]);
      assert U32(minimum) + [] == U32(minimum);
      CatCat(two, U32(minimum), Emit(Going, [], w));
      AppendAssoc(front, two, U32(minimum));
      wrote := two + U32(minimum);
    }
  }

  /** The NAPTR state: order and preference, then flags, service, regexp
      and replacement as character strings. */
  method WriteNaptr(buff: Writer, d: RData, index: Index, ghost opts: seq<EdnsOption>)
    returns (st: Status, index': Index)
    requires buff.Valid() && d.Naptr?
    modifies buff, buff.buf
    ensures buff.Valid() && buff.Kept(old(buff.buf[..]), old(buff.pos))
    ensures var e := RDataEmit(old(buff.pos), buff.buf.Length, Work(index, opts), NAPTR, d);
      st == e.status && e.state == Work(index', opts) &&
      (st == Going ==> buff.pos == old(buff.pos) + |e.bytes| &&
                       buff.buf[..buff.pos] == old(buff.buf[..buff.pos]) + e.bytes)
  {
    ghost var at, cap, front, buf0 := buff.pos, buff.buf.Length, buff.buf[..buff.pos], buff.buf[..];
    ghost var w := Work(index, opts);
    ghost var fs := RDataLayout(NAPTR, d).value;
    index' := index;
    var order, preference := Low(d.order, TWO16), Low(d.preference, TWO16);
    st := WriteWord(buff, order, w, fs);
    if st != Going {
      return;
    }
    ghost var p1, m1, fs1 := buff.pos, buff.buf[..], fs[1..];
    st := WriteWord(buff, preference, w, fs1);
    PrefixTrans(buf0, m1, buff.buf[..], at, p1);
    if st != Going {
      return;
    }
    ghost var p2, m2, fs2 := buff.pos, buff.buf[..], fs1[1..];
    CatCat(U16(order), U16(preference), FieldsEmit(p2, cap, w, fs2));
    AppendAssoc(front, U16(order), U16(preference));
    ghost var numbers := U16(order) + U16(preference);
    ghost var strings;
    st, strings := WriteNaptrStrings(buff, d, w, fs2);
    PrefixTrans(buf0, m2, buff.buf[..], at, p2);
    if st == Going {
      AppendAssoc(front, numbers, strings);
    }
  }

  /** The four character strings that end a NAPTR record. */
  method WriteNaptrStrings(buff: Writer, d: RData, ghost w: Work, ghost fs: seq<Field>)
    returns (st: Status, ghost wrote: seq<byte>)
    requires buff.Valid() && d.Naptr? && |fs| == 4
    requires fs[0] == Text(d.flags) && fs[1] == Text(d.service) &&
      fs[2] == Text(d.regexp) && fs[3] == Text(d.replacement)
    modifies buff, buff.buf
    ensures buff.Valid() && buff.Kept(old(buff.buf[..]), old(buff.pos))
    ensures var e := FieldsEmit(old(buff.pos), buff.buf.Length, w, fs);
      st == e.status && e.state == w &&
      (st == Going ==> e.bytes == wrote && buff.pos == old(buff.pos) + |wrote| &&
                       buff.buf[..buff.pos] == old(buff.buf[..buff.pos]) + wrote)
  {
    wrote := [];
    ghost var at, cap, front, buf0 := buff.pos, buff.buf.Length, buff.buf[..buff.pos], buff.buf[..];
    st := WriteText(buff, d.flags, w, fs);
    if st != Going {
      return;
    }
    ghost var p1, m1, fs1 := buff.pos, buff.buf[..], fs[1..];
    st := WriteText(buff, d.service, w, fs1);
    PrefixTrans(buf0, m1, buff.buf[..], at, p1);
    if st != Going {
      return;
    }
    ghost var p2, m2, fs2 := buff.pos, buff.buf[..], fs1[1..];
    CatCat(StringBytes(d.flags), StringBytes(d.service), FieldsEmit(p2, cap, w, fs2));
    AppendAssoc(front, StringBytes(d.flags), StringBytes(d.service));
    ghost var two := StringBytes(d.flags) + StringBytes(d.service);
    ghost var rest;
    st, rest := WriteTextPair(buff, d.regexp, d.replacement, w, fs2);
    PrefixTrans(buf0, m2, buff.buf[..], at, p2);
    if st == Going {
      wrote := two + rest;
      AppendAssoc(front, two, rest);
    }
  }

  /** Two character strings that end a layout. */
  method WriteTextPair(buff: Writer, a: string, b: string, ghost w: Work, ghost fs: seq<Field>)
    returns (st: Status, ghost wrote: seq<byte>)
    requires buff.Valid() && |fs| == 2 && fs[0] == Text(a) && fs[1] == Text(b)
    modifies buff, buff.buf
    ensures buff.Valid() && buff.Kept(old(buff.buf[..]), old(buff.pos))
    ensures var e := FieldsEmit(old(buff.pos), buff.buf.Length, w, fs);
      st == e.status && e.state == w &&
      (st == Going ==> e.bytes == wrote && buff.pos == old(buff.pos) + |wrote| &&
                       buff.buf[..buff.pos] == old(buff.buf[..buff.pos]) + wrote)
  {
    wrote := [];
    ghost var at, cap, front, buf0 := buff.pos, buff.buf.Length, buff.buf[..buff.pos], buff.buf[..];
    st := WriteText(buff, a, w, fs);
    if st != Going {
      return;
    }
    ghost var p1, m1, fs1 := buff.pos, buff.buf[..], fs[1..];
    st := WriteText(buff, b, w, fs1);
    PrefixTrans(buf0, m1, buff.buf[..], at, p1);
    if st == Going {
      FieldsDone(buff.pos, cap, w, fs1[1..]);
      assert StringBytes(b) + [] == StringBytes(b);
      CatCat(StringBytes(a), StringBytes(b), Emit(Going, [], w));
      AppendAssoc(front, StringBytes(a), StringBytes(b));
      wrote := StringBytes(a) + StringBytes(b);
    }
  }

  /** The OPT state: the option list, popped empty. */
  method WriteOpt(buff: Writer, packet: Packet, d: RData, index: Index) returns (st: Status)
    requires buff.Valid()
    modifies buff, buff.buf, packet
    ensures buff.Valid() && buff.Kept(old(buff.buf[..]), old(buff.pos))
    ensures var e := RDataEmit(old(buff.pos), buff.buf.Length, Work(index, old(packet.ednsOptions)), OPT, d);
      st == e.status && e.state == Work(index, packet.ednsOptions) &&
      packet.Value() == old(packet.Value()).(ednsOptions := e.state.options) &&
      (st == Going ==> buff.pos == old(buff.pos) + |e.bytes| &&
                       buff.buf[..buff.pos] == old(buff.buf[..buff.pos]) + e.bytes)
  {
    ghost var at, cap, w := buff.pos, buff.buf.Length, Work(index, packet.ednsOptions);
    ghost var fs := RDataLayout(OPT, d).value;
    ghost var e := FieldEmit(at, cap, w, OptionList);
    FieldsNext(at, cap, w, fs, e);
    FieldsDone(at + |e.bytes|, cap, e.state, fs[1..]);
    st := WriteOptions(buff, packet);
    assert e.bytes + [] == e.bytes;
  }

  /** The state named by the record's type; a type with no state is the
      default case of Packet.write, which throws. */
  method WriteRData(buff: Writer, packet: Packet, tag: Tag, d: RData, index: Index)
    returns (st: Status, index': Index)
    requires buff.Valid()
    modifies buff, buff.buf, packet
    ensures buff.Valid() && buff.Kept(old(buff.buf[..]), old(buff.pos))
    ensures var e := RDataEmit(old(buff.pos), buff.buf.Length, Work(index, old(packet.ednsOptions)), tag, d);
      st == e.status && index' == e.state.index &&
      packet.Value() == old(packet.Value()).(ednsOptions := e.state.options) &&
      (st == Going ==> buff.pos == old(buff.pos) + |e.bytes| &&
                       buff.buf[..buff.pos] == old(buff.buf[..buff.pos]) + e.bytes)
  {
    index' := index;
    match tag
    case A | AAAA =>
      if !d.Address? {
        return Failed(MissingField), index;
      }
      st, index' := WriteAddress(buff, tag, d, index, packet.ednsOptions);
    case NS | CNAME | PTR =>
      if !d.Data? {
        return Failed(MissingField), index;
      }
      st, index' := WriteTarget(buff, tag, d, index, packet.ednsOptions);
    case TXT | SPF =>
      if !d.Data? {
        return Failed(MissingField), index;
      }
      st, index' := WriteTxt(buff, tag, d, index, packet.ednsOptions);
    case MX =>
      if !d.Mx? {
        return Failed(MissingField), index;
      }
      st, index' := WriteMx(buff, d, index, packet.ednsOptions);
    case SRV =>
      if !d.Srv? {
        return Failed(MissingField), index;
      }
      st, index' := WriteSrv(buff, d, index, packet.ednsOptions);
    case SOA =>
      if !d.Soa? {
        return Failed(MissingField), index;
      }
      st, index' := WriteSoa(buff, d, index, packet.ednsOptions);
    case OPT =>
      st := WriteOpt(buff, packet, d, index);
    case NAPTR =>
      if !d.Naptr? {
        return Failed(MissingField), index;
      }
      st, index' := WriteNaptr(buff, d, index, packet.ednsOptions);
    case Unhandled =>
      st := Failed(UnknownType);
  }

  /** Octets from r on that a write left alone follow the ones it wrote. */
  lemma {:induction false} Rejoin(b0: seq<byte>, b1: seq<byte>, r: nat, q: nat)
    requires r <= q <= |b0| == |b1| && b1[r..] == b0[r..]
    ensures b1[..q] == b1[..r] + b0[r..q]
  {
    assert b1[r..q] == b1[r..][..q - r];
  }

  // ---------------------------------------------------------------------
  // The record states. Each is proved against the function of its state,
  // which goes on to the next record.

  /** RESOURCE_WRITE and its NAME_PACK for record i of the section, then
      the rest of the record; wrote is the record's octets. */
  method WriteRecord(buff: Writer, packet: Packet, rs: seq<Rr>, i: nat, index: Index)
    returns (st: Status, index': Index, ghost wrote: seq<byte>)
    requires buff.Valid() && i < |rs|
    modifies buff, buff.buf, packet
    ensures buff.Valid() && buff.Kept(old(buff.buf[..]), old(buff.pos))
    ensures packet.Value() == old(packet.Value()).(ednsOptions := packet.ednsOptions)
    ensures var all := SectionRun(old(buff.pos), buff.buf.Length, Work(index, old(packet.ednsOptions)), rs, i);
      var w := Work(index', packet.ednsOptions);
      if st == Going then
        buff.pos == old(buff.pos) + |wrote| && buff.buf[..buff.pos] == old(buff.buf[..buff.pos]) + wrote &&
        all == After(wrote, 1, SectionRun(buff.pos, buff.buf.Length, w, rs, i + 1))
      else all == Run(st, 0, [], w)
  {
    wrote := [];
    ghost var at, cap, front, buf0 := buff.pos, buff.buf.Length, buff.buf[..buff.pos], buff.buf[..];
    ghost var w := Work(index, packet.ednsOptions);
    assert SectionRun(at, cap, w, rs, i) == RecordRun(at, cap, w, rs, i);
    var rr := rs[i];
    if rr.name.None? {
      return Failed(MissingField), index, [];
    }
    ghost var n := PackName(at, cap, index, rr.name.value);
    st, index' := NamePack(rr.name.value, buff, index);
    if st != Going {
      return;
    }
    ghost var p, mid := buff.pos, buff.buf[..];
    assert p == at + |n.bytes|;
    ghost var body;
    st, index', body := WriteBody(buff, packet, rs, i, index', n.bytes);
    PrefixTrans(buf0, mid, buff.buf[..], at, p);
    if st == Going {
      wrote := n.bytes + body;
      AppendAssoc(front, n.bytes, body);
    }
  }

  /** RESOURCE_WRITE_NEXT for record i, whose octets so far are pre, and
      what follows it; wrote is what it appended. */
  method WriteBody(buff: Writer, packet: Packet, rs: seq<Rr>, i: nat, index: Index, ghost pre: seq<byte>)
    returns (st: Status, index': Index, ghost wrote: seq<byte>)
    requires buff.Valid() && i < |rs|
    modifies buff, buff.buf, packet
    ensures buff.Valid() && buff.Kept(old(buff.buf[..]), old(buff.pos))
    ensures packet.Value() == old(packet.Value()).(ednsOptions := packet.ednsOptions)
    ensures var all := BodyRun(old(buff.pos), buff.buf.Length, Work(index, old(packet.ednsOptions)), rs, i, pre);
      var w := Work(index', packet.ednsOptions);
      if st == Going then
        buff.pos == old(buff.pos) + |wrote| && buff.buf[..buff.pos] == old(buff.buf[..buff.pos]) + wrote &&
        all == After(pre + wrote, 1, SectionRun(buff.pos, buff.buf.Length, w, rs, i + 1))
      else all == Run(st, 0, [], w)
  {
    wrote := [];
    ghost var at, front, buf0 := buff.pos, buff.buf[..buff.pos], buff.buf[..];
    index' := index;
    var rr := rs[i];
    if rr.rrtype.None? || rr.rrclass.None? || rr.ttl.None? {
      return Failed(MissingField), index, [];
    }
    ghost var fixed := FixedBytes(rr.rrtype.value, rr.rrclass.value, rr.ttl.value);
    st := WriteFixed(buff, rr.rrtype.value, rr.rrclass.value, rr.ttl.value);
    if st != Going {
      return;
    }
    ghost var p, mid := buff.pos, buff.buf[..];
    ghost var framed;
    st, index', framed := WriteFramed(buff, packet, rs, i, index, pre + fixed);
    PrefixTrans(buf0, mid, buff.buf[..], at, p);
    if st == Going {
      wrote := fixed + framed;
      AppendAssoc(front, fixed, framed);
      AppendAssoc(pre, fixed, framed);
    }
  }

  /** rdata_pos, the zero length, the RDATA state and RESOURCE_DONE for
      record i, whose octets so far are pre; wrote is what it appended. */
  method WriteFramed(buff: Writer, packet: Packet, rs: seq<Rr>, i: nat, index: Index, ghost pre: seq<byte>)
    returns (st: Status, index': Index, ghost wrote: seq<byte>)
    requires buff.Valid() && i < |rs| && rs[i].rrtype.Some?
    modifies buff, buff.buf, packet
    ensures buff.Valid() && buff.Kept(old(buff.buf[..]), old(buff.pos))
    ensures packet.Value() == old(packet.Value()).(ednsOptions := packet.ednsOptions)
    ensures var all := FramedRun(old(buff.pos), buff.buf.Length, Work(index, old(packet.ednsOptions)), rs, i, pre);
      var w := Work(index', packet.ednsOptions);
      if st == Going then
        buff.pos == old(buff.pos) + |wrote| && buff.buf[..buff.pos] == old(buff.buf[..buff.pos]) + wrote &&
        all == After(pre + wrote, 1, SectionRun(buff.pos, buff.buf.Length, w, rs, i + 1))
      else all == Run(st, 0, [], w)
  {
    wrote := [];
    ghost var at, front, buf0 := buff.pos, buff.buf[..buff.pos], buff.buf[..];
    index' := index;
    var rdataPos := buff.pos;
    st := buff.WriteU16(0);
    if st != Going {
      return;
    }
    ghost var mid := buff.buf[..];
    st, index' := WriteRData(buff, packet, TagOf(rs[i].rrtype.value), rs[i].rdata, index);
    PrefixTrans(buf0, mid, buff.buf[..], at, rdataPos + 2);
    if st != Going {
      return;
    }
    ghost var rdata := buff.buf[rdataPos + 2..buff.pos];
    st := PatchLength(buff, rdataPos);
    if st == Going {
      wrote := U16(|rdata|) + rdata;
      AppendAssoc(front, U16(|rdata|), rdata);
      AppendAssoc(pre, U16(|rdata|), rdata);
    }
  }

  /** RESOURCE_DONE: the length of what follows the two octets at rdataPos
      written over them, the cursor back where it was. */
  method PatchLength(buff: Writer, rdataPos: nat) returns (st: Status)
    requires buff.Valid() && rdataPos + 2 <= buff.pos
    modifies buff, buff.buf
    ensures buff.Valid() && buff.Kept(old(buff.buf[..]), rdataPos) && buff.pos == old(buff.pos)
    ensures st == WriteStatus(rdataPos, buff.buf.Length, 2, buff.pos - rdataPos - 2 < TWO16)
    ensures st == Going ==>
      buff.buf[..buff.pos] ==
        old(buff.buf[..rdataPos]) + U16(buff.pos - rdataPos - 2) + old(buff.buf[rdataPos + 2..buff.pos])
  {
    var pos := buff.pos;
    ghost var buf0 := buff.buf[..];
    buff.Seek(rdataPos);
    st := buff.WriteU16(pos - rdataPos - 2);
    buff.Seek(pos);
    if st == Going {
      Rejoin(buf0, buff.buf[..], rdataPos + 2, pos);
      assert buf0[rdataPos + 2..pos] == old(buff.buf[rdataPos + 2..buff.pos]);
    }
  }

  /** type & 0xFFFF, class & 0xFFFF and ttl & 0xFFFFFFFF. */
  method WriteFixed(buff: Writer, rtype: int, rclass: int, ttl: int) returns (st: Status)
    requires buff.Valid()
    modifies buff, buff.buf
    ensures buff.Valid() && buff.Kept(old(buff.buf[..]), old(buff.pos))
    ensures st == WriteStatus(old(buff.pos), buff.buf.Length, 8, true)
    ensures st == Going ==>
      buff.pos == old(buff.pos) + 8 &&
      buff.buf[..buff.pos] == old(buff.buf[..buff.pos]) + FixedBytes(rtype, rclass, ttl)
  {
    ghost var front := buff.buf[..buff.pos];
    st := buff.WriteU16(Low(rtype, TWO16));
    if st != Going {
      return;
    }
    st := buff.WriteU16(Low(rclass, TWO16));
    if st != Going {
      return;
    }
    st := buff.WriteU32(Low(ttl, TWO32));
    if st != Going {
      return;
    }
    assert buff.buf[..buff.pos] == front + FixedBytes(rtype, rclass, ttl);
  }

  /** RESOURCE_RECORD over one section: last_resource is taken on every
      entry, and the records are written until count reaches the section's
      length or a write does not go on. On Full, count is the number of
      records completed and last the offset after them. */
  method WriteSection(buff: Writer, packet: Packet, s: Section, index: Index)
    returns (st: Status, count: nat, index': Index, last: nat)
    requires buff.Valid()
    modifies buff, buff.buf, packet
    ensures buff.Valid() && buff.Kept(old(buff.buf[..]), old(buff.pos))
    ensures var r := SectionRun(old(buff.pos), buff.buf.Length, Work(index, old(packet.ednsOptions)),
                                old(packet.Value()).Records(s), 0);
      st == r.status && count == r.done && index' == r.work.index &&
      packet.Value() == old(packet.Value()).(ednsOptions := r.work.options) &&
      last == old(buff.pos) + |r.bytes| && last <= buff.pos &&
      buff.buf[..last] == old(buff.buf[..buff.pos]) + r.bytes &&
      (st == Going ==> buff.pos == last)
  {
    ghost var at, cap, front, buf0 := buff.pos, buff.buf.Length, buff.buf[..buff.pos], buff.buf[..];
    ghost var m0 := packet.Value();
    var rs := packet.Value().Records(s);
    ghost var goal := SectionRun(at, cap, Work(index, packet.ednsOptions), rs, 0);
    ghost var written: seq<byte> := [];
    count, index' := 0, index;
    while count < |rs|
      invariant buff.Valid() && buff.Kept(buf0, at) && buff.buf[..buff.pos] == front + written
      invariant buff.pos == at + |written| && count <= |rs|
      invariant packet.Value() == m0.(ednsOptions := packet.ednsOptions)
      invariant goal == After(written, count, SectionRun(buff.pos, cap, Work(index', packet.ednsOptions), rs, count))
    {
      last := buff.pos;
      ghost var p, mid := buff.pos, buff.buf[..];
      ghost var e;
      st, index', e := WriteRecord(buff, packet, rs, count, index');
      PrefixTrans(buf0, mid, buff.buf[..], at, p);
      if st != Going {
        return;
      }
      ghost var tail := SectionRun(buff.pos, cap, Work(index', packet.ednsOptions), rs, count + 1);
      AppendAssoc(written, e, tail.bytes);
      AppendAssoc(front, written, e);
      written := written + e;
      count := count + 1;
    }
    last := buff.pos;
    st := Going;
  }

  /** seek(off) and writeUInt16BE(v): the cursor is left after the word. */
  method Overwrite(buff: Writer, off: nat, v: int) returns (st: Status)
    requires buff.Valid() && off + 2 <= buff.buf.Length
    modifies buff, buff.buf
    ensures buff.Valid()
    ensures st == (if 0 <= v < TWO16 then Going else Failed(OutOfRange))
    ensures st == Going ==> buff.pos == off + 2 && buff.buf[..] == Patch(old(buff.buf[..]), off, U16(v))
  {
    ghost var buf0 := buff.buf[..];
    buff.Seek(off);
    st := buff.WriteU16(v);
    if st == Going {
      assert buff.buf[..off + 2] == buf0[..off] + U16(v);
      assert buff.buf[..] == buff.buf[..off + 2] + buff.buf[off + 2..];
    }
  }

  /** The TRUNCATE state: TC set in the flag word, the counts of the later
      sections zeroed, count - 1 written as the current section's count,
      and END returning last_resource. A count of 0 makes that last write
      refuse -1. */
  method Truncate(buff: Writer, s: Section, count: nat, last: nat) returns (r: Result<nat, EncodeError>)
    requires buff.Valid() && 12 <= last <= buff.buf.Length
    modifies buff, buff.buf
    ensures 1 <= count <= TWO16 ==>
      r == Success(last) && buff.buf[..] == TruncateBytes(old(buff.buf[..]), s, count)
    ensures !(1 <= count <= TWO16) ==> r == Failure(OutOfRange)
  {
    buff.Seek(2);
    var val := buff.ReadU16();
    var st := Overwrite(buff, 2, SetTc(val));
    match s {
      case Answer =>
        st := Overwrite(buff, 8, 0);
        st := Overwrite(buff, 10, 0);
      case Authority =>
        st := Overwrite(buff, 10, 0);
      case Additional =>
    }
    st := Overwrite(buff, CountAt(s), count - 1);
    if st != Going {
      return Failure(OutOfRange);
    }
    buff.Seek(last);
    r := Success(buff.pos);
  }

  /** Packet.write(buff, packet): EDNS if edns_version is defined, HEADER,
      QUESTION, then RESOURCE_RECORD over answer, authority and additional
      in turn, falling back to TRUNCATE on the cursor's overflow signal. The
      result is the offset END returns, or the error the call throws. */
  method Write(buf: array<byte>, packet: Packet) returns (r: Result<nat, EncodeError>)
    requires Fits(packet.Value(), buf.Length)
    modifies buf, packet
    ensures var w := Encode(old(packet.Value()), buf.Length);
      r == w.result && packet.Value() == w.message &&
      (r.Success? ==> r.value <= buf.Length && buf[..r.value] == w.bytes)
  {
    ghost var m0 := packet.Value();
    var buff := new Writer(buf);
    if packet.ednsVersion.Some? {
      AddOpt(packet);
    }
    ghost var m := packet.Value();
    WriteHeader(buff, packet);
    var st, index := WriteQuestion(buff, packet);
    if st != Going {
      return Failure(st.error);
    }
    var section := Answer;
    while true
      invariant buff.Valid() && buff.buf == buf && buff.pos >= 12
      invariant packet.Value() == m.(ednsOptions := packet.ednsOptions)
      invariant Encode(m0, buf.Length) ==
        Sections(buf[..buff.pos], buf.Length, m, Work(index, packet.ednsOptions), section)
      decreases Rank(section)
    {
      var stop;
      stop, r, index := WriteRound(buff, packet, section, index, m);
      if stop {
        return;
      }
      section := Next(section);
    }
  }

  /** One section of Packet.write: RESOURCE_RECORD over it, then END,
      TRUNCATE, or the next section. m is the packet the walk started from,
      whose option list the OPT writer pops. */
  method WriteRound(buff: Writer, packet: Packet, section: Section, index: Index, ghost m: Message)
    returns (stop: bool, r: Result<nat, EncodeError>, index': Index)
    requires buff.Valid() && buff.pos >= 12
    requires packet.Value() == m.(ednsOptions := packet.ednsOptions)
    modifies buff, buff.buf, packet
    ensures var all := Sections(old(buff.buf[..buff.pos]), buff.buf.Length, m,
                                Work(index, old(packet.ednsOptions)), section);
      if stop then
        r == all.result && packet.Value() == all.message &&
        (r.Success? ==> r.value <= buff.buf.Length && buff.buf[..r.value] == all.bytes)
      else
        section != Additional && buff.Valid() && buff.pos >= 12 && packet.Value() == m.(ednsOptions := packet.ednsOptions) &&
        all == Sections(buff.buf[..buff.pos], buff.buf.Length, m, Work(index', packet.ednsOptions), Next(section))
  {
    ghost var front, cap := buff.buf[..buff.pos], buff.buf.Length;
    ghost var run := SectionRun(|front|, cap, Work(index, packet.ednsOptions), m.Records(section), 0);
    assert packet.Value().Records(section) == m.Records(section);
    var st, count, last;
    st, count, index', last := WriteSection(buff, packet, section, index);
    match st {
      case Failed(e) =>
        return true, Failure(e), index';
      case Full =>
        ghost var b := buff.buf[..];
        r := Truncate(buff, section, count, last);
        if r.Success? {
          TruncateTake(b, section, count, last);
          assert b[..last] == front + run.bytes;
          assert buff.buf[..last] == TruncateBytes(front + run.bytes, section, count);
        }
        return true, r, index';
      case Going =>
        if section == Additional {
          return true, Success(buff.pos), index';
        }
        return false, Success(0), index';
    }
  }
}
