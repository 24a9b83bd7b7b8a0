/** What Packet.write produces, as functions of the packet object and the
    buffer's capacity: the EDNS preparation, the header, the question, each
    record with its RDATA length in front of its RDATA, the three record
    sections, and the truncation that an overflow falls back to. */
module Encoding {
  import opened Wrappers
  import opened Wire
  import opened Messages
  import opened Names
  import opened Headers

  /** The working state of one encode call besides the buffer: the
      compression index and the EDNS option list the OPT writer pops from. */
  datatype Work = Work(index: Index, options: seq<EdnsOption>)

  /** A name packed with the index of w, keeping w's options. */
  function Named(e: Emit<Index>, w: Work): Emit<Work>
  {
    Emit(e.status, e.bytes, w.(index := e.state))
  }

  /** e2, computed from where e1 ended, after e1; the first step that does
      not go on decides. */
  function Then<S>(e1: Emit<S>, e2: Emit<S>): Emit<S>
  {
    if e1.status != Going then e1 else Emit(e2.status, e1.bytes + e2.bytes, e2.state)
  }

  function Missing<S>(st: S): Emit<S>
  {
    Emit(Failed(MissingField), [], st)
  }

  // ---------------------------------------------------------------------
  // The EDNS state.

  /** The TTL field of the OPT record: ((x << 16) + (do << 15)) & 0x8000.
      Only the low bit of `do` survives the mask; the extended rcode and the
      version shifted into x are masked away. An undefined `do` shifts as 0. */
  function EdnsTtl(dnssecOk: Option<int>): (t: int)
    ensures t == 0 || t == 0x8000
  {
    Low(dnssecOk.GetOr(0), 2) * 0x8000
  }

  /** The OPT pseudo-record the EDNS state builds: name '', type OPT, class
      the payload size (undefined if the packet has none). */
  function OptRecord(m: Message): Rr
  {
    Rr(Some(""), Some(OPT_CODE), m.payload, Some(EdnsTtl(m.dnssecOk)), NoData)
  }

  /** The EDNS state, taken when edns_version is defined: the OPT record is
      spliced in at the head of the additional section, and rcode keeps its
      low four bits (rcode - ((rcode >> 4) << 4)). */
  function PrepareEdns(m: Message): (m': Message)
    ensures m.ednsVersion.None? ==> m' == m
    ensures m.ednsVersion.Some? ==>
      m'.additional == [OptRecord(m)] + m.additional &&
      m'.header == m.header.(rcode := Low(m.header.rcode, 16)) &&
      m'.question == m.question && m'.answer == m.answer && m'.authority == m.authority &&
      m'.ednsOptions == m.ednsOptions && m'.payload == m.payload &&
      m'.ednsVersion == m.ednsVersion && m'.dnssecOk == m.dnssecOk
  {
    if m.ednsVersion.None? then m
    else m.(additional := [OptRecord(m)] + m.additional,
            header := m.header.(rcode := Low(m.header.rcode, 16)))
  }

  // ---------------------------------------------------------------------
  // The HEADER state.

  /** Offsets of the four count fields. */
  const QDCOUNT_AT: nat := 4
  function CountAt(s: Section): nat
  {
    match s
    case Answer => 6
    case Authority => 8
    case Additional => 10
  }

  /** id & 0xFFFF, the flag word, qdcount 1 and each section's length & 0xFFFF. */
  function HeaderBytes(m: Message): (b: seq<byte>)
    ensures |b| == 12
  {
    U16(Low(m.header.id, TWO16)) + U16(FlagsWord(m.header)) + U16(1) +
    U16(Low(|m.answer|, TWO16)) + U16(Low(|m.authority|, TWO16)) +
    U16(Low(|m.additional|, TWO16))
  }

  // ---------------------------------------------------------------------
  // The QUESTION and QUESTION_NEXT states.

  /** The first question, packed with a fresh index: its name, then
      type & 0xFFFF and class & 0xFFFF. An absent question, name, type or
      class is an error; type and class are checked after the name is written. */
  function QuestionEmit(at: int, cap: int, qs: seq<Question>): Emit<Index>
  {
    if qs == [] || qs[0].name.None? then Missing(map[])
    else
      var q := qs[0];
      var n := PackName(at, cap, map[], q.name.value);
      if n.status != Going then n
      else if q.qtype.None? || q.qclass.None? then Emit(Failed(MissingField), n.bytes, n.state)
      else Then(n, PutBytes(at + |n.bytes|, cap, n.state,
                            U16(Low(q.qtype.value, TWO16)) + U16(Low(q.qclass.value, TWO16))))
  }

  /** The buffer holds the header, and the question does not overflow it:
      an overflow there reaches the truncation state with no section
      chosen, which Packet.write does not handle. */
  predicate Fits(m: Message, cap: int)
  {
    cap >= 12 && QuestionEmit(12, cap, m.question).status != Full
  }

  // ---------------------------------------------------------------------
  // The RDATA states.

  /** How writing one EDNS option ends: code, data length and data are
      written in turn, the code and the length unmasked (a value out of
      16-bit range makes its write fail). */
  function OptionStatus(at: int, cap: int, o: EdnsOption): Status
  {
    var c := WriteStatus(at, cap, 2, 0 <= o.code < TWO16);
    var l := WriteStatus(at + 2, cap, 2, |o.data| < TWO16);
    if c != Going then c else if l != Going then l else WriteStatus(at + 4, cap, |o.data|, true)
  }

  /** One option, written after it was popped: the state is the option
      list left after the pop. */
  function OptionEmit(at: int, cap: int, rest: seq<EdnsOption>, o: EdnsOption): Emit<seq<EdnsOption>>
  {
    var st := OptionStatus(at, cap, o);
    Emit(st, if st == Going then U16(o.code) + U16(|o.data|) + o.data else [], rest)
  }

  /** The OPT state: pop the last option and write it, until none is left.
      The options come out last first, and a popped option is gone even
      when writing it fails. */
  function OptionsEmit(at: int, cap: int, opts: seq<EdnsOption>): Emit<seq<EdnsOption>>
    decreases |opts|
  {
    if opts == [] then Emit(Going, [], [])
    else
      var n := |opts| - 1;
      var e := OptionEmit(at, cap, opts[..n], opts[n]);
      if e.status != Going then e
      else Cat(e.bytes, OptionsEmit(at + |e.bytes|, cap, opts[..n]))
  }

  /** The octets of the option list as the OPT state writes them. */
  function OptionBytes(opts: seq<EdnsOption>): seq<byte>
    requires forall i | 0 <= i < |opts| :: 0 <= opts[i].code < TWO16 && |opts[i].data| < TWO16
    decreases |opts|
  {
    if opts == [] then []
    else
      var o := opts[|opts| - 1];
      U16(o.code) + U16(|o.data|) + o.data + OptionBytes(opts[..|opts| - 1])
  }

  /** One field of RDATA, as the state of a record type writes it: a
      packed name, a 16-bit or a 32-bit word, a character string, raw
      octets, or the EDNS option list. */
  datatype Field = Domain(name: string) | Word(v: int) | Long(v: int) | Text(s: string)
                 | Octets(b: seq<byte>) | OptionList

  /** The fields the state of a handled type writes, in order, or None when
      the record lacks the properties that state reads. The record's variant
      stands for the properties it carries. Numbers are masked to their
      width as the states mask them. */
  function RDataLayout(tag: Tag, d: RData): (l: Option<seq<Field>>)
    requires tag != Unhandled
  {
    match tag
    case A | AAAA => if d.Address? then Some([Octets(d.address)]) else None
    case NS | CNAME | PTR => if d.Data? then Some([Domain(d.data)]) else None
    case TXT | SPF => if d.Data? then Some([Text(d.data)]) else None
    case MX => if d.Mx? then Some([Word(Low(d.priority, TWO16)), Domain(d.exchange)]) else None
    case SRV =>
      if !d.Srv? then None
      else Some([Word(Low(d.priority, TWO16)), Word(Low(d.weight, TWO16)), Word(Low(d.port, TWO16)),
                 Domain(d.target)])
    case SOA =>
      if !d.Soa? then None
      else Some([Domain(d.primary), Domain(d.admin), Long(Low(d.serial, TWO32)),
                 Long(Low(d.refresh, TWO32)), Long(Low(d.retry, TWO32)),
                 Long(Low(d.expiration, TWO32)), Long(Low(d.minimum, TWO32))])
    case OPT => Some([OptionList])
    case NAPTR =>
      if !d.Naptr? then None
      else Some([Word(Low(d.order, TWO16)), Word(Low(d.preference, TWO16)), Text(d.flags),
                 Text(d.service), Text(d.regexp), Text(d.replacement)])
  }

  /** Writing one field at offset at. */
  function FieldEmit(at: int, cap: int, w: Work, f: Field): Emit<Work>
  {
    match f
    case Domain(n) => Named(PackName(at, cap, w.index, n), w)
    case Word(v) => PutU16(at, cap, w, v)
    case Long(v) => PutU32(at, cap, w, v)
    case Text(t) => PutString(at, cap, w, t)
    case Octets(b) => PutBytes(at, cap, w, b)
    case OptionList =>
      var o := OptionsEmit(at, cap, w.options);
      Emit(o.status, o.bytes, w.(options := o.state))
  }

  /** The fields written one after the other; the first that does not go
      on decides. */
  function FieldsEmit(at: int, cap: int, w: Work, fs: seq<Field>): Emit<Work>
    decreases |fs|
  {
    if fs == [] then Emit(Going, [], w)
    else
      var e := FieldEmit(at, cap, w, fs[0]);
      if e.status != Going then e
      else Cat(e.bytes, FieldsEmit(at + |e.bytes|, cap, e.state, fs[1..]))
  }

  /** FieldsEmit one field at a time, for e the first field written. */
  lemma {:induction false} FieldsNext(at: int, cap: int, w: Work, fs: seq<Field>, e: Emit<Work>)
    requires fs != [] && e == FieldEmit(at, cap, w, fs[0])
    ensures FieldsEmit(at, cap, w, fs) ==
      if e.status != Going then e else Cat(e.bytes, FieldsEmit(at + |e.bytes|, cap, e.state, fs[1..]))
  {
  }

  /** The RDATA state chosen by the record's type: its layout's fields, an
      error when the record lacks them, and the default case's error for a
      type with no state. */
  function RDataEmit(at: int, cap: int, w: Work, tag: Tag, d: RData): Emit<Work>
  {
    if tag == Unhandled then Emit(Failed(UnknownType), [], w)
    else
      var l := RDataLayout(tag, d);
      if l.None? then Missing(w) else FieldsEmit(at, cap, w, l.value)
  }

  /** type & 0xFFFF, class & 0xFFFF and ttl & 0xFFFFFFFF. */
  function FixedBytes(rtype: int, rclass: int, ttl: int): (b: seq<byte>)
    ensures |b| == 8
  {
    U16(Low(rtype, TWO16)) + U16(Low(rclass, TWO16)) + U32(Low(ttl, TWO32))
  }

  // ---------------------------------------------------------------------
  // RESOURCE_RECORD, RESOURCE_WRITE, RESOURCE_WRITE_NEXT, RDATA and
  // RESOURCE_DONE: the section walk, one state per function, each going on
  // to the next as the state machine does.

  /** Writing a section's records from offset at: how the walk stopped, how
      many records were completed, their octets (a record cut short adds
      none) and the work state left. */
  datatype Run = Run(status: Status, done: nat, bytes: seq<byte>, work: Work)

  /** RESOURCE_RECORD with count i: done when i reaches the section's
      length, otherwise record i is written. */
  function SectionRun(at: int, cap: int, w: Work, rs: seq<Rr>, i: nat): (r: Run)
    requires i <= |rs|
    ensures r.done <= |rs| - i && (r.status == Going ==> r.done == |rs| - i)
    decreases |rs| - i, 3
  {
    if i == |rs| then Run(Going, 0, [], w) else RecordRun(at, cap, w, rs, i)
  }

  /** RESOURCE_WRITE and its NAME_PACK for record i. */
  function RecordRun(at: int, cap: int, w: Work, rs: seq<Rr>, i: nat): (r: Run)
    requires i < |rs|
    ensures r.done <= |rs| - i && (r.status == Going ==> r.done == |rs| - i)
    decreases |rs| - i, 2
  {
    var rr := rs[i];
    if rr.name.None? then Run(Failed(MissingField), 0, [], w)
    else
      var n := Named(PackName(at, cap, w.index, rr.name.value), w);
      if n.status != Going then Run(n.status, 0, [], n.state)
      else BodyRun(at + |n.bytes|, cap, n.state, rs, i, n.bytes)
  }

  /** RESOURCE_WRITE_NEXT for record i, whose octets so far are pre: type,
      class and ttl. */
  function BodyRun(at: int, cap: int, w: Work, rs: seq<Rr>, i: nat, pre: seq<byte>): (r: Run)
    requires i < |rs|
    ensures r.done <= |rs| - i && (r.status == Going ==> r.done == |rs| - i)
    decreases |rs| - i, 1
  {
    var rr := rs[i];
    if rr.rrtype.None? || rr.rrclass.None? || rr.ttl.None? then Run(Failed(MissingField), 0, [], w)
    else
      var f := WriteStatus(at, cap, 8, true);
      if f != Going then Run(f, 0, [], w)
      else FramedRun(at + 8, cap, w, rs, i, pre + FixedBytes(rr.rrtype.value, rr.rrclass.value, rr.ttl.value))
  }

  /** The RDATA length written as 0, the RDATA state chosen by the
      unmasked type, and RESOURCE_DONE: the length patched to the size of
      that RDATA, which must fit in 16 bits. Then RESOURCE_RECORD with
      count i + 1. */
  function FramedRun(at: int, cap: int, w: Work, rs: seq<Rr>, i: nat, pre: seq<byte>): (r: Run)
    requires i < |rs| && rs[i].rrtype.Some?
    ensures r.done <= |rs| - i && (r.status == Going ==> r.done == |rs| - i)
    decreases |rs| - i, 0
  {
    var z := WriteStatus(at, cap, 2, true);
    if z != Going then Run(z, 0, [], w)
    else
      var r := RDataEmit(at + 2, cap, w, TagOf(rs[i].rrtype.value), rs[i].rdata);
      if r.status != Going then Run(r.status, 0, [], r.state)
      else if |r.bytes| >= TWO16 then Run(Failed(OutOfRange), 0, [], r.state)
      else After(pre + U16(|r.bytes|) + r.bytes, 1, SectionRun(at + 2 + |r.bytes|, cap, r.state, rs, i + 1))
  }

  /** r after k completed records whose octets are b. */
  function After(b: seq<byte>, k: nat, r: Run): Run
  {
    Run(r.status, r.done + k, b + r.bytes, r.work)
  }

  // ---------------------------------------------------------------------
  // TRUNCATE.

  /** b written over buf at offset off. */
  function Patch(buf: seq<byte>, off: nat, b: seq<byte>): (r: seq<byte>)
    requires off + |b| <= |buf|
    ensures |r| == |buf|
  {
    buf[..off] + b + buf[off + |b|..]
  }

  /** The TRUNCATE state over the octets written so far: TC set, the count
      fields of the later sections zeroed, and the current section's count
      overwritten by count - 1, count being the records it completed. */
  function TruncateBytes(buf: seq<byte>, s: Section, count: nat): (r: seq<byte>)
    requires |buf| >= 12 && 1 <= count <= TWO16
    ensures |r| == |buf|
  {
    var b1 := Patch(buf, 2, U16(SetTc(BeU16(buf, 2))));
    Patch(ZeroLater(b1, s), CountAt(s), U16(count - 1))
  }

  /** The count fields of the sections after s zeroed. */
  function ZeroLater(buf: seq<byte>, s: Section): (r: seq<byte>)
    requires |buf| >= 12
    ensures |r| == |buf|
  {
    match s
    case Answer => Patch(Patch(buf, 8, U16(0)), 10, U16(0))
    case Authority => Patch(buf, 10, U16(0))
    case Additional => buf
  }

  /** Patching within the first n octets only touches those octets. */
  lemma {:induction false} PatchTake(buf: seq<byte>, off: nat, b: seq<byte>, n: nat)
    requires off + |b| <= n <= |buf|
    ensures Patch(buf, off, b)[..n] == Patch(buf[..n], off, b)
  {
    assert buf[..n][..off] == buf[..off];
    assert buf[..n][off + |b|..] == buf[off + |b|..n];
  }

  /** The truncation only touches the header, so it commutes with taking
      a prefix that holds the header. */
  lemma {:induction false} TruncateTake(buf: seq<byte>, s: Section, count: nat, n: nat)
    requires 12 <= n <= |buf| && 1 <= count <= TWO16
    ensures TruncateBytes(buf, s, count)[..n] == TruncateBytes(buf[..n], s, count)
  {
    var v := U16(SetTc(BeU16(buf, 2)));
    assert BeU16(buf[..n], 2) == BeU16(buf, 2);
    var b1, c1 := Patch(buf, 2, v), Patch(buf[..n], 2, v);
    PatchTake(buf, 2, v, n);
    var b2, c2 := ZeroLater(b1, s), ZeroLater(c1, s);
    match s {
      case Answer =>
        PatchTake(b1, 8, U16(0), n);
        PatchTake(Patch(b1, 8, U16(0)), 10, U16(0), n);
      case Authority =>
        PatchTake(b1, 10, U16(0), n);
      case Additional =>
    }
    PatchTake(b2, CountAt(s), U16(count - 1), n);
  }

  // ---------------------------------------------------------------------
  // Packet.write.

  /** What one call returns (the offset END returns, or the error it
      throws), the octets before that offset, and the packet object it
      leaves behind. */
  datatype Written = Written(result: Result<nat, EncodeError>, bytes: seq<byte>, message: Message)

  /** Packet.write(buff, packet) for a buffer of capacity cap. */
  function Encode(m0: Message, cap: int): Written
    requires Fits(m0, cap)
  {
    var m := PrepareEdns(m0);
    var q := QuestionEmit(12, cap, m.question);
    if q.status != Going then Written(Failure(q.status.error), [], m)
    else Sections(HeaderBytes(m) + q.bytes, cap, m, Work(q.state, m.ednsOptions), Answer)
  }

  /** The section walk from section s on, the octets before it being front. */
  function Sections(front: seq<byte>, cap: int, m: Message, w: Work, s: Section): (r: Written)
    requires |front| >= 12
    ensures r.result.Success? ==> r.result.value == |r.bytes|
    decreases Rank(s)
  {
    var run := SectionRun(|front|, cap, w, m.Records(s), 0);
    var m' := m.(ednsOptions := run.work.options);
    match run.status
    case Failed(e) => Written(Failure(e), [], m')
    case Full =>
      if !(1 <= run.done <= TWO16) then Written(Failure(OutOfRange), [], m')
      else
        var b := front + run.bytes;
        Written(Success(|b|), TruncateBytes(b, s, run.done), m')
    case Going =>
      if s == Additional then Written(Success(|front + run.bytes|), front + run.bytes, m')
      else Sections(front + run.bytes, cap, m, run.work, Next(s))
  }
}
