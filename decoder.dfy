/** What Packet.parse builds from a message, as functions of its octets:
    the header and its counts, the one question, each record's fixed part
    and the place of its RDATA, the RDATA readers of the handled types, the
    OPT state with its quirks, and the walk over the three sections. */
module Decoding {
  import opened Wrappers
  import opened Wire
  import opened Messages
  import opened Names
  import opened Headers

  /** The four count fields as parseHeader stores them in `counts`. */
  datatype Counts = Counts(qd: int, an: int, ns: int, ar: int)
  {
    /** counts[count], count being the count field of section s. */
    function Of(s: Section): int
    {
      match s
      case Answer => an
      case Authority => ns
      case Additional => ar
    }

    /** counts[count] -= 1 */
    function Drop(s: Section): (c: Counts)
      ensures c.Of(s) == Of(s) - 1 && c.qd == qd
      ensures forall t :: t != s ==> c.Of(t) == Of(t)
    {
      match s
      case Answer => this.(an := an - 1)
      case Authority => this.(ns := ns - 1)
      case Additional => this.(ar := ar - 1)
    }
  }

  // ---------------------------------------------------------------------
  // The HEADER and QUESTION states.

  /** What parseHeader reads: the header and the counts. */
  datatype Top = Top(header: Header, counts: Counts)

  /** parseHeader: six 16-bit words, the flag word taken apart by
      ParseFlags. */
  function HeaderAt(msg: seq<byte>): Result<Top, DecodeError>
  {
    if |msg| < 12 then Failure(ReadPastEnd)
    else
      Success(Top(ParseFlags(BeU16(msg, 0), BeU16(msg, 2)),
                  Counts(BeU16(msg, 4), BeU16(msg, 6), BeU16(msg, 8), BeU16(msg, 10))))
  }

  /** parseQuestion at offset p: a name, its type and its class, and the
      offset after them. */
  function QuestionAt(msg: seq<byte>, p: nat, hops: nat): (r: Result<(Question, nat), DecodeError>)
    ensures r.Success? ==> p < r.value.1 <= |msg|
  {
    var n :- NameAt(msg, p, hops);
    var t :- GetU16(msg, n.1);
    var c :- GetU16(msg, n.1 + 2);
    Success((Question(Some(n.0), Some(t), Some(c)), n.1 + 4))
  }

  // ---------------------------------------------------------------------
  // RR_UNPACK.

  /** What parseRR leaves: the record with its name, type, class and ttl,
      and the len octets of its RDATA, starting at start, that rdata.buf
      covers. */
  datatype Frame = Frame(rr: Rr, start: nat, len: nat)

  /** parseRR at offset p. */
  function FrameAt(msg: seq<byte>, p: nat, hops: nat): (r: Result<Frame, DecodeError>)
    ensures r.Success? ==> p + 10 < r.value.start && r.value.start + r.value.len <= |msg|
    ensures r.Success? ==> r.value.rr.rrtype.Some? && r.value.rr.rdata == NoData
  {
    var n :- NameAt(msg, p, hops);
    var t :- GetU16(msg, n.1);
    var c :- GetU16(msg, n.1 + 2);
    var ttl :- GetU32(msg, n.1 + 4);
    var len :- GetU16(msg, n.1 + 8);
    var start := n.1 + 10;
    if start + len > |msg| then Failure(ReadPastEnd)
    else Success(Frame(Rr(Some(n.0), Some(t), Some(c), Some(ttl), NoData), start, len))
  }

  /** The RDATA octets of f, which rdata.buf reads from its offset 0. */
  function Slice(msg: seq<byte>, f: Frame): (b: seq<byte>)
    requires f.start + f.len <= |msg|
    ensures |b| == f.len
  {
    msg[f.start..f.start + f.len]
  }

  // ---------------------------------------------------------------------
  // The RDATA states.

  /** readUInt8 then toString('ascii', len) at offset k of b: a character
      string and the offset after it. */
  function StringAt(b: seq<byte>, k: nat): (r: Result<(string, nat), DecodeError>)
    ensures r.Success? ==> k < r.value.1 <= |b| && |r.value.0| == r.value.1 - k - 1
  {
    var l :- GetU8(b, k);
    if k + 1 + l > |b| then Failure(ReadPastEnd)
    else Success((AsciiString(b[k + 1..k + 1 + l]), k + 1 + l))
  }

  /** parseTxt's loop from offset k: every character string up to the end
      of the RDATA, concatenated with nothing between them. */
  function TextsAt(b: seq<byte>, k: nat): Result<string, DecodeError>
    decreases |b| - k
  {
    if k >= |b| then Success("")
    else
      var s :- StringAt(b, k);
      var rest :- TextsAt(b, s.1);
      Success(s.0 + rest)
  }

  /** A result r with front put before the sequence it holds. */
  function Behind<T>(front: seq<T>, r: Result<seq<T>, DecodeError>): Result<seq<T>, DecodeError>
  {
    if r.Failure? then r else Success(front + r.value)
  }

  /** Putting nothing in front changes nothing. */
  lemma BehindNothing<T>(r: Result<seq<T>, DecodeError>)
    ensures Behind([], r) == r
  {
    if r.Success? {
      assert [] + r.value == r.value;
    }
  }

  /** Putting a then b in front is putting a + b in front. */
  lemma BehindBehind<T>(a: seq<T>, b: seq<T>, r: Result<seq<T>, DecodeError>)
    ensures Behind(a, Behind(b, r)) == Behind(a + b, r)
  {
    if r.Success? {
      assert a + (b + r.value) == a + b + r.value;
    }
  }

  /** parseA and parseAAAA: the first n octets of the RDATA (4 read one
      at a time, or 16 read as eight 16-bit words). */
  function AddressAt(b: seq<byte>, n: nat): Result<RData, DecodeError>
  {
    var a :- GetBytes(b, 0, n);
    Success(Address(a))
  }

  /** parseCname, for NS, CNAME and PTR: a name read from the message at
      the start of the RDATA. */
  function CnameAt(msg: seq<byte>, f: Frame, hops: nat): Result<RData, DecodeError>
  {
    var n :- NameAt(msg, f.start, hops);
    Success(Data(n.0))
  }

  /** parseTxt, for TXT and SPF. */
  function TxtAt(b: seq<byte>): Result<RData, DecodeError>
  {
    var t :- TextsAt(b, 0);
    Success(Data(t))
  }

  /** parseMx: a 16-bit word, then a name read from the message past it. */
  function MxAt(msg: seq<byte>, f: Frame, hops: nat): Result<RData, DecodeError>
    requires f.start + f.len <= |msg|
  {
    var priority :- GetU16(Slice(msg, f), 0);
    var n :- NameAt(msg, f.start + 2, hops);
    Success(Mx(priority, n.0))
  }

  /** parseSrv: three 16-bit words, then a name read from the message past
      them. */
  function SrvAt(msg: seq<byte>, f: Frame, hops: nat): Result<RData, DecodeError>
    requires f.start + f.len <= |msg|
  {
    var b := Slice(msg, f);
    var priority :- GetU16(b, 0);
    var weight :- GetU16(b, 2);
    var port :- GetU16(b, 4);
    var n :- NameAt(msg, f.start + 6, hops);
    Success(Srv(priority, weight, port, n.0))
  }

  /** parseSoa's five numbers, read from offset k of the RDATA. */
  function SoaNumbersAt(b: seq<byte>, k: nat, primary: string, admin: string): Result<RData, DecodeError>
  {
    var serial :- GetU32(b, k);
    var refresh :- GetU32(b, k + 4);
    var retry :- GetU32(b, k + 8);
    var expiration :- GetU32(b, k + 12);
    var minimum :- GetU32(b, k + 16);
    Success(Soa(primary, admin, serial, refresh, retry, expiration, minimum))
  }

  /** parseSoa: the two names are read from the message at the start of
      the RDATA, one after the other, and the numbers from the RDATA at the
      offset where the second name left the message cursor. */
  function SoaAt(msg: seq<byte>, f: Frame, hops: nat): Result<RData, DecodeError>
    requires f.start + f.len <= |msg|
  {
    var primary :- NameAt(msg, f.start, hops);
    var admin :- NameAt(msg, primary.1, hops);
    var local := admin.1 - f.start;
    if local < 0 || local > f.len then Failure(BadSeek)
    else SoaNumbersAt(Slice(msg, f), local, primary.0, admin.0)
  }

  /** parseNaptr: two 16-bit words and four character strings. */
  function NaptrAt(b: seq<byte>): Result<RData, DecodeError>
  {
    var order :- GetU16(b, 0);
    var preference :- GetU16(b, 2);
    var flags :- StringAt(b, 4);
    var service :- StringAt(b, flags.1);
    var regexp :- StringAt(b, service.1);
    var replacement :- StringAt(b, regexp.1);
    Success(Naptr(order, preference, flags.0, service.0, regexp.0, replacement.0))
  }

  /** The type-specific fields the state of tag reads. Names are read from
      the whole message at the start of the RDATA plus the octets read
      before them, and may run past the RDATA. A type with no state keeps
      no fields. */
  function RDataAt(msg: seq<byte>, f: Frame, tag: Tag, hops: nat): Result<RData, DecodeError>
    requires f.start + f.len <= |msg|
  {
    match tag
    case A => AddressAt(Slice(msg, f), 4)
    case AAAA => AddressAt(Slice(msg, f), 16)
    case NS | CNAME | PTR => CnameAt(msg, f, hops)
    case TXT | SPF => TxtAt(Slice(msg, f))
    case MX => MxAt(msg, f, hops)
    case SRV => SrvAt(msg, f, hops)
    case SOA => SoaAt(msg, f, hops)
    case NAPTR => NaptrAt(Slice(msg, f))
    case OPT | Unhandled => Success(NoData)
  }

  // ---------------------------------------------------------------------
  // The OPT state.

  /** The options loop from offset k: a code, a length and that many
      octets, until the end of the RDATA. */
  function OptionsAt(b: seq<byte>, k: nat): Result<seq<EdnsOption>, DecodeError>
    decreases |b| - k
  {
    if k >= |b| then Success([])
    else
      var code :- GetU16(b, k);
      var len :- GetU16(b, k + 2);
      if k + 4 + len > |b| then Failure(ReadPastEnd)
      else
        var rest :- OptionsAt(b, k + 4 + len);
        Success([EdnsOption(code, b[k + 4..k + 4 + len])] + rest)
  }

  /** (val & 0x8000) << 15: the DO bit of a flags word moved to bit 30. */
  function DnssecOkOf(flags: int): (d: int)
    ensures d == 0 || d == 0x4000_0000
  {
    BitField(flags, 0x8000, 2) * 0x4000_0000
  }

  /** The OPT state's fields besides the options: the payload is the
      record's class; the extended rcode, the version and the flags are
      read from the six octets before the end of the RDATA (which are the
      record's TTL only when the RDATA is empty); and the rcode octet is
      shifted above the header's rcode. */
  function EdnsFields(msg: seq<byte>, m: Message, f: Frame): Message
    requires 6 <= f.start && f.start + f.len <= |msg|
  {
    var pos := f.start + f.len;
    m.(payload := f.rr.rrclass,
       header := m.header.(rcode := msg[pos - 6] as int * 16 + m.header.rcode),
       ednsVersion := Some(msg[pos - 5] as int),
       dnssecOk := Some(DnssecOkOf(BeU16(msg, pos - 4))))
  }

  /** The OPT state: the EDNS fields, and the options appended in the
      order they appear. */
  function OptAt(msg: seq<byte>, m: Message, f: Frame): Result<Message, DecodeError>
    requires 6 <= f.start && f.start + f.len <= |msg|
  {
    var opts :- OptionsAt(Slice(msg, f), 0);
    Success(EdnsFields(msg, m, f).(ednsOptions := m.ednsOptions + opts))
  }

  // ---------------------------------------------------------------------
  // RESOURCE_RECORD, RESOURCE_DONE and the section walk.

  /** The packet, the counts and the cursor after one record. */
  datatype Stepped = Stepped(m: Message, counts: Counts, pos: nat)

  /** RR_UNPACK, the state of the record's type and then RESOURCE_DONE:
      the record goes to the end of section s, except an OPT record, which
      is not kept and lowers the section's count instead. The cursor ends
      after the RDATA. */
  function RecordAt(msg: seq<byte>, hops: nat, p: nat, m: Message, c: Counts, s: Section)
    : (r: Result<Stepped, DecodeError>)
    ensures r.Success? ==> p < r.value.pos <= |msg|
  {
    var f :- FrameAt(msg, p, hops);
    var tag := TagOf(f.rr.rrtype.value);
    if tag == OPT then
      var m' :- OptAt(msg, m, f);
      Success(Stepped(m', c.Drop(s), f.start + f.len))
    else
      var d :- RDataAt(msg, f, tag, hops);
      Success(Stepped(m.WithRecords(s, m.Records(s) + [f.rr.(rdata := d)]), c, f.start + f.len))
  }

  /** RESOURCE_RECORD in section s: records are read into s until its list
      is as long as its count, then the next section, and after the
      additional section the END state. */
  function SectionsFrom(msg: seq<byte>, hops: nat, p: nat, m: Message, c: Counts, s: Section)
    : Result<Message, DecodeError>
    decreases Rank(s), |msg| - p
  {
    if c.Of(s) == |m.Records(s)| then
      if s == Additional then Success(m) else SectionsFrom(msg, hops, p, m, c, Next(s))
    else
      var st :- RecordAt(msg, hops, p, m, c, s);
      SectionsFrom(msg, hops, st.pos, st.m, st.counts, s)
  }

  /** The packet Packet.parse returns, or the error it throws. One
      question is read whatever the question count says, and every name is
      allowed `hops` pointer jumps. */
  function Decode(msg: seq<byte>, hops: nat): Result<Message, DecodeError>
  {
    var top :- HeaderAt(msg);
    var q :- QuestionAt(msg, 12, hops);
    SectionsFrom(msg, hops, q.1, EmptyMessage.(header := top.header, question := [q.0]), top.counts, Answer)
  }
}
