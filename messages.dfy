/** The in-memory message the codec reads and writes: the header, the
    question list, the three record sections and the EDNS(0) fields of
    section 6.1 of RFC 6891, with the record fields packet.js's objects carry. */
module Messages {
  import opened Wrappers
  import opened Wire

  /** The header of section 4.1.1 of RFC 1035, one integer per field; res1,
      res2 and res3 are the three reserved bits (the Z field). */
  datatype Header = Header(
    id: int, qr: int, opcode: int, aa: int, tc: int, rd: int, ra: int,
    res1: int, res2: int, res3: int, rcode: int)

  /** A question entry (section 4.1.2 of RFC 1035); None stands for a
      property the caller left undefined. */
  datatype Question = Question(name: Option<string>, qtype: Option<int>, qclass: Option<int>)

  /** One EDNS option: a 16-bit code and opaque data. */
  datatype EdnsOption = EdnsOption(code: int, data: seq<byte>)

  /** The type-specific fields of a record. The variant is the set of
      properties the record object carries, not its type code: `data` serves
      NS, CNAME, PTR, TXT and SPF alike, `priority`/`exchange` serve MX. */
  datatype RData =
    | NoData
    | Address(address: seq<byte>)
    | Data(data: string)
    | Mx(priority: int, exchange: string)
    | Srv(priority: int, weight: int, port: int, target: string)
    | Soa(primary: string, admin: string, serial: int, refresh: int, retry: int,
          expiration: int, minimum: int)
    | Naptr(order: int, preference: int, flags: string, service: string, regexp: string,
            replacement: string)

  /** A resource record (section 4.1.3 of RFC 1035). */
  datatype Rr = Rr(name: Option<string>, rrtype: Option<int>, rrclass: Option<int>,
                   ttl: Option<int>, rdata: RData)

  datatype Section = Answer | Authority | Additional

  /** The section both state machines go on to once one is done. */
  function Next(s: Section): Section
    requires s != Additional
  {
    if s == Answer then Authority else Additional
  }

  /** How many sections come after s. */
  function Rank(s: Section): nat
  {
    match s
    case Answer => 2
    case Authority => 1
    case Additional => 0
  }

  /** The whole packet object: what the encoder reads and the decoder builds. */
  datatype Message = Message(
    header: Header,
    question: seq<Question>,
    answer: seq<Rr>,
    authority: seq<Rr>,
    additional: seq<Rr>,
    ednsOptions: seq<EdnsOption>,
    payload: Option<int>,
    ednsVersion: Option<int>,
    dnssecOk: Option<int>)
  {
    function Records(s: Section): seq<Rr>
    {
      match s
      case Answer => answer
      case Authority => authority
      case Additional => additional
    }

    function WithRecords(s: Section, rs: seq<Rr>): (m: Message)
      ensures m.Records(s) == rs
      ensures forall t :: t != s ==> m.Records(t) == Records(t)
    {
      match s
      case Answer => this.(answer := rs)
      case Authority => this.(authority := rs)
      case Additional => this.(additional := rs)
    }
  }

  /** What `new Packet()` holds: rd set, everything else zero or empty. */
  const EmptyMessage: Message :=
    Message(Header(0, 0, 0, 0, 0, 1, 0, 0, 0, 0, 0), [], [], [], [], [], None, None, None)

  /** The record shapes the codec has a reader and a writer for; every other
      type code, known to the type table or not, is Unhandled. */
  datatype Tag = A | NS | CNAME | SOA | PTR | MX | TXT | AAAA | SRV | NAPTR | OPT | SPF | Unhandled

  const OPT_CODE: int := 41

  /** The type table's code for each handled shape (the IANA type numbers). */
  function CodeOf(t: Tag): int
  {
    match t
    case A => 1
    case NS => 2
    case CNAME => 5
    case SOA => 6
    case PTR => 12
    case MX => 15
    case TXT => 16
    case AAAA => 28
    case SRV => 33
    case NAPTR => 35
    case OPT => OPT_CODE
    case SPF => 99
    case Unhandled => -1
  }

  /** The type table's name for a code, reduced to the shapes the codec handles. */
  function TagOf(code: int): (t: Tag)
    ensures t != Unhandled ==> CodeOf(t) == code
    ensures t == Unhandled ==> forall u: Tag :: u != Unhandled ==> CodeOf(u) != code
  {
    if code == 1 then A
    else if code == 2 then NS
    else if code == 5 then CNAME
    else if code == 6 then SOA
    else if code == 12 then PTR
    else if code == 15 then MX
    else if code == 16 then TXT
    else if code == 28 then AAAA
    else if code == 33 then SRV
    else if code == 35 then NAPTR
    else if code == OPT_CODE then OPT
    else if code == 99 then SPF
    else Unhandled
  }

  /** The packet object, which both directions update in place. */
  class Packet {
    var header: Header
    var question: seq<Question>
    var answer: seq<Rr>
    var authority: seq<Rr>
    var additional: seq<Rr>
    var ednsOptions: seq<EdnsOption>
    var payload: Option<int>
    var ednsVersion: Option<int>
    var dnssecOk: Option<int>

    function Value(): Message
      reads this
    {
      Message(header, question, answer, authority, additional, ednsOptions, payload,
              ednsVersion, dnssecOk)
    }

    constructor ()
      ensures Value() == EmptyMessage
    {
      header := EmptyMessage.header;
      question := [];
      answer := [];
      authority := [];
      additional := [];
      ednsOptions := [];
      payload := None;
      ednsVersion := None;
      dnssecOk := None;
    }

    /** packet[section].push(rr) */
    method Push(s: Section, rr: Rr)
      modifies this
      ensures Value() == old(Value()).WithRecords(s, old(Value()).Records(s) + [rr])
    {
      match s
      case Answer => answer := answer + [rr];
      case Authority => authority := authority + [rr];
      case Additional => additional := additional + [rr];
    }
  }
}
