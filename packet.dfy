/** Packet.write followed by Packet.parse for a whole message: the header,
    the question, the three record sections and the OPT record of the EDNS
    state, put together from the piecewise round trips of the other
    modules. */
module PacketRoundTrip {
  import opened Wrappers
  import opened Wire
  import opened Messages
  import opened Names
  import opened Headers
  import opened Encoding
  import opened Decoding
  import opened RoundTrip
  import opened RDataRoundTrip
  import opened RecordRoundTrip
  import opened EdnsRoundTrip

  // ---------------------------------------------------------------------
  // What a message must hold to come back.

  /** A record RESOURCE_RECORD gives back: every property present, an owner
      name that reads back, and RDATA readable for its type (which rules
      out OPT and the types with no state). */
  predicate RrReadable(rr: Rr)
  {
    rr.name.Some? && rr.rrtype.Some? && rr.rrclass.Some? && rr.ttl.Some? &&
    ReadableName(rr.name.value) && RDataReadable(TagOf(rr.rrtype.value), rr.rdata)
  }

  predicate AllReadable(rs: seq<Rr>)
  {
    forall k | 0 <= k < |rs| :: RrReadable(rs[k])
  }

  /** The message's names and RDATA read back and every section, the OPT
      record included, holds fewer than 2^16 records, so that its count
      field is its length. The question's type and class, the payload and
      the option widths are what a write that got through needs anyway. */
  predicate PacketReadable(m: Message)
  {
    m.question != [] && m.question[0].name.Some? && m.question[0].qtype.Some? &&
    m.question[0].qclass.Some? && ReadableName(m.question[0].name.value) &&
    AllReadable(m.answer) && AllReadable(m.authority) && AllReadable(m.additional) &&
    |m.answer| < TWO16 && |m.authority| < TWO16 && |PrepareEdns(m).additional| < TWO16 &&
    (m.ednsVersion.Some? ==> m.payload.Some? && OptionsFit(m.ednsOptions))
  }

  /** Packet.write wrote section s and every section after it in full, the
      octets before s being front. */
  predicate Through(front: seq<byte>, cap: int, m: Message, w: Work, s: Section)
    decreases Rank(s)
  {
    var run := SectionRun(|front|, cap, w, m.Records(s), 0);
    run.status == Going && (s != Additional ==> Through(front + run.bytes, cap, m, run.work, Next(s)))
  }

  /** Packet.write wrote the question and all three sections, the OPT
      record included, without running out of room or failing. */
  predicate WrittenThrough(m0: Message, cap: int)
  {
    var m := PrepareEdns(m0);
    var q := QuestionEmit(12, cap, m.question);
    cap >= 12 && q.status == Going && Through(HeaderBytes(m) + q.bytes, cap, m, Work(q.state, m.ednsOptions), Answer)
  }

  // ---------------------------------------------------------------------
  // What comes back.

  /** The records of rs from i on as RESOURCE_RECORD gives them back. */
  function ReturnedFrom(rs: seq<Rr>, i: nat): (r: seq<Rr>)
    requires i <= |rs| && forall k {:trigger rs[k]} | i <= k < |rs| :: RrReadable(rs[k])
    ensures |r| == |rs| - i
    decreases |rs| - i
  {
    if i == |rs| then [] else assert RrReadable(rs[i]); [Returned(rs[i])] + ReturnedFrom(rs, i + 1)
  }

  /** The six octets before the end of an OPT record's RDATA, ob being that
      RDATA and ttl the record's TTL: the last six of the TTL, the RDATA
      length and the RDATA. */
  function EdnsTail(ttl: int, ob: seq<byte>): (t: seq<byte>)
    requires 0 <= ttl < TWO32
    ensures |t| == 6
  {
    if |ob| >= 6 then ob[|ob| - 6..] else (U32(ttl) + U16(|ob|))[|ob|..] + ob
  }

  /** The OPT state of Packet.parse over the OPT record the EDNS state
      wrote for m0, with opts the option list it popped: the payload is the
      class, the extended rcode, the version and the flags come from
      EdnsTail, and the options are appended in reverse. */
  function EdnsRead(dm: Message, m0: Message, opts: seq<EdnsOption>): Message
    requires m0.payload.Some? && OptionsFit(opts)
  {
    var t := EdnsTail(EdnsTtl(m0.dnssecOk), OptionBytes(opts));
    dm.(payload := Some(Low(m0.payload.value, TWO16)),
        header := dm.header.(rcode := t[0] as int * 16 + dm.header.rcode),
        ednsVersion := Some(t[1] as int),
        dnssecOk := Some(DnssecOkOf(BeU16(t, 2))),
        ednsOptions := dm.ednsOptions + Reversed(opts))
  }

  /** The packet Packet.parse returns for what Packet.write wrote for m0:
      the id and the flags reduced to their widths, the first question
      with its type and class reduced, every record as Returned gives it,
      and, when the EDNS state ran, the OPT state's fields; without it, no
      EDNS field and no option. */
  function Decoded(m0: Message): Message
    requires PacketReadable(m0)
  {
    var q := m0.question[0];
    var base := EmptyMessage.(
      header := Masked(Low(m0.header.id, TWO16), m0.header),
      question := [Question(q.name, Some(Low(q.qtype.value, TWO16)), Some(Low(q.qclass.value, TWO16)))],
      answer := ReturnedFrom(m0.answer, 0),
      authority := ReturnedFrom(m0.authority, 0));
    if m0.ednsVersion.None? then base.(additional := ReturnedFrom(m0.additional, 0))
    else EdnsRead(base, m0, m0.ednsOptions).(additional := ReturnedFrom(m0.additional, 0))
  }


  // ---------------------------------------------------------------------
  // One section, record by record.

  /** Fields other than the option list leave the list alone. */
  lemma {:induction false} FieldsKeepOptions(at: int, cap: int, w: Work, fs: seq<Field>)
    requires forall k | 0 <= k < |fs| :: !fs[k].OptionList?
    ensures FieldsEmit(at, cap, w, fs).state.options == w.options
    decreases |fs|
  {
    if fs != [] {
      var e := FieldEmit(at, cap, w, fs[0]);
      FieldsKeepOptions(at + |e.bytes|, cap, e.state, fs[1..]);
    }
  }

  /** Every RDATA state but OPT leaves the option list alone. */
  lemma {:induction false} RDataKeepsOptions(at: int, cap: int, w: Work, tag: Tag, d: RData)
    requires tag != OPT
    ensures RDataEmit(at, cap, w, tag, d).state.options == w.options
  {
    if tag != Unhandled && RDataLayout(tag, d).Some? {
      FieldsKeepOptions(at, cap, w, RDataLayout(tag, d).value);
    }
  }

  lemma WithRecordsTwice(m: Message, s: Section, a: seq<Rr>, b: seq<Rr>)
    ensures m.WithRecords(s, a).WithRecords(s, b) == m.WithRecords(s, b)
  {
    match s {
      case Answer =>
      case Authority =>
      case Additional =>
    }
  }

  lemma WithRecordsSame(m: Message, s: Section)
    ensures m.WithRecords(s, m.Records(s)) == m
  {
    match s {
      case Answer =>
      case Authority =>
      case Additional =>
    }
  }

  /** The octets b, between front and back, sit right after front. */
  lemma AtParts(front: seq<byte>, b: seq<byte>, back: seq<byte>)
    ensures At(front + b + back, |front|, b)
  {
    var msg := front + b + back;
    assert msg[|front|..|front| + |b|] == b;
    AtSlice(msg, |front|, b);
  }

  /** When a + b sits at at, a sits there and b sits at p, after a. */
  lemma AtAfter(msg: seq<byte>, at: nat, a: seq<byte>, b: seq<byte>, p: nat)
    requires At(msg, at, a + b) && p == at + |a|
    ensures At(msg, at, a) && At(msg, p, b)
  {
    AtSplit(msg, at, a, b);
  }

  /** Readable records behind a first one are readable from index 1 on. */
  lemma ReadableTail(x: Rr, rs: seq<Rr>)
    requires AllReadable(rs)
    ensures forall k {:trigger ([x] + rs)[k]} | 1 <= k < |[x] + rs| :: RrReadable(([x] + rs)[k])
  {
    assert forall k | 1 <= k < |[x] + rs| :: ([x] + rs)[k] == rs[k - 1];
  }

  /** Where record i of rs ends and the work state its RDATA state leaves,
      when the record was written from at with the work state w. */
  predicate RecordEnds(at: int, cap: int, w: Work, rs: seq<Rr>, i: nat, p: int, w': Work)
    requires i < |rs| && rs[i].name.Some? && rs[i].rrtype.Some?
  {
    var rr := rs[i];
    var n := PackName(at, cap, w.index, rr.name.value);
    var r := RDataEmit(at + |n.bytes| + 10, cap, w.(index := n.state), TagOf(rr.rrtype.value), rr.rdata);
    p == at + |n.bytes| + 10 + |r.bytes| && w' == r.state
  }

  /** A readable record leaves the option list alone. */
  lemma RecordKeepsOptions(at: int, cap: int, w: Work, rs: seq<Rr>, i: nat, p: int, w': Work)
    requires i < |rs| && RrReadable(rs[i]) && RecordEnds(at, cap, w, rs, i, p, w')
    ensures w'.options == w.options
  {
    var rr := rs[i];
    var n := PackName(at, cap, w.index, rr.name.value);
    RDataKeepsOptions(at + |n.bytes| + 10, cap, w.(index := n.state), TagOf(rr.rrtype.value), rr.rdata);
  }

  /** Record i as the section walk writes it, when it completes it: its
      octets, head, are its name, its fixed part, the RDATA length and the
      RDATA, and the walk goes on at e with the work state w' the RDATA
      state leaves. */
  lemma {:induction false} RecordSplit(at: int, cap: int, w: Work, rs: seq<Rr>, i: nat)
    returns (head: seq<byte>, e: int, w': Work)
    requires i < |rs| && RecordRun(at, cap, w, rs, i).done >= 1
    ensures rs[i].name.Some? && rs[i].rrtype.Some? && rs[i].rrclass.Some? && rs[i].ttl.Some?
    ensures var rr := rs[i];
      var n := PackName(at, cap, w.index, rr.name.value);
      var r := RDataEmit(at + |n.bytes| + 10, cap, w.(index := n.state), TagOf(rr.rrtype.value), rr.rdata);
      n.status == Going && r.status == Going && |r.bytes| < TWO16 &&
      head == n.bytes + FixedBytes(rr.rrtype.value, rr.rrclass.value, rr.ttl.value) + U16(|r.bytes|) + r.bytes &&
      e == at + |n.bytes| + 10 + |r.bytes| && w' == r.state
    ensures RecordRun(at, cap, w, rs, i) == After(head, 1, SectionRun(e, cap, w', rs, i + 1))
  {
    RecordRunBytes(at, cap, w, rs, i);
    var rr := rs[i];
    var n := PackName(at, cap, w.index, rr.name.value);
    var r := RDataEmit(at + |n.bytes| + 10, cap, w.(index := n.state), TagOf(rr.rrtype.value), rr.rdata);
    head := n.bytes + FixedBytes(rr.rrtype.value, rr.rrclass.value, rr.ttl.value) + U16(|r.bytes|) + r.bytes;
    e, w' := at + |n.bytes| + 10 + |r.bytes|, r.state;
  }

  /** Record i of a section written in full: its octets, head, come
      first, then the walk from record i + 1 at p with the work state w'. */
  lemma {:induction false} RecordHead(at: int, cap: int, w: Work, rs: seq<Rr>, i: nat, p: int, w': Work)
    returns (head: seq<byte>)
    requires i < |rs| && RrReadable(rs[i]) && RecordEnds(at, cap, w, rs, i, p, w')
    requires SectionRun(at, cap, w, rs, i).status == Going
    ensures var run, rest := SectionRun(at, cap, w, rs, i), SectionRun(p, cap, w', rs, i + 1);
      run == RecordRun(at, cap, w, rs, i) && run.done >= 1 && rest.status == Going &&
      run.bytes == head + rest.bytes && at + |head| == p && |head| >= 10 && run.work == rest.work
  {
    assert SectionRun(at, cap, w, rs, i) == RecordRun(at, cap, w, rs, i);
    var e, w1;
    head, e, w1 := RecordSplit(at, cap, w, rs, i);
  }

  /** Record i of a section written in full, on the writer's side: the
      record's octets sit at at, and the walk from record i + 1 goes on at
      p with the work state w', the option list untouched. */
  lemma {:induction false} RecordWritten(msg: seq<byte>, at: nat, cap: int, w: Work, rs: seq<Rr>, i: nat,
                                         p: int, w': Work)
    requires i < |rs| && RrReadable(rs[i]) && RecordEnds(at, cap, w, rs, i, p, w')
    requires SectionRun(at, cap, w, rs, i).status == Going
    requires At(msg, at, SectionRun(at, cap, w, rs, i).bytes)
    ensures Returns(at, cap, w, rs, i) && At(msg, at, RecordRun(at, cap, w, rs, i).bytes)
    ensures var run, rest := SectionRun(at, cap, w, rs, i), SectionRun(p, cap, w', rs, i + 1);
      at < p && rest.status == Going && At(msg, p, rest.bytes) && at + |run.bytes| == p + |rest.bytes| &&
      run.work == rest.work && w'.options == w.options
  {
    var run, rest := SectionRun(at, cap, w, rs, i), SectionRun(p, cap, w', rs, i + 1);
    var head := RecordHead(at, cap, w, rs, i, p, w');
    AtAfter(msg, at, head, rest.bytes, p);
    RecordKeepsOptions(at, cap, w, rs, i, p, w');
  }

  /** RESOURCE_RECORD once more when section s is not yet full. */
  lemma SectionsFromStep(msg: seq<byte>, hops: nat, p: nat, m: Message, c: Counts, s: Section,
                         q: nat, m': Message, c': Counts)
    requires c.Of(s) != |m.Records(s)| && RecordAt(msg, hops, p, m, c, s) == Success(Stepped(m', c', q))
    ensures SectionsFrom(msg, hops, p, m, c, s) == SectionsFrom(msg, hops, q, m', c', s)
  {
  }

  /** Record i read back by RESOURCE_RECORD: it is appended to section s
      as Returned gives it, the counts stay, and the cursor moves to p,
      where the index of w' is sound. */
  lemma {:induction false} RecordAtStep(msg: seq<byte>, at: nat, cap: int, w: Work, rs: seq<Rr>, i: nat,
                                        p: int, w': Work, dm: Message, c: Counts, s: Section, hops: nat)
    requires Returns(at, cap, w, rs, i) && RecordEnds(at, cap, w, rs, i, p, w')
    requires At(msg, at, RecordRun(at, cap, w, rs, i).bytes)
    requires 0 < at && |msg| <= hops && Sound(msg, w.index, at)
    ensures 0 <= p
    ensures RecordAt(msg, hops, at, dm, c, s) ==
      Success(Stepped(dm.WithRecords(s, dm.Records(s) + [Returned(rs[i])]), c, p))
  {
    var rr := rs[i];
    var n := PackName(at, cap, w.index, rr.name.value);
    var r := RDataEmit(at + |n.bytes| + 10, cap, w.(index := n.state), TagOf(rr.rrtype.value), rr.rdata);
    assert p == at + |n.bytes| + 10 + |r.bytes|;
    RecordBack(msg, at, cap, w, rs, i, dm, c, s, hops);
    SteppedOf(RecordAt(msg, hops, at, dm, c, s), dm.WithRecords(s, dm.Records(s) + [Returned(rs[i])]), c, p);
  }

  /** A successful step is the one its three parts name. */
  lemma SteppedOf(st: Result<Stepped, DecodeError>, m: Message, c: Counts, p: int)
    requires st.Success? && st.value.m == m && st.value.counts == c && st.value.pos == p
    ensures 0 <= p && st == Success(Stepped(m, c, p))
  {
  }

  /** After record i the index of w' is sound up to p. */
  lemma {:induction false} RecordSoundStep(msg: seq<byte>, at: nat, cap: int, w: Work, rs: seq<Rr>, i: nat,
                                           p: int, w': Work, hops: nat)
    requires Returns(at, cap, w, rs, i) && RecordEnds(at, cap, w, rs, i, p, w')
    requires At(msg, at, RecordRun(at, cap, w, rs, i).bytes)
    requires 0 < at && |msg| <= hops && Sound(msg, w.index, at)
    ensures 0 <= p && Sound(msg, w'.index, p)
  {
    RecordBack(msg, at, cap, w, rs, i, EmptyMessage, Counts(0, 0, 0, 0), Answer, hops);
  }

  /** Record i read back by RESOURCE_RECORD while section s is short of
      its count: the walk goes on at p with record i appended to s. */
  lemma {:induction false} RecordReadStep(msg: seq<byte>, at: nat, cap: int, w: Work, rs: seq<Rr>, i: nat,
                                          p: int, w': Work, dm: Message, c: Counts, s: Section, hops: nat)
    requires Returns(at, cap, w, rs, i) && RecordEnds(at, cap, w, rs, i, p, w')
    requires At(msg, at, RecordRun(at, cap, w, rs, i).bytes)
    requires 0 < at && |msg| <= hops && Sound(msg, w.index, at)
    requires c.Of(s) != |dm.Records(s)|
    ensures 0 <= p
    ensures SectionsFrom(msg, hops, at, dm, c, s) ==
      SectionsFrom(msg, hops, p, dm.WithRecords(s, dm.Records(s) + [Returned(rs[i])]), c, s)
    ensures Sound(msg, w'.index, p)
  {
    RecordAtStep(msg, at, cap, w, rs, i, p, w', dm, c, s, hops);
    RecordSoundStep(msg, at, cap, w, rs, i, p, w', hops);
    SectionsFromStep(msg, hops, at, dm, c, s, p, dm.WithRecords(s, dm.Records(s) + [Returned(rs[i])]), c);
  }

  /** What the records from j on give back depends on those records only. */
  lemma {:induction false} ReturnedSame(xs: seq<Rr>, j: nat, ys: seq<Rr>, k: nat)
    requires j <= |xs| && forall n {:trigger xs[n]} | j <= n < |xs| :: RrReadable(xs[n])
    requires k <= |ys| && forall n {:trigger ys[n]} | k <= n < |ys| :: RrReadable(ys[n])
    requires xs[j..] == ys[k..]
    ensures ReturnedFrom(xs, j) == ReturnedFrom(ys, k)
    decreases |xs| - j
  {
    if j < |xs| {
      assert xs[j] == xs[j..][0] == ys[k..][0] == ys[k];
      assert xs[j + 1..] == xs[j..][1..] == ys[k..][1..] == ys[k + 1..];
      ReturnedSame(xs, j + 1, ys, k + 1);
    }
  }

  /** A record in front of rs does not change what rs gives back. */
  lemma ReturnedShift(x: Rr, rs: seq<Rr>, i: nat)
    requires i <= |rs| && forall k {:trigger rs[k]} | i <= k < |rs| :: RrReadable(rs[k])
    ensures ReturnedFrom([x] + rs, i + 1) == ReturnedFrom(rs, i)
  {
    var xs := [x] + rs;
    assert xs[i + 1..] == rs[i..];
    ReturnedSame(xs, i + 1, rs, i);
  }

  /** Appending record i and then the records after it is appending the
      records from i on. */
  lemma SectionGlue(dm: Message, s: Section, rs: seq<Rr>, i: nat)
    requires i < |rs| && RrReadable(rs[i]) && forall k {:trigger rs[k]} | i <= k < |rs| :: RrReadable(rs[k])
    ensures var dm1 := dm.WithRecords(s, dm.Records(s) + [Returned(rs[i])]);
      dm1.WithRecords(s, dm1.Records(s) + ReturnedFrom(rs, i + 1)) ==
        dm.WithRecords(s, dm.Records(s) + ReturnedFrom(rs, i))
  {
    assert RrReadable(rs[i]);
    var pre := dm.Records(s);
    assert pre + ReturnedFrom(rs, i) == pre + [Returned(rs[i])] + ReturnedFrom(rs, i + 1);
    WithRecordsTwice(dm, s, pre + [Returned(rs[i])], pre + ReturnedFrom(rs, i));
  }

  /** Record i, written in full by the section walk and read back by
      RESOURCE_RECORD while section s is short of its count: it is
      appended to s as Returned gives it, the counts stay, and both walks
      go on at p, the writer with the work state w', where the index is
      sound and the option list untouched. */
  lemma {:induction false} RecordOnce(msg: seq<byte>, at: nat, cap: int, w: Work, rs: seq<Rr>, i: nat,
                                      dm: Message, c: Counts, s: Section, hops: nat)
    returns (p: nat, w': Work)
    requires i < |rs| && RrReadable(rs[i])
    requires SectionRun(at, cap, w, rs, i).status == Going
    requires At(msg, at, SectionRun(at, cap, w, rs, i).bytes)
    requires 0 < at && |msg| <= hops && Sound(msg, w.index, at)
    requires c.Of(s) != |dm.Records(s)|
    ensures var run, rest := SectionRun(at, cap, w, rs, i), SectionRun(p, cap, w', rs, i + 1);
      0 < p && rest.status == Going && At(msg, p, rest.bytes) && at + |run.bytes| == p + |rest.bytes| &&
      run.work == rest.work && w'.options == w.options && Sound(msg, w'.index, p)
    ensures SectionsFrom(msg, hops, at, dm, c, s) ==
      SectionsFrom(msg, hops, p, dm.WithRecords(s, dm.Records(s) + [Returned(rs[i])]), c, s)
  {
    var rr := rs[i];
    var n := PackName(at, cap, w.index, rr.name.value);
    var r := RDataEmit(at + |n.bytes| + 10, cap, w.(index := n.state), TagOf(rr.rrtype.value), rr.rdata);
    p, w' := at + |n.bytes| + 10 + |r.bytes|, r.state;
    RecordWritten(msg, at, cap, w, rs, i, p, w');
    RecordReadStep(msg, at, cap, w, rs, i, p, w', dm, c, s, hops);
  }

  /** RESOURCE_RECORD over the records the section walk wrote from record
      i on, section s being as many records short of its count: each is
      appended to s as Returned gives it, the counts stay, and the cursor
      ends at e, after the last record's octets, with the packet de; the
      index is sound there and the option list is untouched. */
  lemma {:induction false} SectionBack(msg: seq<byte>, at: nat, cap: int, w: Work, rs: seq<Rr>, i: nat,
                                       dm: Message, c: Counts, s: Section, hops: nat, e: nat, de: Message)
    requires i <= |rs| && forall k {:trigger rs[k]} | i <= k < |rs| :: RrReadable(rs[k])
    requires SectionRun(at, cap, w, rs, i).status == Going
    requires At(msg, at, SectionRun(at, cap, w, rs, i).bytes)
    requires 0 < at && |msg| <= hops && Sound(msg, w.index, at)
    requires c.Of(s) == |dm.Records(s)| + (|rs| - i)
    requires e == at + |SectionRun(at, cap, w, rs, i).bytes|
    requires de == dm.WithRecords(s, dm.Records(s) + ReturnedFrom(rs, i))
    ensures SectionsFrom(msg, hops, at, dm, c, s) == SectionsFrom(msg, hops, e, de, c, s)
    ensures Sound(msg, SectionRun(at, cap, w, rs, i).work.index, e)
    ensures SectionRun(at, cap, w, rs, i).work.options == w.options
    decreases |rs| - i
  {
    if i == |rs| {
      assert SectionRun(at, cap, w, rs, i).bytes == [];
      assert dm.Records(s) + ReturnedFrom(rs, i) == dm.Records(s);
      WithRecordsSame(dm, s);
    } else {
      assert RrReadable(rs[i]);
      var p, w' := RecordOnce(msg, at, cap, w, rs, i, dm, c, s, hops);
      var dm1 := dm.WithRecords(s, dm.Records(s) + [Returned(rs[i])]);
      assert de == dm1.WithRecords(s, dm1.Records(s) + ReturnedFrom(rs, i + 1)) by {
        SectionGlue(dm, s, rs, i);
      }
      SectionBack(msg, p, cap, w', rs, i + 1, dm1, c, s, hops, e, de);
    }
  }

  // ---------------------------------------------------------------------
  // The OPT record at the head of the additional section.

  /** The octets of the OPT record the EDNS state writes for m0 with the
      option octets ob: the root name, type OPT, the payload as class, the
      EDNS TTL, the RDATA length and the options. */
  function OptOctets(m0: Message, ob: seq<byte>): (b: seq<byte>)
    requires m0.payload.Some? && |ob| < TWO16
    ensures |b| == 11 + |ob|
  {
    [0] + FixedBytes(OPT_CODE, m0.payload.value, EdnsTtl(m0.dnssecOk)) + U16(|ob|) + ob
  }

  /** What the OPT record's pieces are: the octets OptOctets of the whole
      option list of w, which fits its fields, and a work state with the
      same index and no option left. */
  lemma {:induction false} OptPieces(at: int, cap: int, w: Work, m0: Message, rr: Rr, head: seq<byte>, e: int,
                                     w': Work)
    requires rr == OptRecord(m0) && m0.payload.Some?
    requires var n := PackName(at, cap, w.index, rr.name.value);
      var r := RDataEmit(at + |n.bytes| + 10, cap, w.(index := n.state), TagOf(rr.rrtype.value), rr.rdata);
      n.status == Going && r.status == Going && |r.bytes| < TWO16 &&
      head == n.bytes + FixedBytes(rr.rrtype.value, rr.rrclass.value, rr.ttl.value) + U16(|r.bytes|) + r.bytes &&
      e == at + |n.bytes| + 10 + |r.bytes| && w' == r.state
    ensures OptionsFit(w.options) && |OptionBytes(w.options)| < TWO16
    ensures head == OptOctets(m0, OptionBytes(w.options)) && e == at + 11 + |OptionBytes(w.options)|
    ensures w' == Work(w.index, [])
  {
    RootName(at, cap, w.index);
    TagOfOpt();
    OptEmitted(at + 11, cap, w);
  }

  /** The root name is the single zero octet and records nothing. */
  lemma RootName(at: int, cap: int, idx: Index)
    requires PackName(at, cap, idx, "").status == Going
    ensures PackName(at, cap, idx, "").bytes == [0] && PackName(at, cap, idx, "").state == idx
  {
    assert Steps("") == [];
  }

  /** The OPT record's RDATA state, when it gets through, writes the whole
      option list of w as OptionBytes and leaves none. */
  lemma {:induction false} OptEmitted(at: int, cap: int, w: Work)
    requires RDataEmit(at, cap, w, OPT, NoData).status == Going
    ensures OptionsFit(w.options)
    ensures RDataEmit(at, cap, w, OPT, NoData).bytes == OptionBytes(w.options)
    ensures RDataEmit(at, cap, w, OPT, NoData).state == Work(w.index, [])
  {
    FieldsNext(at, cap, w, [OptionList], FieldEmit(at, cap, w, OptionList));
    OptionsWritten(at, cap, w.options);
    assert RDataEmit(at, cap, w, OPT, NoData).bytes == OptionsEmit(at, cap, w.options).bytes + [];
  }

  /** The six octets before the end of the OPT record's RDATA are EdnsTail. */
  lemma EdnsTailOf(ttl: int, ob: seq<byte>, k: nat)
    requires 0 <= ttl < TWO32 && |ob| < TWO16 && k < 6
    ensures (U32(ttl) + U16(|ob|) + ob)[|ob| + k] == EdnsTail(ttl, ob)[k]
  {
  }

  /** The six octets before the end of an OPT record's RDATA, at q + |ob|
      when the TTL sits at q, are EdnsTail. */
  lemma TailAt(msg: seq<byte>, q: nat, ttl: int, ob: seq<byte>)
    requires 0 <= ttl < TWO32 && |ob| < TWO16 && At(msg, q, U32(ttl) + U16(|ob|) + ob)
    ensures q + |ob| + 6 <= |msg|
    ensures forall k | 0 <= k < 6 :: msg[q + |ob| + k] == EdnsTail(ttl, ob)[k]
  {
    var tail := U32(ttl) + U16(|ob|) + ob;
    forall k | 0 <= k < 6
      ensures msg[q + |ob| + k] == EdnsTail(ttl, ob)[k]
    {
      AtIndex(msg, q, tail, |ob| + k);
      EdnsTailOf(ttl, ob, k);
    }
  }

  /** The EDNS fields read from a frame whose last six RDATA octets, or
      the octets before its end, are t. */
  lemma EdnsFieldsOf(msg: seq<byte>, dm: Message, f: Frame, t: seq<byte>)
    requires 6 <= f.start && f.start + f.len <= |msg| && |t| == 6
    requires forall k | 0 <= k < 6 :: msg[f.start + f.len - 6 + k] == t[k]
    ensures EdnsFields(msg, dm, f) ==
      dm.(payload := f.rr.rrclass,
          header := dm.header.(rcode := t[0] as int * 16 + dm.header.rcode),
          ednsVersion := Some(t[1] as int),
          dnssecOk := Some(DnssecOkOf(BeU16(t, 2))))
  {
    var pos := f.start + f.len;
    assert msg[pos - 6] == t[0] && msg[pos - 5] == t[1];
    assert msg[pos - 6 + 2] == t[2] && msg[pos - 6 + 3] == t[3];
  }

  /** parseRR over the OPT record's octets: the frame of the root name,
      type OPT, the payload as class and the EDNS TTL, its RDATA the
      option octets; the index stays sound after the root name. */
  lemma {:induction false} OptFrame(msg: seq<byte>, at: nat, m0: Message, ob: seq<byte>, idx: Index, hops: nat)
    returns (f: Frame)
    requires m0.payload.Some? && |ob| < TWO16
    requires At(msg, at, OptOctets(m0, ob))
    requires 0 < at && |msg| <= hops && Sound(msg, idx, at)
    ensures FrameAt(msg, at, hops) == Success(f) && Slice(msg, f) == ob
    ensures f.rr == Rr(Some(""), Some(OPT_CODE), Some(Low(m0.payload.value, TWO16)), Some(EdnsTtl(m0.dnssecOk)), NoData)
    ensures f.start == at + 11 && f.len == |ob|
    ensures Sound(msg, idx, at + 1)
  {
    var ttl := EdnsTtl(m0.dnssecOk);
    var fixed := [0] + FixedBytes(OPT_CODE, m0.payload.value, ttl) + U16(|ob|);
    f := Frame(Rr(Some(""), Some(OPT_CODE), Some(Low(m0.payload.value, TWO16)), Some(ttl), NoData), at + 11, |ob|);
    assert OptOctets(m0, ob) == fixed + ob;
    AtSplit(msg, at, fixed, ob);
    assert Steps("") == [];
    FrameBack(msg, at, at + 1, Work(idx, []), OptRecord(m0), |ob|, hops);
    AtSlice(msg, at + 11, ob);
  }

  /** The EDNS fields read from the OPT record's octets are those of
      EdnsRead. */
  lemma {:induction false} OptFields(msg: seq<byte>, at: nat, m0: Message, ob: seq<byte>, dm: Message, f: Frame)
    requires m0.payload.Some? && |ob| < TWO16
    requires At(msg, at, OptOctets(m0, ob))
    requires f.start == at + 11 && f.len == |ob| && f.rr.rrclass == Some(Low(m0.payload.value, TWO16))
    ensures 6 <= f.start && f.start + f.len <= |msg|
    ensures var t := EdnsTail(EdnsTtl(m0.dnssecOk), ob);
      EdnsFields(msg, dm, f) ==
        dm.(payload := Some(Low(m0.payload.value, TWO16)),
            header := dm.header.(rcode := t[0] as int * 16 + dm.header.rcode),
            ednsVersion := Some(t[1] as int),
            dnssecOk := Some(DnssecOkOf(BeU16(t, 2))))
  {
    var ttl := EdnsTtl(m0.dnssecOk);
    var cls := U16(Low(OPT_CODE, TWO16)) + U16(Low(m0.payload.value, TWO16));
    var tail := U32(ttl) + U16(|ob|) + ob;
    assert OptOctets(m0, ob) == ([0] + cls) + tail;
    AtSplit(msg, at, [0] + cls, tail);
    TailAt(msg, at + 5, ttl, ob);
    EdnsFieldsOf(msg, dm, f, EdnsTail(ttl, ob));
  }

  /** RESOURCE_RECORD over the OPT record's octets: the record is not
      kept, the additional count drops by one, the packet takes the fields
      EdnsRead gives, and the cursor ends after the options, where the
      index is still sound. */
  lemma {:induction false} OptAtStep(msg: seq<byte>, at: nat, m0: Message, opts: seq<EdnsOption>,
                                     dm: Message, c: Counts, idx: Index, hops: nat, e: nat, de: Message)
    requires m0.payload.Some? && OptionsFit(opts) && |OptionBytes(opts)| < TWO16
    requires At(msg, at, OptOctets(m0, OptionBytes(opts)))
    requires 0 < at && |msg| <= hops && Sound(msg, idx, at)
    requires e == at + 11 + |OptionBytes(opts)| && de == EdnsRead(dm, m0, opts)
    ensures RecordAt(msg, hops, at, dm, c, Additional) == Success(Stepped(de, c.Drop(Additional), e))
    ensures Sound(msg, idx, e)
  {
    var ob := OptionBytes(opts);
    var f := OptFrame(msg, at, m0, ob, idx, hops);
    assert OptAt(msg, dm, f) == Success(EdnsRead(dm, m0, opts)) by {
      OptFields(msg, at, m0, ob, dm, f);
      OptionsReadBack(opts);
      OptAtOf(msg, dm, f, m0, opts);
    }
    assert Sound(msg, idx, at + 11 + |ob|) by {
      SoundGrow(msg, idx, at + 1, at + 11 + |ob|);
    }
    TagOfOpt();
    RecordAtOpt(msg, hops, at, dm, c, Additional, f, de, e);
  }

  /** The OPT state over a frame whose EDNS fields and options are those
      EdnsRead takes. */
  lemma OptAtOf(msg: seq<byte>, dm: Message, f: Frame, m0: Message, opts: seq<EdnsOption>)
    requires m0.payload.Some? && OptionsFit(opts)
    requires 6 <= f.start && f.start + f.len <= |msg|
    requires var t := EdnsTail(EdnsTtl(m0.dnssecOk), OptionBytes(opts));
      EdnsFields(msg, dm, f) ==
        dm.(payload := Some(Low(m0.payload.value, TWO16)),
            header := dm.header.(rcode := t[0] as int * 16 + dm.header.rcode),
            ednsVersion := Some(t[1] as int),
            dnssecOk := Some(DnssecOkOf(BeU16(t, 2))))
    requires OptionsAt(Slice(msg, f), 0) == Success(Reversed(opts))
    ensures OptAt(msg, dm, f) == Success(EdnsRead(dm, m0, opts))
  {
  }

  /** RESOURCE_RECORD over an OPT frame: the OPT state's packet, the count
      of s one lower, and the cursor after the RDATA. */
  lemma RecordAtOpt(msg: seq<byte>, hops: nat, p: nat, m: Message, c: Counts, s: Section, f: Frame, m': Message,
                    q: nat)
    requires FrameAt(msg, p, hops) == Success(f) && TagOf(f.rr.rrtype.value) == OPT
    requires OptAt(msg, m, f) == Success(m') && q == f.start + f.len
    ensures RecordAt(msg, hops, p, m, c, s) == Success(Stepped(m', c.Drop(s), q))
  {
  }

  lemma TagOfOpt()
    ensures TagOf(OPT_CODE) == OPT
  {
  }

  // ---------------------------------------------------------------------
  // Whole sections.

  /** The OPT record at the head of the additional section, written by
      the section walk and read back by RESOURCE_RECORD: the packet takes
      EdnsRead's fields and the options of w, the additional count drops
      by one, and both walks go on at e1 with record 1, the writer with no
      option left. */
  lemma {:induction false} EdnsHead(msg: seq<byte>, at: nat, cap: int, w: Work, m0: Message, rs: seq<Rr>,
                                    dm: Message, c: Counts, hops: nat)
    returns (e1: nat, w1: Work)
    requires rs != [] && rs[0] == OptRecord(m0)
    requires SectionRun(at, cap, w, rs, 0).status == Going
    requires At(msg, at, SectionRun(at, cap, w, rs, 0).bytes)
    requires 0 < at && |msg| <= hops && Sound(msg, w.index, at)
    requires c.ar != |dm.additional|
    ensures m0.payload.Some? && OptionsFit(w.options) && w1 == Work(w.index, [])
    ensures var run, rest := SectionRun(at, cap, w, rs, 0), SectionRun(e1, cap, w1, rs, 1);
      0 < e1 && rest.status == Going && At(msg, e1, rest.bytes) && Sound(msg, w.index, e1) &&
      e1 + |rest.bytes| == at + |run.bytes| && rest.work == run.work
    ensures SectionsFrom(msg, hops, at, dm, c, Additional) ==
      SectionsFrom(msg, hops, e1, EdnsRead(dm, m0, w.options), c.Drop(Additional), Additional)
  {
    var e;
    e, w1 := OptWritten(msg, at, cap, w, m0, rs);
    var dm1 := EdnsRead(dm, m0, w.options);
    OptAtStep(msg, at, m0, w.options, dm, c, w.index, hops, e, dm1);
    SectionsFromStep(msg, hops, at, dm, c, Additional, e, dm1, c.Drop(Additional));
    e1 := e;
  }

  /** The OPT record at the head of rs, written in full at at: its octets
      are OptOctets of the option list of w, and the walk goes on at e with
      no option left. */
  lemma {:induction false} OptWritten(msg: seq<byte>, at: nat, cap: int, w: Work, m0: Message, rs: seq<Rr>)
    returns (e: int, w1: Work)
    requires rs != [] && rs[0] == OptRecord(m0)
    requires SectionRun(at, cap, w, rs, 0).status == Going
    requires At(msg, at, SectionRun(at, cap, w, rs, 0).bytes)
    ensures m0.payload.Some? && OptionsFit(w.options) && |OptionBytes(w.options)| < TWO16
    ensures e == at + 11 + |OptionBytes(w.options)| && w1 == Work(w.index, [])
    ensures At(msg, at, OptOctets(m0, OptionBytes(w.options)))
    ensures var run, rest := SectionRun(at, cap, w, rs, 0), SectionRun(e, cap, w1, rs, 1);
      rest.status == Going && At(msg, e, rest.bytes) && at + |run.bytes| == e + |rest.bytes| &&
      run.work == rest.work
  {
    assert SectionRun(at, cap, w, rs, 0) == RecordRun(at, cap, w, rs, 0);
    var head;
    head, e, w1 := RecordSplit(at, cap, w, rs, 0);
    OptPieces(at, cap, w, m0, rs[0], head, e, w1);
    var rest := SectionRun(e, cap, w1, rs, 1);
    RunParts(RecordRun(at, cap, w, rs, 0), head, 1, rest);
    AtAfter(msg, at, head, rest.bytes, e);
  }

  /** The parts of a run that goes on after the octets b. */
  lemma RunParts(run: Run, b: seq<byte>, k: nat, rest: Run)
    requires run == After(b, k, rest)
    ensures run.status == rest.status && run.bytes == b + rest.bytes && |run.bytes| == |b| + |rest.bytes| &&
      run.work == rest.work
  {
  }

  /** RESOURCE_RECORD over the additional section Packet.write wrote with
      the OPT record first: the OPT state takes EdnsRead's fields and the
      options of w, and every other record is appended as Returned gives
      it. */
  lemma {:induction false} EdnsSection(msg: seq<byte>, at: nat, cap: int, w: Work, m0: Message, rs: seq<Rr>,
                                       dm: Message, c: Counts, hops: nat, de: Message)
    requires rs == [OptRecord(m0)] + m0.additional && AllReadable(m0.additional)
    requires m0.payload.Some? && OptionsFit(w.options)
    requires SectionRun(at, cap, w, rs, 0).status == Going
    requires At(msg, at, SectionRun(at, cap, w, rs, 0).bytes)
    requires 0 < at && |msg| <= hops && Sound(msg, w.index, at)
    requires dm.additional == [] && c.ar == |rs|
    requires de == EdnsRead(dm, m0, w.options).(additional := ReturnedFrom(m0.additional, 0))
    ensures SectionsFrom(msg, hops, at, dm, c, Additional) == Success(de)
  {
    var e1, w1 := EdnsHead(msg, at, cap, w, m0, rs, dm, c, hops);
    var dm1 := EdnsRead(dm, m0, w.options);
    var c1 := c.Drop(Additional);
    var e := at + |SectionRun(at, cap, w, rs, 0).bytes|;
    ReadableTail(OptRecord(m0), m0.additional);
    assert de == dm1.WithRecords(Additional, dm1.Records(Additional) + ReturnedFrom(rs, 1)) by {
      ReturnedShift(OptRecord(m0), m0.additional, 0);
      assert dm1.additional == [];
      assert [] + ReturnedFrom(rs, 1) == ReturnedFrom(m0.additional, 0);
    }
    SectionBack(msg, e1, cap, w1, rs, 1, dm1, c1, Additional, hops, e, de);
    SectionDone(msg, hops, e, de, c1, Additional);
  }

  /** RESOURCE_RECORD at the end of section s: the next section, or the
      END state after the additional section. */
  lemma SectionDone(msg: seq<byte>, hops: nat, p: nat, m: Message, c: Counts, s: Section)
    requires c.Of(s) == |m.Records(s)|
    ensures SectionsFrom(msg, hops, p, m, c, s) ==
      if s == Additional then Success(m) else SectionsFrom(msg, hops, p, m, c, Next(s))
  {
  }

  /** RESOURCE_RECORD over a section Packet.write wrote without an OPT
      record, its count being its length: every record is appended as
      Returned gives it, and the walk goes on to the next section, or ends
      after the additional one. */
  lemma {:induction false} PlainSection(msg: seq<byte>, at: nat, cap: int, w: Work, rs: seq<Rr>,
                                        dm: Message, c: Counts, s: Section, hops: nat, e: nat, de: Message)
    requires AllReadable(rs)
    requires SectionRun(at, cap, w, rs, 0).status == Going
    requires At(msg, at, SectionRun(at, cap, w, rs, 0).bytes)
    requires 0 < at && |msg| <= hops && Sound(msg, w.index, at)
    requires dm.Records(s) == [] && c.Of(s) == |rs|
    requires e == at + |SectionRun(at, cap, w, rs, 0).bytes| && de == dm.WithRecords(s, ReturnedFrom(rs, 0))
    ensures SectionsFrom(msg, hops, at, dm, c, s) ==
      if s == Additional then Success(de) else SectionsFrom(msg, hops, e, de, c, Next(s))
    ensures Sound(msg, SectionRun(at, cap, w, rs, 0).work.index, e)
    ensures SectionRun(at, cap, w, rs, 0).work.options == w.options
  {
    assert dm.Records(s) + ReturnedFrom(rs, 0) == ReturnedFrom(rs, 0);
    SectionBack(msg, at, cap, w, rs, 0, dm, c, s, hops, e, de);
    SectionDone(msg, hops, e, de, c, s);
  }

  /** The section walk of Packet.write, having written section s and
      every later one, gives back an offset that is its length, and its
      octets start with front and section s. */
  lemma {:induction false} SectionsGoing(front: seq<byte>, cap: int, m: Message, w: Work, s: Section)
    requires |front| >= 12 && Through(front, cap, m, w, s)
    ensures var run, r := SectionRun(|front|, cap, w, m.Records(s), 0), Sections(front, cap, m, w, s);
      r.result == Success(|r.bytes|) && |front| + |run.bytes| <= |r.bytes| &&
      r.bytes[..|front| + |run.bytes|] == front + run.bytes
    decreases Rank(s)
  {
    var run := SectionRun(|front|, cap, w, m.Records(s), 0);
    if s != Additional {
      var next := front + run.bytes;
      SectionsGoing(next, cap, m, run.work, Next(s));
      var r := Sections(next, cap, m, run.work, Next(s));
      assert Sections(front, cap, m, w, s) == r;
      assert r.bytes[..|next|] == r.bytes[..|next| + |SectionRun(|next|, cap, run.work, m.Records(Next(s)), 0).bytes|][..|next|];
    }
  }

  /** A prefix front + b of msg puts b at |front|. */
  lemma AtPrefix(msg: seq<byte>, front: seq<byte>, b: seq<byte>)
    requires |front| + |b| <= |msg| && msg[..|front| + |b|] == front + b
    ensures At(msg, |front|, b)
  {
    assert msg[|front|..|front| + |b|] == (front + b)[|front|..];
    AtSlice(msg, |front|, b);
  }

  /** The packet RESOURCE_RECORD builds from dm over section s and the
      later ones Packet.write wrote for m0. */
  function Filled(dm: Message, m0: Message, s: Section): Message
    requires PacketReadable(m0)
    decreases Rank(s)
  {
    match s
    case Answer => Filled(dm.(answer := ReturnedFrom(m0.answer, 0)), m0, Authority)
    case Authority => Filled(dm.(authority := ReturnedFrom(m0.authority, 0)), m0, Additional)
    case Additional =>
      if m0.ednsVersion.None? then dm.(additional := ReturnedFrom(m0.additional, 0))
      else EdnsRead(dm, m0, m0.ednsOptions).(additional := ReturnedFrom(m0.additional, 0))
  }

  /** RESOURCE_RECORD over the additional section the section walk of
      Packet.write wrote last, its count being its length: it is filled
      as Filled says and the walk ends. */
  lemma {:induction false} LastSectionBack(msg: seq<byte>, front: seq<byte>, cap: int, m0: Message, w: Work,
                                           hops: nat, dm: Message, c: Counts)
    requires PacketReadable(m0)
    requires |front| >= 12 && Through(front, cap, PrepareEdns(m0), w, Additional)
    requires msg == Sections(front, cap, PrepareEdns(m0), w, Additional).bytes
    requires |msg| <= hops && Sound(msg, w.index, |front|) && w.options == m0.ednsOptions
    requires dm.additional == [] && c.ar == |PrepareEdns(m0).additional|
    ensures SectionsFrom(msg, hops, |front|, dm, c, Additional) == Success(Filled(dm, m0, Additional))
  {
    var rs := PrepareEdns(m0).additional;
    var run := SectionRun(|front|, cap, w, rs, 0);
    SectionsGoing(front, cap, PrepareEdns(m0), w, Additional);
    AtPrefix(msg, front, run.bytes);
    if m0.ednsVersion.Some? {
      EdnsSection(msg, |front|, cap, w, m0, rs, dm, c, hops, Filled(dm, m0, Additional));
    } else {
      PlainSection(msg, |front|, cap, w, rs, dm, c, Additional, hops, |front| + |run.bytes|, Filled(dm, m0, Additional));
    }
  }

  /** RESOURCE_RECORD over the answer or authority section the section
      walk of Packet.write wrote, its count being its length: the section
      is filled, and both walks go on to the next section, the reader with
      the packet de, the writer after front' with the work state w'. */
  lemma {:induction false} SectionStep(msg: seq<byte>, front: seq<byte>, cap: int, m0: Message, w: Work,
                                       s: Section, hops: nat, dm: Message, c: Counts)
    returns (front': seq<byte>, w': Work, de: Message)
    requires PacketReadable(m0) && s != Additional
    requires |front| >= 12 && Through(front, cap, PrepareEdns(m0), w, s)
    requires msg == Sections(front, cap, PrepareEdns(m0), w, s).bytes
    requires |msg| <= hops && Sound(msg, w.index, |front|) && w.options == m0.ednsOptions
    requires forall t | Rank(t) <= Rank(s) :: dm.Records(t) == [] && c.Of(t) == |PrepareEdns(m0).Records(t)|
    ensures |front'| >= 12 && Through(front', cap, PrepareEdns(m0), w', Next(s))
    ensures msg == Sections(front', cap, PrepareEdns(m0), w', Next(s)).bytes
    ensures Sound(msg, w'.index, |front'|) && w'.options == m0.ednsOptions
    ensures forall t | Rank(t) <= Rank(Next(s)) :: de.Records(t) == [] && c.Of(t) == |PrepareEdns(m0).Records(t)|
    ensures SectionsFrom(msg, hops, |front|, dm, c, s) == SectionsFrom(msg, hops, |front'|, de, c, Next(s))
    ensures Filled(de, m0, Next(s)) == Filled(dm, m0, s)
  {
    var m := PrepareEdns(m0);
    var rs := m.Records(s);
    var run := SectionRun(|front|, cap, w, rs, 0);
    SectionsGoing(front, cap, m, w, s);
    AtPrefix(msg, front, run.bytes);
    front', w', de := front + run.bytes, run.work, dm.WithRecords(s, ReturnedFrom(rs, 0));
    PlainSection(msg, |front|, cap, w, rs, dm, c, s, hops, |front'|, de);
    assert Sections(front, cap, m, w, s) == Sections(front', cap, m, w', Next(s));
  }

  /** RESOURCE_RECORD from section s on, over what the section walk of
      Packet.write wrote from s on, each section's count being its
      length: every section is filled as Filled says. */
  lemma {:induction false} SectionsBack(msg: seq<byte>, front: seq<byte>, cap: int, m0: Message, w: Work,
                                        s: Section, hops: nat, dm: Message, c: Counts)
    requires PacketReadable(m0)
    requires |front| >= 12 && Through(front, cap, PrepareEdns(m0), w, s)
    requires msg == Sections(front, cap, PrepareEdns(m0), w, s).bytes
    requires |msg| <= hops && Sound(msg, w.index, |front|) && w.options == m0.ednsOptions
    requires forall t | Rank(t) <= Rank(s) :: dm.Records(t) == [] && c.Of(t) == |PrepareEdns(m0).Records(t)|
    ensures SectionsFrom(msg, hops, |front|, dm, c, s) == Success(Filled(dm, m0, s))
    decreases Rank(s)
  {
    if s == Additional {
      LastSectionBack(msg, front, cap, m0, w, hops, dm, c);
    } else {
      var front', w', de := SectionStep(msg, front, cap, m0, w, s, hops, dm, c);
      SectionsBack(msg, front', cap, m0, w', Next(s), hops, de, c);
    }
  }

  // ---------------------------------------------------------------------
  // The whole message.

  /** The header and the question Packet.write wrote in front of the
      sections read back: parseHeader gives the id and flags reduced and
      each section's length as its count, parseQuestion the question
      reduced, and the index is sound after it. */
  lemma {:induction false} FrontBack(msg: seq<byte>, m0: Message, cap: int, hops: nat)
    requires PacketReadable(m0) && WrittenThrough(m0, cap)
    requires var m := PrepareEdns(m0); var front := HeaderBytes(m) + QuestionEmit(12, cap, m.question).bytes;
      |front| <= |msg| <= hops && msg[..|front|] == front
    ensures var m, q := PrepareEdns(m0), QuestionEmit(12, cap, PrepareEdns(m0).question);
      HeaderAt(msg).Success? &&
      HeaderAt(msg).value.header == Masked(Low(m0.header.id, TWO16), m0.header) &&
      HeaderAt(msg).value.counts == Counts(1, |m.answer|, |m.authority|, |m.additional|) &&
      QuestionAt(msg, 12, hops).Success? &&
      QuestionAt(msg, 12, hops).value.0 == Decoded(m0).question[0] &&
      QuestionAt(msg, 12, hops).value.1 == 12 + |q.bytes| &&
      Sound(msg, q.state, 12 + |q.bytes|)
  {
    var m := PrepareEdns(m0);
    var q := QuestionEmit(12, cap, m.question);
    var front := HeaderBytes(m) + q.bytes;
    assert msg[..12] == HeaderBytes(m) by {
      assert msg[..12] == msg[..|front|][..12];
    }
    AtPrefix(msg, [], HeaderBytes(m));
    AtPrefix(msg, HeaderBytes(m), q.bytes);
    HeaderRoundTrip(msg, m);
    QuestionRoundTrip(msg, cap, m.question, hops);
  }

  /** Packet.write followed by Packet.parse: a message whose names and
      RDATA read back, written through every section, comes back as
      Decoded says, the write returning the length of its octets. */
  lemma {:induction false} PacketBack(m0: Message, cap: int, hops: nat)
    requires Fits(m0, cap) && PacketReadable(m0) && WrittenThrough(m0, cap)
    requires |Encode(m0, cap).bytes| <= hops
    ensures Encode(m0, cap).result == Success(|Encode(m0, cap).bytes|)
    ensures Decode(Encode(m0, cap).bytes, hops) == Success(Decoded(m0))
  {
    var m := PrepareEdns(m0);
    var q := QuestionEmit(12, cap, m.question);
    var front := HeaderBytes(m) + q.bytes;
    var w := Work(q.state, m.ednsOptions);
    var msg := Encode(m0, cap).bytes;
    assert Encode(m0, cap) == Sections(front, cap, m, w, Answer);
    SectionsGoing(front, cap, m, w, Answer);
    assert msg[..|front|] == front by {
      var run := SectionRun(|front|, cap, w, m.answer, 0);
      assert msg[..|front|] == msg[..|front| + |run.bytes|][..|front|];
    }
    FrontBack(msg, m0, cap, hops);
    var top := HeaderAt(msg).value;
    var qq := QuestionAt(msg, 12, hops).value.0;
    var dm := EmptyMessage.(header := top.header, question := [qq]);
    DecodeOf(msg, hops, top, qq, |front|);
    assert forall t | Rank(t) <= Rank(Answer) :: dm.Records(t) == [] && top.counts.Of(t) == |m.Records(t)| by {
      StartCounts(dm, top.counts, m);
    }
    SectionsBack(msg, front, cap, m0, w, Answer, hops, dm, top.counts);
    FilledDecoded(m0, dm);
  }

  /** Packet.parse past the header and the question. */
  lemma DecodeOf(msg: seq<byte>, hops: nat, top: Top, q: Question, p: nat)
    requires HeaderAt(msg) == Success(top) && QuestionAt(msg, 12, hops) == Success((q, p))
    ensures Decode(msg, hops) ==
      SectionsFrom(msg, hops, p, EmptyMessage.(header := top.header, question := [q]), top.counts, Answer)
  {
  }

  /** A packet with no records yet and counts the section lengths of m. */
  lemma StartCounts(dm: Message, c: Counts, m: Message)
    requires dm.answer == [] && dm.authority == [] && dm.additional == []
    requires c == Counts(1, |m.answer|, |m.authority|, |m.additional|)
    ensures forall t :: dm.Records(t) == [] && c.Of(t) == |m.Records(t)|
  {
    forall t
      ensures dm.Records(t) == [] && c.Of(t) == |m.Records(t)|
    {
      match t
      case Answer =>
      case Authority =>
      case Additional =>
    }
  }

  /** The sections filled into the packet of the header and the question
      make Decoded. */
  lemma FilledDecoded(m0: Message, dm: Message)
    requires PacketReadable(m0)
    requires dm == EmptyMessage.(header := Masked(Low(m0.header.id, TWO16), m0.header),
                                 question := [Decoded(m0).question[0]])
    ensures Filled(dm, m0, Answer) == Decoded(m0)
  {
  }

  /** The EDNS state's fields with no option, after Packet.write and
      Packet.parse: the payload comes back reduced to 16 bits, the
      extended rcode and the version are lost (the TTL keeps only the DO
      bit), so the version reads 0 and the rcode its low four bits, and
      the DO bit comes back as bit 30 of `do`. */
  lemma {:induction false} PacketEdnsBack(m0: Message, cap: int, hops: nat)
    requires Fits(m0, cap) && PacketReadable(m0) && WrittenThrough(m0, cap)
    requires |Encode(m0, cap).bytes| <= hops
    requires m0.ednsVersion.Some? && m0.ednsOptions == []
    ensures var d := Decode(Encode(m0, cap).bytes, hops);
      d.Success? && m0.payload.Some? && d.value.payload == Some(Low(m0.payload.value, TWO16)) &&
      d.value.ednsVersion == Some(0) && d.value.header.rcode == Low(m0.header.rcode, 16) &&
      d.value.dnssecOk == Some(Low(m0.dnssecOk.GetOr(0), 2) * 0x4000_0000) && d.value.ednsOptions == []
  {
    PacketBack(m0, cap, hops);
    DecodedEdns(m0);
  }

  /** Decoded for a message with the EDNS state and no option. */
  lemma DecodedEdns(m0: Message)
    requires PacketReadable(m0) && m0.ednsVersion.Some? && m0.ednsOptions == []
    ensures var d := Decoded(m0);
      m0.payload.Some? && d.payload == Some(Low(m0.payload.value, TWO16)) &&
      d.ednsVersion == Some(0) && d.header.rcode == Low(m0.header.rcode, 16) &&
      d.dnssecOk == Some(Low(m0.dnssecOk.GetOr(0), 2) * 0x4000_0000) && d.ednsOptions == []
  {
    var ttl := EdnsTtl(m0.dnssecOk);
    assert OptionBytes([]) == [];
    var t := EdnsTail(ttl, []);
    assert t == U32(ttl) + U16(0);
    assert t[0] == 0 && t[1] == 0 && BeU16(t, 2) == ttl;
    DoBitBack(m0.dnssecOk);
  }

  /** The DO bit the EDNS state puts in the TTL comes back as bit 30. */
  lemma DoBitBack(dnssecOk: Option<int>)
    ensures DnssecOkOf(EdnsTtl(dnssecOk)) == Low(dnssecOk.GetOr(0), 2) * 0x4000_0000
  {
    if Low(dnssecOk.GetOr(0), 2) == 0 {
      assert EdnsTtl(dnssecOk) == 0;
    } else {
      assert EdnsTtl(dnssecOk) == 0x8000;
    }
  }
}
