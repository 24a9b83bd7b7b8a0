/** What the decoder's walk over the three record sections guarantees:
    each section holds at most as many records as its count field says,
    exactly that many unless an OPT record was met, and never an OPT
    record itself. */
module SectionWalk {
  import opened Wrappers
  import opened Wire
  import opened Messages
  import opened Names
  import opened Headers
  import opened Decoding

  /** No record kept in any section has the OPT type. */
  predicate NoOpt(m: Message)
  {
    forall u: Section, i: nat {:trigger m.Records(u)[i]} ::
      i < |m.Records(u)| ==> m.Records(u)[i].rrtype.Some? && TagOf(m.Records(u)[i].rrtype.value) != OPT
  }

  /** The walk in section s, with c0 the counts and h0 the header that
      parseHeader read: no count is negative, the sections before s are
      complete, s has no more records than its (possibly lowered) count,
      the sections after s are untouched, the counts and the header change
      only once an OPT record set the EDNS version, and no OPT record was
      kept. */
  predicate Walking(m: Message, c: Counts, s: Section, c0: Counts, h0: Header)
  {
    (forall u :: 0 <= c0.Of(u)) &&
    (forall u :: Rank(u) > Rank(s) ==> |m.Records(u)| == c.Of(u) <= c0.Of(u)) &&
    |m.Records(s)| <= c.Of(s) <= c0.Of(s) &&
    (forall u :: Rank(u) < Rank(s) ==> m.Records(u) == [] && c.Of(u) == c0.Of(u)) &&
    (m.ednsVersion.None? ==> c == c0 && m.header == h0) &&
    NoOpt(m)
  }

  /** One record read in section s keeps the walk's invariant and the
      question. */
  lemma {:induction false} RecordKeepsWalking(msg: seq<byte>, hops: nat, p: nat, m: Message, c: Counts,
                                              s: Section, c0: Counts, h0: Header)
    requires Walking(m, c, s, c0, h0) && c.Of(s) != |m.Records(s)|
    requires RecordAt(msg, hops, p, m, c, s).Success?
    ensures var st := RecordAt(msg, hops, p, m, c, s).value;
      Walking(st.m, st.counts, s, c0, h0) && st.m.question == m.question
  {
    var f := FrameAt(msg, p, hops).value;
    var tag := TagOf(f.rr.rrtype.value);
    var st := RecordAt(msg, hops, p, m, c, s).value;
    if tag == OPT {
      var opts := OptionsAt(Slice(msg, f), 0).value;
      assert st.m == EdnsFields(msg, m, f).(ednsOptions := m.ednsOptions + opts) && st.counts == c.Drop(s);
      OptKeepsWalking(m, st.m, c, s, c0, h0);
    } else {
      var d := RDataAt(msg, f, tag, hops).value;
      assert st.m == m.WithRecords(s, m.Records(s) + [f.rr.(rdata := d)]) && st.counts == c;
      KeptKeepsWalking(m, c, s, c0, h0, f.rr.(rdata := d));
    }
  }

  /** An OPT record read in section s: the records stay, the section's
      count drops by one and the EDNS fields are set. */
  lemma {:induction false} OptKeepsWalking(m: Message, m': Message, c: Counts, s: Section, c0: Counts, h0: Header)
    requires Walking(m, c, s, c0, h0) && c.Of(s) != |m.Records(s)|
    requires m'.question == m.question && m'.ednsVersion.Some?
    requires m' == m.(header := m'.header, ednsOptions := m'.ednsOptions, payload := m'.payload,
                      ednsVersion := m'.ednsVersion, dnssecOk := m'.dnssecOk)
    ensures Walking(m', c.Drop(s), s, c0, h0)
  {
    assert forall u :: m'.Records(u) == m.Records(u);
  }

  /** A record other than OPT read in section s is appended to it. */
  lemma {:induction false} KeptKeepsWalking(m: Message, c: Counts, s: Section, c0: Counts, h0: Header, rr: Rr)
    requires Walking(m, c, s, c0, h0) && c.Of(s) != |m.Records(s)|
    requires rr.rrtype.Some? && TagOf(rr.rrtype.value) != OPT
    ensures Walking(m.WithRecords(s, m.Records(s) + [rr]), c, s, c0, h0)
  {
    var m' := m.WithRecords(s, m.Records(s) + [rr]);
    forall u: Section, i: nat | i < |m'.Records(u)|
      ensures m'.Records(u)[i].rrtype.Some? && TagOf(m'.Records(u)[i].rrtype.value) != OPT
    {
      if u == s && i == |m.Records(s)| {
        assert m'.Records(u)[i] == rr;
      } else {
        assert m'.Records(u)[i] == m.Records(u)[i];
      }
    }
  }

  /** The walk from section s on ends with every section within its
      declared count, every count met and the header unchanged when no OPT
      record was met, no OPT record kept, and the question untouched. */
  lemma {:induction false} WalkEnds(msg: seq<byte>, hops: nat, p: nat, m: Message, c: Counts,
                                    s: Section, c0: Counts, h0: Header)
    requires Walking(m, c, s, c0, h0)
    requires SectionsFrom(msg, hops, p, m, c, s).Success?
    ensures var r := SectionsFrom(msg, hops, p, m, c, s).value;
      r.question == m.question && NoOpt(r) &&
      (forall u :: |r.Records(u)| <= c0.Of(u)) &&
      (r.ednsVersion.None? ==> r.header == h0 && forall u :: |r.Records(u)| == c0.Of(u))
    decreases Rank(s), |msg| - p
  {
    if c.Of(s) == |m.Records(s)| {
      if s != Additional {
        WalkEnds(msg, hops, p, m, c, Next(s), c0, h0);
      }
    } else {
      RecordKeepsWalking(msg, hops, p, m, c, s, c0, h0);
      var st := RecordAt(msg, hops, p, m, c, s).value;
      WalkEnds(msg, hops, st.pos, st.m, st.counts, s, c0, h0);
    }
  }

  /** Packet.parse: one question whatever the question count says, each
      section with at most the records its count declares and exactly that
      many when the message carries no OPT record, no OPT record among
      them, and the header as read unless an OPT record extended its
      rcode. */
  lemma {:induction false} DecodeSections(msg: seq<byte>, hops: nat)
    requires Decode(msg, hops).Success?
    ensures var r, top := Decode(msg, hops).value, HeaderAt(msg).value;
      |r.question| == 1 && NoOpt(r) &&
      (forall u :: |r.Records(u)| <= top.counts.Of(u)) &&
      (r.ednsVersion.None? ==> r.header == top.header && forall u :: |r.Records(u)| == top.counts.Of(u))
  {
    var top := HeaderAt(msg).value;
    var q := QuestionAt(msg, 12, hops).value;
    var m := EmptyMessage.(header := top.header, question := [q.0]);
    assert forall u :: m.Records(u) == [];
    WalkEnds(msg, hops, q.1, m, top.counts, Answer, top.counts, top.header);
  }
}
