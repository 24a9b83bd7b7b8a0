/** The EDNS option list and the EDNS fields: the octets the OPT state of
    Packet.write lays down, the options the OPT state of Packet.parse reads
    back from them, and the octets Packet.parse takes the extended rcode,
    the version and the flags from. */
module EdnsRoundTrip {
  import opened Wrappers
  import opened Wire
  import opened Messages
  import opened Encoding
  import opened Decoding
  import opened Names

  /** Every option has a 16-bit code and fewer than 2^16 octets of data. */
  predicate OptionsFit(opts: seq<EdnsOption>)
  {
    forall i | 0 <= i < |opts| :: 0 <= opts[i].code < TWO16 && |opts[i].data| < TWO16
  }

  /** s last element first. */
  function Reversed<T>(s: seq<T>): (r: seq<T>)
    ensures |r| == |s| && forall i | 0 <= i < |s| :: r[i] == s[|s| - 1 - i]
    decreases |s|
  {
    if s == [] then [] else [s[|s| - 1]] + Reversed(s[..|s| - 1])
  }

  /** When the OPT state gets through the whole list, every option fitted
      its fields, the octets are OptionBytes of the list, they fit the
      buffer, and the list is left empty. */
  lemma {:induction false} OptionsWritten(at: int, cap: int, opts: seq<EdnsOption>)
    requires OptionsEmit(at, cap, opts).status == Going
    ensures OptionsFit(opts)
    ensures OptionsEmit(at, cap, opts).bytes == OptionBytes(opts)
    ensures OptionsEmit(at, cap, opts).state == []
    ensures at + |OptionBytes(opts)| <= cap || opts == []
    decreases |opts|
  {
    if opts != [] {
      var n := |opts| - 1;
      var e := OptionEmit(at, cap, opts[..n], opts[n]);
      OptionsWritten(at + |e.bytes|, cap, opts[..n]);
      assert opts == opts[..n] + [opts[n]];
    }
  }

  /** The options loop reads the same from k in b as from |p| + k in p + b. */
  lemma {:induction false} OptionsAtShift(p: seq<byte>, b: seq<byte>, k: nat)
    ensures OptionsAt(p + b, |p| + k) == OptionsAt(b, k)
    decreases |b| - k
  {
    var s := p + b;
    if k + 2 <= |b| {
      assert BeU16(s, |p| + k) == BeU16(b, k) by {
        assert s[|p| + k] == b[k] && s[|p| + k + 1] == b[k + 1];
      }
    }
    if k + 4 <= |b| {
      assert BeU16(s, |p| + k + 2) == BeU16(b, k + 2) by {
        assert s[|p| + k + 2] == b[k + 2] && s[|p| + k + 3] == b[k + 3];
      }
      var len := BeU16(b, k + 2);
      if k + 4 + len <= |b| {
        OptionsAtShift(p, b, k + 4 + len);
        assert s[|p| + k + 4..|p| + k + 4 + len] == b[k + 4..k + 4 + len];
      }
    }
  }

  /** The OPT state of Packet.parse reads back the options Packet.write
      laid down, in reverse order (the writer pops from the end of the
      list, the reader appends). */
  lemma {:induction false} OptionsReadBack(opts: seq<EdnsOption>)
    requires OptionsFit(opts)
    ensures OptionsAt(OptionBytes(opts), 0) == Success(Reversed(opts))
    decreases |opts|
  {
    if opts != [] {
      var n := |opts| - 1;
      var o := opts[n];
      var rest := OptionBytes(opts[..n]);
      assert OptionsFit(opts[..n]);
      OptionsReadBack(opts[..n]);
      OptionHead(o.code, o.data, rest);
      OptionsAtOf(U16(o.code) + U16(|o.data|) + o.data + rest, o.code, o.data, Reversed(opts[..n]));
    }
  }

  /** The octets of one option in front of rest: its code, its length and
      its data, and after them the loop goes on as over rest. */
  lemma OptionHead(code: int, data: seq<byte>, rest: seq<byte>)
    requires 0 <= code < TWO16 && |data| < TWO16
    ensures var head := U16(code) + U16(|data|) + data;
      var b := head + rest;
      4 + |data| <= |b| && BeU16(b, 0) == code && BeU16(b, 2) == |data| && b[4..4 + |data|] == data &&
      OptionsAt(b, 4 + |data|) == OptionsAt(rest, 0)
  {
    var head := U16(code) + U16(|data|) + data;
    var b := head + rest;
    assert BeU16(b, 0) == code by {
      assert b[0] == U16(code)[0] && b[1] == U16(code)[1];
      U16Value(code);
    }
    assert BeU16(b, 2) == |data| by {
      assert b[2] == U16(|data|)[0] && b[3] == U16(|data|)[1];
      U16Value(|data|);
    }
    assert b[4..4 + |data|] == data;
    OptionsAtShift(head, rest, 0);
  }

  /** One pass of the options loop from offset 0. */
  lemma OptionsAtOf(b: seq<byte>, code: int, data: seq<byte>, rest: seq<EdnsOption>)
    requires 4 + |data| <= |b| && BeU16(b, 0) == code && BeU16(b, 2) == |data| && b[4..4 + |data|] == data
    requires OptionsAt(b, 4 + |data|) == Success(rest)
    ensures OptionsAt(b, 0) == Success([EdnsOption(code, data)] + rest)
  {
  }

  /** The option list of Packet.write, read back by Packet.parse: when the
      OPT state wrote the whole list and the RDATA of the frame is those
      octets, the OPT state of Packet.parse appends the options in reverse. */
  lemma OptionsRoundTrip(at: int, cap: int, opts: seq<EdnsOption>, msg: seq<byte>, m: Message, f: Frame)
    requires OptionsEmit(at, cap, opts).status == Going
    requires 6 <= f.start && f.start + f.len <= |msg|
    requires Slice(msg, f) == OptionsEmit(at, cap, opts).bytes
    ensures OptAt(msg, m, f) == Success(EdnsFields(msg, m, f).(ednsOptions := m.ednsOptions + Reversed(opts)))
  {
    OptionsWritten(at, cap, opts);
    OptionsReadBack(opts);
  }

  /** Four octets as one 32-bit word: its high octet, its second octet and
      its low 16 bits. */
  lemma TtlOctets(a: byte, b: byte, c: byte, d: byte, t: int)
    requires t == (a * 0x100 + b) * TWO16 + (c * 0x100 + d)
    ensures t / 0x100_0000 == a && t / TWO16 % 0x100 == b && t % TWO16 == c * 0x100 + d
  {
    assert t == a * 0x100_0000 + (b * TWO16 + c * 0x100 + d);
    assert t == (a * 0x100 + b) * TWO16 + (c * 0x100 + d);
  }

  /** With no RDATA, the six octets before the end of the RDATA are the
      TTL and the RDATA length, so Packet.parse takes the extended rcode
      from the TTL's high octet, the version from its second octet and the
      flags from its low 16 bits, and the payload from the class. */
  lemma EdnsFromTtl(msg: seq<byte>, m: Message, p: nat, hops: nat)
    requires FrameAt(msg, p, hops).Success? && FrameAt(msg, p, hops).value.len == 0
    ensures var f := FrameAt(msg, p, hops).value;
      var t := f.rr.ttl.value;
      var e := EdnsFields(msg, m, f);
      f.rr.ttl.Some? &&
      e.payload == f.rr.rrclass &&
      e.header.rcode == t / 0x100_0000 * 16 + m.header.rcode &&
      e.ednsVersion == Some(t / TWO16 % 0x100) &&
      e.dnssecOk == Some(DnssecOkOf(t % TWO16))
  {
    var f := FrameAt(msg, p, hops).value;
    var n := NameAt(msg, p, hops).value;
    assert f.start == n.1 + 10 && f.rr.ttl == Some(BeU32(msg, n.1 + 4));
    var q := f.start - 6;
    TtlOctets(msg[q], msg[q + 1], msg[q + 2], msg[q + 3], f.rr.ttl.value);
  }

  /** With six or more octets of RDATA, Packet.parse takes the extended
      rcode, the version and the flags from its last six octets. */
  lemma EdnsFromRData(msg: seq<byte>, m: Message, f: Frame)
    requires 6 <= f.start && f.start + f.len <= |msg| && f.len >= 6
    ensures var r, e := Slice(msg, f), EdnsFields(msg, m, f);
      e.payload == f.rr.rrclass &&
      e.header.rcode == r[f.len - 6] as int * 16 + m.header.rcode &&
      e.ednsVersion == Some(r[f.len - 5] as int) &&
      e.dnssecOk == Some(DnssecOkOf(BeU16(r, f.len - 4)))
  {
  }
}
