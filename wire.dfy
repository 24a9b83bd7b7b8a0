/** Wire-level vocabulary shared by the encoder and the decoder: octets,
    big-endian integers, the 'ascii' string encoding of the cursor library,
    and what one cursor write or read does. */
module Wire {
  import opened Wrappers

  /** One octet of a message. */
  type byte = x: int | 0 <= x < 0x100

  const TWO16: int := 0x1_0000
  const TWO32: int := 0x1_0000_0000

  /** The 16-bit big-endian value stored at s[p], s[p+1]. */
  function BeU16(s: seq<byte>, p: int): int
    requires 0 <= p && p + 2 <= |s|
  {
    s[p] as int * 0x100 + s[p + 1] as int
  }

  /** The 32-bit big-endian value stored at s[p .. p+4]. */
  function BeU32(s: seq<byte>, p: int): int
    requires 0 <= p && p + 4 <= |s|
  {
    BeU16(s, p) * TWO16 + BeU16(s, p + 2)
  }

  /** The two octets writeUInt16BE lays down for v. */
  function U16(v: int): (b: seq<byte>)
    requires 0 <= v < TWO16
    ensures |b| == 2
  {
    [v / 0x100, v % 0x100]
  }

  /** The four octets writeUInt32BE lays down for v. */
  function U32(v: int): (b: seq<byte>)
    requires 0 <= v < TWO32
    ensures |b| == 4
  {
    U16(v / TWO16) + U16(v % TWO16)
  }

  /** readUInt16BE gives back what writeUInt16BE wrote. */
  lemma U16Value(v: int)
    requires 0 <= v < TWO16
    ensures BeU16(U16(v), 0) == v
  {
  }

  /** Writing a string with the 'ascii' encoding keeps the low octet of each
      character code. */
  function AsciiBytes(s: string): (b: seq<byte>)
    ensures |b| == |s|
  {
    if s == "" then [] else [s[0] as int % 0x100] + AsciiBytes(s[1..])
  }

  /** Reading octets with the 'ascii' encoding drops the high bit of each. */
  function AsciiString(b: seq<byte>): (s: string)
    ensures |s| == |b|
  {
    if b == [] then "" else [(b[0] % 0x80) as char] + AsciiString(b[1..])
  }

  predicate IsAscii(s: string)
  {
    forall i :: 0 <= i < |s| ==> s[i] as int < 0x80
  }

  /** Characters below 0x80 survive an 'ascii' write followed by an 'ascii' read. */
  lemma {:induction false} AsciiRoundTrip(s: string)
    requires IsAscii(s)
    ensures AsciiString(AsciiBytes(s)) == s
  {
    if s != "" {
      assert IsAscii(s[1..]) by {
        forall i | 0 <= i < |s[1..]| ensures s[1..][i] as int < 0x80 {
          assert s[1..][i] == s[i + 1];
        }
      }
      AsciiRoundTrip(s[1..]);
      assert AsciiBytes(s)[1..] == AsciiBytes(s[1..]);
    }
  }

  /** Errors that abort an encode call and are not a buffer overflow: an
      absent required field, a record type with no writer, and a value
      handed unmasked to a write that cannot represent it. */
  datatype EncodeError = MissingField | UnknownType | OutOfRange

  /** Errors that abort a decode call: a read past the end of a buffer (the
      cursor's overflow signal), a seek the cursor rejects (past the end, or
      to the undefined end offset of a name that is a lone zero octet), and
      a pointer chain longer than the hop budget. */
  datatype DecodeError = ReadPastEnd | BadSeek | TooManyHops

  /** Where an encoder step stands: still writing, stopped by the
      cursor's overflow signal, or stopped by any other error. */
  datatype Status = Going | Full | Failed(error: EncodeError)

  /** What one cursor write of n octets at offset at of a buffer of capacity
      cap does: the capacity is checked before the value's range. */
  function WriteStatus(at: int, cap: int, n: nat, inRange: bool): Status
  {
    if at + n > cap then Full
    else if !inRange then Failed(OutOfRange)
    else Going
  }

  /** The octets an encoder step appended, from the offset it started at, and
      the working state it leaves (the compression index, the EDNS option list). */
  datatype Emit<S> = Emit(status: Status, bytes: seq<byte>, state: S)

  /** e after the octets `front` that were written before it. */
  function Cat<S>(front: seq<byte>, e: Emit<S>): Emit<S>
  {
    e.(bytes := front + e.bytes)
  }

  lemma CatCat<S>(a: seq<byte>, b: seq<byte>, e: Emit<S>)
    ensures Cat(a, Cat(b, e)) == Cat(a + b, e)
  {
    assert a + (b + e.bytes) == a + b + e.bytes;
  }

  lemma AppendAssoc(a: seq<byte>, b: seq<byte>, c: seq<byte>)
    ensures a + b + c == a + (b + c)
  {
  }

  /** Two writes that each kept a prefix keep the shorter of the two. */
  lemma {:induction false} PrefixTrans(b0: seq<byte>, b1: seq<byte>, b2: seq<byte>, p0: nat, p1: nat)
    requires p0 <= p1 <= |b0| && p1 <= |b1| && p1 <= |b2|
    requires b1[..p0] == b0[..p0] && b2[..p1] == b1[..p1]
    ensures b2[..p0] == b0[..p0]
  {
    assert b2[..p0] == b2[..p1][..p0];
    assert b1[..p0] == b1[..p1][..p0];
  }

  /** b sits in msg at offset at. Stated octet by octet, so that the
      verifier unfolds it only as far as a proof asks. */
  predicate At(msg: seq<byte>, at: nat, b: seq<byte>)
    decreases |b|
  {
    at + |b| <= |msg| && (b == [] || (msg[at] == b[0] && At(msg, at + 1, b[1..])))
  }

  lemma {:induction false} AtSlice(msg: seq<byte>, at: nat, b: seq<byte>)
    ensures At(msg, at, b) <==> at + |b| <= |msg| && msg[at..at + |b|] == b
    decreases |b|
  {
    if b != [] && at + |b| <= |msg| {
      AtSlice(msg, at + 1, b[1..]);
      var w := msg[at..at + |b|];
      assert w[0] == msg[at] && w[1..] == msg[at + 1..at + |b|];
      assert w == b <==> w[0] == b[0] && w[1..] == b[1..] by {
        assert w == [w[0]] + w[1..] && b == [b[0]] + b[1..];
      }
    }
  }

  /** Two pieces written one after the other sit one after the other. */
  lemma {:induction false} AtSplit(msg: seq<byte>, at: nat, a: seq<byte>, b: seq<byte>)
    ensures At(msg, at, a + b) <==> At(msg, at, a) && At(msg, at + |a|, b)
    decreases |a|
  {
    if a != [] {
      assert (a + b)[0] == a[0] && (a + b)[1..] == a[1..] + b;
      AtSplit(msg, at + 1, a[1..], b);
    } else {
      assert a + b == b;
    }
  }

  /** What follows a piece sits right after it. */
  lemma {:induction false} AtTail(msg: seq<byte>, at: nat, x: seq<byte>, a: seq<byte>, b: seq<byte>)
    requires At(msg, at, x) && x == a + b
    ensures At(msg, at + |a|, b)
  {
    AtSplit(msg, at, a, b);
  }

  lemma {:induction false} AtIndex(msg: seq<byte>, at: nat, b: seq<byte>, i: nat)
    requires At(msg, at, b) && i < |b|
    ensures msg[at + i] == b[i]
    decreases i
  {
    if i > 0 {
      AtIndex(msg, at + 1, b[1..], i - 1);
    }
  }

  function PutBytes<S>(at: int, cap: int, st: S, b: seq<byte>): Emit<S>
  {
    var s := WriteStatus(at, cap, |b|, true);
    Emit(s, if s == Going then b else [], st)
  }

  function PutU8<S>(at: int, cap: int, st: S, v: int): Emit<S>
  {
    var s := WriteStatus(at, cap, 1, 0 <= v < 0x100);
    Emit(s, if s == Going then [v] else [], st)
  }

  function PutU16<S>(at: int, cap: int, st: S, v: int): Emit<S>
  {
    var s := WriteStatus(at, cap, 2, 0 <= v < TWO16);
    Emit(s, if s == Going then U16(v) else [], st)
  }

  function PutU32<S>(at: int, cap: int, st: S, v: int): Emit<S>
  {
    var s := WriteStatus(at, cap, 4, 0 <= v < TWO32);
    Emit(s, if s == Going then U32(v) else [], st)
  }

  /** A length octet followed by the string's 'ascii' octets, as the codec
      writes labels, TXT data and NAPTR strings: two cursor writes, the
      length octet first. */
  function StringStatus(at: int, cap: int, s: string): Status
  {
    var n := WriteStatus(at, cap, 1, 0 <= |s| < 0x100);
    if n != Going then n else WriteStatus(at + 1, cap, |s|, true)
  }

  /** The octets of a string that fits (a longer one is never written: the
      length octet's write refuses it). */
  function StringBytes(s: string): (b: seq<byte>)
    ensures |b| == 1 + |s|
  {
    [if |s| < 0x100 then |s| else 0] + AsciiBytes(s)
  }

  function PutString<S>(at: int, cap: int, st: S, s: string): Emit<S>
  {
    var w := StringStatus(at, cap, s);
    Emit(w, if w == Going then StringBytes(s) else [], st)
  }

  /** The reads of the cursor, as functions of the buffer and the offset. */
  function GetU8(s: seq<byte>, p: nat): (r: Result<byte, DecodeError>)
  {
    if p + 1 <= |s| then Success(s[p]) else Failure(ReadPastEnd)
  }

  function GetU16(s: seq<byte>, p: nat): (r: Result<int, DecodeError>)
  {
    if p + 2 <= |s| then Success(BeU16(s, p)) else Failure(ReadPastEnd)
  }

  function GetU32(s: seq<byte>, p: nat): (r: Result<int, DecodeError>)
  {
    if p + 4 <= |s| then Success(BeU32(s, p)) else Failure(ReadPastEnd)
  }

  function GetBytes(s: seq<byte>, p: nat, n: nat): (r: Result<seq<byte>, DecodeError>)
  {
    if p + n <= |s| then Success(s[p..p + n]) else Failure(ReadPastEnd)
  }
}
