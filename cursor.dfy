/** The byte cursor the codec drives: a buffer and a position that every
    read and write moves past what it touched. It stands for the cursor
    library packet.js wraps around a Node buffer. packet.js uses one class
    both ways; here the writing side, over a fixed-size array, and the
    reading side, over a message that decoding never changes, are two
    classes. A write that does not fit reports Full, and a read past the
    end ReadPastEnd: the library's distinguishable overflow. */
module Cursors {
  import opened Wrappers
  import opened Wire

  class Writer {
    const buf: array<byte>
    var pos: nat

    ghost predicate Valid()
      reads this
    {
      pos <= buf.Length
    }

    /** Nothing before offset p0 changed since the buffer held oldBuf, and
        the cursor is not behind p0. */
    ghost predicate Kept(oldBuf: seq<byte>, p0: nat)
      reads this, buf
    {
      p0 <= pos <= buf.Length == |oldBuf| && buf[..p0] == oldBuf[..p0]
    }

    constructor (b: array<byte>)
      ensures buf == b && pos == 0 && Valid()
    {
      buf := b;
      pos := 0;
    }

    predicate Eof()
      reads this
    {
      pos >= buf.Length
    }

    method Seek(p: nat)
      requires p <= buf.Length
      modifies this
      ensures pos == p && Valid()
    {
      pos := p;
    }

    /** write(bytes): all of b, or nothing and Full. */
    method Write(b: seq<byte>) returns (st: Status)
      requires Valid()
      modifies this, buf
      ensures Valid()
      ensures Kept(old(buf[..]), old(pos))
      ensures st == WriteStatus(old(pos), buf.Length, |b|, true)
      ensures st == Going ==> pos == old(pos) + |b| && buf[..pos] == old(buf[..pos]) + b
      ensures st == Going ==> buf[pos..] == old(buf[..])[pos..]
    {
      st := WriteStatus(pos, buf.Length, |b|, true);
      if st == Going {
        forall i | 0 <= i < |b| {
          buf[pos + i] := b[i];
        }
        assert buf[..pos + |b|] == old(buf[..])[..pos] + b;
        assert buf[pos + |b|..] == old(buf[..])[pos + |b|..];
        pos := pos + |b|;
      }
    }

    method WriteU8(v: int) returns (st: Status)
      requires Valid()
      modifies this, buf
      ensures Valid()
      ensures Kept(old(buf[..]), old(pos))
      ensures st == WriteStatus(old(pos), buf.Length, 1, 0 <= v < 0x100)
      ensures st == Going ==> pos == old(pos) + 1 && buf[..pos] == old(buf[..pos]) + [v]
    {
      st := WriteStatus(pos, buf.Length, 1, 0 <= v < 0x100);
      if st == Going {
        st := Write([v]);
      }
    }

    method WriteU16(v: int) returns (st: Status)
      requires Valid()
      modifies this, buf
      ensures Valid()
      ensures Kept(old(buf[..]), old(pos))
      ensures st == WriteStatus(old(pos), buf.Length, 2, 0 <= v < TWO16)
      ensures st == Going ==> pos == old(pos) + 2 && buf[..pos] == old(buf[..pos]) + U16(v)
      ensures st == Going ==> buf[pos..] == old(buf[..])[pos..]
    {
      st := WriteStatus(pos, buf.Length, 2, 0 <= v < TWO16);
      if st == Going {
        st := Write(U16(v));
      }
    }

    method WriteU32(v: int) returns (st: Status)
      requires Valid()
      modifies this, buf
      ensures Valid()
      ensures Kept(old(buf[..]), old(pos))
      ensures st == WriteStatus(old(pos), buf.Length, 4, 0 <= v < TWO32)
      ensures st == Going ==> pos == old(pos) + 4 && buf[..pos] == old(buf[..pos]) + U32(v)
    {
      st := WriteStatus(pos, buf.Length, 4, 0 <= v < TWO32);
      if st == Going {
        st := Write(U32(v));
      }
    }

    /** readUInt16BE, which the truncation uses on the written header. */
    method ReadU16() returns (v: int)
      requires pos + 2 <= buf.Length
      modifies this
      ensures pos == old(pos) + 2 && Valid()
      ensures v == BeU16(buf[..], old(pos))
    {
      v := BeU16(buf[..], pos);
      pos := pos + 2;
    }

    /** writeUInt8(s.length) followed by write(s, s.length, 'ascii'), the
        pair the codec uses for labels, TXT data and NAPTR strings. */
    method WriteString(s: string) returns (st: Status)
      requires Valid()
      modifies this, buf
      ensures Valid()
      ensures Kept(old(buf[..]), old(pos))
      ensures st == StringStatus(old(pos), buf.Length, s)
      ensures st == Going ==> pos == old(pos) + 1 + |s| && buf[..pos] == old(buf[..pos]) + StringBytes(s)
    {
      st := WriteU8(|s|);
      if st == Going {
        ghost var mid := buf[..pos];
        st := Write(AsciiBytes(s));
      }
    }
  }

  class Reader {
    const data: seq<byte>
    var pos: nat

    ghost predicate Valid()
      reads this
    {
      pos <= |data|
    }

    constructor (d: seq<byte>)
      ensures data == d && pos == 0 && Valid()
    {
      data := d;
      pos := 0;
    }

    predicate Eof()
      reads this
    {
      pos >= |data|
    }

    method Seek(p: nat)
      requires p <= |data|
      modifies this
      ensures pos == p && Valid()
    {
      pos := p;
    }

    method ReadU8() returns (r: Result<byte, DecodeError>)
      requires Valid()
      modifies this
      ensures Valid()
      ensures r == GetU8(data, old(pos))
      ensures pos == if r.Success? then old(pos) + 1 else old(pos)
    {
      if pos + 1 <= |data| {
        r := Success(data[pos]);
        pos := pos + 1;
      } else {
        r := Failure(ReadPastEnd);
      }
    }

    method ReadU16() returns (r: Result<int, DecodeError>)
      requires Valid()
      modifies this
      ensures Valid()
      ensures r == GetU16(data, old(pos))
      ensures pos == if r.Success? then old(pos) + 2 else old(pos)
    {
      if pos + 2 <= |data| {
        r := Success(BeU16(data, pos));
        pos := pos + 2;
      } else {
        r := Failure(ReadPastEnd);
      }
    }

    method ReadU32() returns (r: Result<int, DecodeError>)
      requires Valid()
      modifies this
      ensures Valid()
      ensures r == GetU32(data, old(pos))
      ensures pos == if r.Success? then old(pos) + 4 else old(pos)
    {
      if pos + 4 <= |data| {
        r := Success(BeU32(data, pos));
        pos := pos + 4;
      } else {
        r := Failure(ReadPastEnd);
      }
    }

    /** toString('ascii', n): the next n octets as a string. */
    method ReadAscii(n: nat) returns (r: Result<string, DecodeError>)
      requires Valid()
      modifies this
      ensures Valid()
      ensures r.Success? <==> old(pos) + n <= |data|
      ensures r.Success? ==> pos == old(pos) + n
      ensures r.Success? ==> r.value == AsciiString(data[old(pos)..old(pos) + n])
      ensures r.Failure? ==> r.error == ReadPastEnd && pos == old(pos)
    {
      if pos + n <= |data| {
        r := Success(AsciiString(data[pos..pos + n]));
        pos := pos + n;
      } else {
        r := Failure(ReadPastEnd);
      }
    }

    /** slice(n): a fresh cursor over the next n octets, at its own offset 0. */
    method Slice(n: nat) returns (r: Result<Reader, DecodeError>)
      requires Valid()
      modifies this
      ensures Valid()
      ensures r.Success? <==> old(pos) + n <= |data|
      ensures r.Success? ==> pos == old(pos) + n
      ensures r.Success? ==> fresh(r.value) && r.value.pos == 0 && r.value.Valid()
      ensures r.Success? ==> r.value.data == data[old(pos)..old(pos) + n]
      ensures r.Failure? ==> r.error == ReadPastEnd && pos == old(pos)
    {
      if pos + n <= |data| {
        var view := new Reader(data[pos..pos + n]);
        r := Success(view);
        pos := pos + n;
      } else {
        r := Failure(ReadPastEnd);
      }
    }
  }
}
