/** The byte cursor of decode.go: a buffer and a read offset that every read advances.
    Each method is proved to do exactly what the matching function of module Wire says
    about the buffer and the offset it started from. */
module Decode {
  import opened Ints
  import opened Text
  import opened Wire

  class Decoder {
    const data: seq<u8>
    var offset: u32

    /** The offset never passes the end of the buffer; the buffer's length fits the
        source's uint32 arithmetic on offsets. */
    ghost predicate Valid()
      reads this
    {
      offset <= |data| < TWO_32
    }

    constructor (data: seq<u8>)
      requires |data| < TWO_32
      ensures Valid() && this.data == data && offset == 0
    {
      this.data := data;
      offset := 0;
    }

    /** `getRemaining`: the bytes left to read. */
    function Remaining(): (n: nat)
      requires Valid()
      reads this
      ensures offset + n == |data|
    {
      |data| - offset
    }

    /** `readNextBytes`. */
    method ReadNextBytes(n: u32) returns (r: Result<seq<u8>>)
      requires Valid()
      modifies this
      ensures Valid()
      ensures Agrees(r, offset, ReadAt(data, old(offset), n))
    {
      if offset as int + n as int > |data| {
        return Failure(Truncated);
      }
      var start := offset;
      offset := offset + n;
      r := Success(data[start..offset]);
    }

    /** `decodeU8`. */
    method DecodeU8() returns (r: Result<u8>)
      requires Valid()
      modifies this
      ensures Valid()
      ensures Agrees(r, offset, U8At(data, old(offset)))
    {
      var b :- ReadNextBytes(1);
      r := Success(b[0]);
    }

    /** `decodeBool`. */
    method DecodeBool() returns (r: Result<bool>)
      requires Valid()
      modifies this
      ensures Valid()
      ensures Agrees(r, offset, BoolAt(data, old(offset)))
    {
      var b :- ReadNextBytes(1);
      r := Success(b[0] != 0);
    }

    /** `decodeU32`. */
    method DecodeU32() returns (r: Result<u32>)
      requires Valid()
      modifies this
      ensures Valid()
      ensures Agrees(r, offset, U32At(data, old(offset)))
    {
      var b :- ReadNextBytes(4);
      r := Success(LE(b));
    }

    /** `decodeU64`. */
    method DecodeU64() returns (r: Result<u64>)
      requires Valid()
      modifies this
      ensures Valid()
      ensures Agrees(r, offset, U64At(data, old(offset)))
    {
      var b :- ReadNextBytes(8);
      r := Success(LE(b));
    }

    /** `decodeString`. */
    method DecodeString() returns (r: Result<string>)
      requires Valid()
      modifies this
      ensures Valid()
      ensures Agrees(r, offset, StringAt(data, old(offset)))
    {
      var n :- DecodeU32();
      if offset as int + n as int > |data| {
        return Failure(Truncated);
      }
      var start := offset;
      offset := offset + n;
      r := Success(FromBytes(data[start..offset]));
    }

    /** `decodeTime`. */
    method DecodeTime() returns (r: Result<(u32, u32)>)
      requires Valid()
      modifies this
      ensures Valid()
      ensures Agrees(r, offset, TimeAt(data, old(offset)))
    {
      var s :- DecodeU32();
      var ns :- DecodeU32();
      r := Success((s, ns));
    }

    /** `decodeStart`. An old-version failure has consumed the two version bytes and not
        the length; a length that does not fit has consumed all six header bytes. */
    method DecodeStart(v: int) returns (r: Result<Header>)
      requires Valid()
      modifies this
      ensures Valid()
      ensures Agrees(r, offset, StartAt(data, old(offset), v))
      ensures r == Failure(OldVersion) ==> offset == old(offset) + 2
      ensures r == Failure(Past) ==> offset == old(offset) + 6
    {
      var sv :- DecodeU8();
      var compat :- DecodeU8();
      if v < compat {
        return Failure(OldVersion);
      }
      var len :- DecodeU32();
      if len as int > Remaining() {
        return Failure(Past);
      }
      r := Success(Header(sv, offset as int + len as int));
    }

    /** `decodeStartLegacyCompatLen`. */
    method DecodeStartLegacy(v: int, compatV: int, lenV: int) returns (r: Result<Header>)
      requires Valid()
      modifies this
      ensures Valid()
      ensures Agrees(r, offset, StartLegacyAt(data, old(offset), v, compatV, lenV))
      ensures r == Failure(OldVersion) ==> offset == old(offset) + 2
    {
      var sv :- DecodeU8();
      if sv >= compatV {
        var compat :- DecodeU8();
        if v < compat {
          return Failure(OldVersion);
        }
      }
      var end := 0;
      if sv >= lenV {
        var len :- DecodeU32();
        if len as int > Remaining() {
          return Failure(Past);
        }
        end := offset as int + len as int;
      }
      r := Success(Header(sv, end));
    }

    /** `decodeFinish`: fails iff the struct has a declared end and the offset is past it.
        It changes nothing, so unread bytes of the struct are not skipped. */
    method DecodeFinish(structEnd: nat) returns (r: Result<()>)
      requires Valid()
      ensures r.Failure? <==> structEnd > 0 && offset > structEnd
      ensures r.Failure? ==> r.error == Past
    {
      if structEnd > 0 && offset as int > structEnd {
        return Failure(Past);
      }
      r := Success(());
    }
  }

  /** `DecodeAccessKey`: a string read from the start of the buffer. */
  method DecodeAccessKey(data: seq<u8>) returns (r: Result<string>)
    requires |data| < TWO_32
    ensures r == Value(StringAt(data, 0))
  {
    var d := new Decoder(data);
    r := d.DecodeString();
  }
}
