/** The wire format read by the decoder, stated as pure functions of the buffer and a
    read position: each `XAt(data, pos)` is what reading an X at `pos` yields, together
    with the position just after it. The `Decoder` class (decode.dfy) is proved to
    behave exactly like these functions.

    A read past the end of the buffer is a run-time panic in the source (slice bounds
    out of range); here it is the failure `Truncated`. */
module Wire {
  import opened Ints
  import opened Text

  /** The ways a decode ends without a value. `OldVersion`, `Past` and `NotCompat` are the
      source's error values (DECODE_ERR_OLDVERSION, DECODE_ERR_PAST, the "notcompat"
      error); `Truncated` and `NoRules` stand for the source's panics (a read past the
      buffer, `begin()` on an empty rule table). */
  datatype DecodeError = Truncated | OldVersion | Past | NotCompat | NoRules

  datatype Result<+T> = Success(value: T) | Failure(error: DecodeError) {
    predicate IsFailure() {
      Failure?
    }

    function PropagateFailure<U>(): Result<U>
      requires Failure?
    {
      Failure(error)
    }

    function Extract(): T
      requires Success?
    {
      value
    }
  }

  /** A decoded value and the read position after it. */
  datatype Parsed<+T> = Parsed(value: T, next: nat)

  /** The decoded value alone, as the source's public entry points return it. */
  function Value<T>(r: Result<Parsed<T>>): Result<T> {
    match r
    case Success(p) => Success(p.value)
    case Failure(e) => Failure(e)
  }

  /** A method result `r`, with the decoder left at `offset`, is what `spec` describes:
      the same value and the same end position, or the same error. */
  predicate Agrees<T(==)>(r: Result<T>, offset: nat, spec: Result<Parsed<T>>) {
    match spec
    case Success(p) => r == Success(p.value) && offset == p.next
    case Failure(e) => r == Failure(e)
  }

  // ---------------------------------------------------------------------------
  // Little-endian integers

  function Pow256(n: nat): (p: nat)
    ensures p >= 1
  {
    if n == 0 then 1 else 256 * Pow256(n - 1)
  }

  /** The little-endian value of a byte sequence (byte 0 is the least significant). */
  function LE(bs: seq<u8>): (v: nat)
    ensures v < Pow256(|bs|)
  {
    if bs == [] then 0 else bs[0] + 256 * LE(bs[1..])
  }

  /** The n-byte little-endian encoding of x (x modulo 256^n). */
  function EncodeLE(x: nat, n: nat): (bs: seq<u8>)
    ensures |bs| == n
  {
    if n == 0 then [] else [x % 256] + EncodeLE(x / 256, n - 1)
  }

  lemma {:induction false} LEOfEncodeLE(x: nat, n: nat)
    requires x < Pow256(n)
    ensures LE(EncodeLE(x, n)) == x
  {
    if n > 0 {
      var bs := EncodeLE(x, n);
      assert bs[1..] == EncodeLE(x / 256, n - 1);
      LEOfEncodeLE(x / 256, n - 1);
    }
  }

  lemma {:induction false} EncodeLEOfLE(bs: seq<u8>)
    ensures EncodeLE(LE(bs), |bs|) == bs
  {
    if bs != [] {
      var x := LE(bs);
      assert x % 256 == bs[0] && x / 256 == LE(bs[1..]);
      EncodeLEOfLE(bs[1..]);
    }
  }

  // ---------------------------------------------------------------------------
  // Primitive reads (decode.go)

  /** `readNextBytes(n)`: the next n bytes, verbatim. */
  function ReadAt(data: seq<u8>, pos: nat, n: nat): (r: Result<Parsed<seq<u8>>>)
    ensures r.Success? <==> pos + n <= |data|
    ensures r.Success? ==> r.value.value == data[pos..pos + n] && r.value.next == pos + n
    ensures r.Failure? ==> r.error == Truncated
  {
    if pos + n <= |data| then Success(Parsed(data[pos..pos + n], pos + n)) else Failure(Truncated)
  }

  /** `decodeU8`: one byte. */
  function U8At(data: seq<u8>, pos: nat): (r: Result<Parsed<u8>>)
    ensures r.Success? <==> pos < |data|
    ensures r.Success? ==> r.value.value == data[pos] && r.value.next == pos + 1
    ensures r.Failure? ==> r.error == Truncated
  {
    var b :- ReadAt(data, pos, 1);
    Success(Parsed(b.value[0], b.next))
  }

  /** `decodeBool`: one byte, true iff it is not zero. */
  function BoolAt(data: seq<u8>, pos: nat): (r: Result<Parsed<bool>>)
    ensures r.Success? <==> pos < |data|
    ensures r.Success? ==> (r.value.value <==> data[pos] != 0) && r.value.next == pos + 1
    ensures r.Failure? ==> r.error == Truncated
  {
    var b :- ReadAt(data, pos, 1);
    Success(Parsed(b.value[0] != 0, b.next))
  }

  /** `decodeU32`: four bytes, little-endian. */
  function U32At(data: seq<u8>, pos: nat): (r: Result<Parsed<u32>>)
    ensures r.Success? <==> pos + 4 <= |data|
    ensures r.Success? ==> r.value.value == LE(data[pos..pos + 4]) && r.value.next == pos + 4
    ensures r.Failure? ==> r.error == Truncated
  {
    var b :- ReadAt(data, pos, 4);
    Success(Parsed(LE(b.value), b.next))
  }

  /** `decodeU64`: eight bytes, little-endian. */
  function U64At(data: seq<u8>, pos: nat): (r: Result<Parsed<u64>>)
    ensures r.Success? <==> pos + 8 <= |data|
    ensures r.Success? ==> r.value.value == LE(data[pos..pos + 8]) && r.value.next == pos + 8
    ensures r.Failure? ==> r.error == Truncated
  {
    var b :- ReadAt(data, pos, 8);
    Success(Parsed(LE(b.value), b.next))
  }

  /** `decodeString`: a u32 length L, then L bytes taken verbatim as the string. */
  function StringAt(data: seq<u8>, pos: nat): (r: Result<Parsed<string>>)
    ensures r.Success? <==> pos + 4 <= |data| && pos + 4 + LE(data[pos..pos + 4]) <= |data|
    ensures r.Success? ==>
      && r.value.next == pos + 4 + LE(data[pos..pos + 4])
      && r.value.value == FromBytes(data[pos + 4..r.value.next])
    ensures r.Failure? ==> r.error == Truncated
  {
    var n :- U32At(data, pos);
    var b :- ReadAt(data, n.next, n.value);
    Success(Parsed(FromBytes(b.value), b.next))
  }

  /** `decodeTime`: seconds, then nanoseconds, each a u32. */
  function TimeAt(data: seq<u8>, pos: nat): (r: Result<Parsed<(u32, u32)>>)
    ensures r.Success? <==> pos + 8 <= |data|
    ensures r.Success? ==>
      && r.value.value == (LE(data[pos..pos + 4]), LE(data[pos + 4..pos + 8]))
      && r.value.next == pos + 8
    ensures r.Failure? ==> r.error == Truncated
  {
    var s :- U32At(data, pos);
    var ns :- U32At(data, s.next);
    Success(Parsed((s.value, ns.value), ns.next))
  }

  // ---------------------------------------------------------------------------
  // Envelopes (decode.go)

  /** A struct header: the encoded struct version, and the offset where the struct's
      declared bytes end (0 when the header carries no length). */
  datatype Header = Header(version: u8, end: nat)

  /** `decodeStart(v)`: version byte, compat byte, u32 length. The compat byte must not
      exceed the supported version v, and the length must fit in what remains. */
  function StartAt(data: seq<u8>, pos: nat, v: int): (r: Result<Parsed<Header>>)
    ensures r == Failure(OldVersion) <==> pos + 2 <= |data| && v < data[pos + 1]
    ensures r.Success? <==>
      && pos + 6 <= |data| && data[pos + 1] <= v
      && pos + 6 + LE(data[pos + 2..pos + 6]) <= |data|
    ensures r.Success? ==>
      && r.value.value.version == data[pos]
      && r.value.next == pos + 6
      && r.value.value.end == pos + 6 + LE(data[pos + 2..pos + 6]) <= |data|
    ensures r.Failure? && r.error != OldVersion ==>
      r.error == Truncated || (r.error == Past && pos + 6 <= |data| && pos + 6 + LE(data[pos + 2..pos + 6]) > |data|)
  {
    var sv :- U8At(data, pos);
    var compat :- U8At(data, sv.next);
    if v < compat.value then Failure(OldVersion)
    else
      var len :- U32At(data, compat.next);
      if len.value > |data| - len.next then Failure(Past)
      else Success(Parsed(Header(sv.value, len.next + len.value), len.next))
  }

  /** The legacy header's version byte is there and, when the version carries a compat
      byte, that byte is there and does not exceed the supported version v. */
  predicate LegacyHeaderAccepted(data: seq<u8>, pos: nat, v: int, compatV: int) {
    pos < |data| && (data[pos] >= compatV ==> pos + 1 < |data| && data[pos + 1] <= v)
  }

  /** Where the legacy header's length would start: after the version byte and, when the
      version carries one, the compat byte. */
  function LegacyLengthPos(data: seq<u8>, pos: nat, compatV: int): nat
    requires pos < |data|
  {
    pos + 1 + (if data[pos] >= compatV then 1 else 0)
  }

  /** A version without a length always fits; with one, the length is there and the
      declared bytes fit in what remains after it. */
  predicate LegacyLengthFits(data: seq<u8>, pos: nat, compatV: int, lenV: int)
    requires pos < |data|
  {
    data[pos] >= lenV ==>
      var q := LegacyLengthPos(data, pos, compatV);
      q + 4 <= |data| && q + 4 + LE(data[q..q + 4]) <= |data|
  }

  /** `decodeStartLegacyCompatLen(v, compatV, lenV)`: the version byte; a compat byte only
      from version compatV on (checked as in StartAt); a u32 length only from version lenV
      on, otherwise the struct end is 0, meaning "unknown". */
  function StartLegacyAt(data: seq<u8>, pos: nat, v: int, compatV: int, lenV: int): (r: Result<Parsed<Header>>)
    ensures r.Success? ==> pos < |data| && r.value.value.version == data[pos]
    ensures r.Success? ==>
      r.value.next == pos + 1 + (if data[pos] >= compatV then 1 else 0) + (if data[pos] >= lenV then 4 else 0)
    ensures r.Success? ==> r.value.next <= |data|
    ensures r.Success? && data[pos] < lenV ==> r.value.value.end == 0
    ensures r.Success? && data[pos] >= lenV ==> r.value.next <= r.value.value.end <= |data|
    ensures r == Failure(OldVersion) <==>
      pos + 1 < |data| && data[pos] >= compatV && v < data[pos + 1]
    ensures r.Failure? ==> r.error in {Truncated, OldVersion, Past}
    ensures r.Success? <==> LegacyHeaderAccepted(data, pos, v, compatV) && LegacyLengthFits(data, pos, compatV, lenV)
    ensures r == Failure(Past) <==>
      && LegacyHeaderAccepted(data, pos, v, compatV) && data[pos] >= lenV
      && var q := LegacyLengthPos(data, pos, compatV);
         q + 4 <= |data| && q + 4 + LE(data[q..q + 4]) > |data|
    ensures r.Success? && data[pos] >= lenV ==>
      var q := LegacyLengthPos(data, pos, compatV);
      r.value.value.end == q + 4 + LE(data[q..q + 4])
  {
    var sv :- U8At(data, pos);
    var afterCompat :- if sv.value >= compatV then
        var compat :- U8At(data, sv.next);
        if v < compat.value then Failure(OldVersion) else Success(compat.next)
      else Success(sv.next);
    if sv.value >= lenV then
      var len :- U32At(data, afterCompat);
      if len.value > |data| - len.next then Failure(Past)
      else Success(Parsed(Header(sv.value, len.next + len.value), len.next))
    else Success(Parsed(Header(sv.value, 0), afterCompat))
  }

  /** `decodeFinish(structEnd)`: a struct that ends past its declared end is an error; an
      end of 0 is never checked. Nothing is skipped: the position stays where it is. */
  function Finish<T>(structEnd: nat, p: Parsed<T>): (r: Result<Parsed<T>>)
    ensures r.Failure? <==> structEnd > 0 && p.next > structEnd
    ensures r.Success? ==> r.value == p
    ensures r.Failure? ==> r.error == Past
  {
    if structEnd > 0 && p.next > structEnd then Failure(Past) else Success(p)
  }

  // ---------------------------------------------------------------------------
  // Encodings, and the reads that recover what they encode

  function EncodeU32(x: u32): seq<u8> {
    EncodeLE(x, 4)
  }

  function EncodeU64(x: u64): seq<u8> {
    EncodeLE(x, 8)
  }

  function EncodeString(s: string): seq<u8>
    requires IsByteString(s) && |s| < TWO_32
  {
    EncodeU32(|s|) + ToBytes(s)
  }

  lemma U32AtEncoded(data: seq<u8>, pos: nat, x: u32)
    requires pos + 4 <= |data| && data[pos..pos + 4] == EncodeU32(x)
    ensures U32At(data, pos) == Success(Parsed(x, pos + 4))
  {
    LEOfEncodeLE(x, 4);
  }

  lemma U64AtEncoded(data: seq<u8>, pos: nat, x: u64)
    requires pos + 8 <= |data| && data[pos..pos + 8] == EncodeU64(x)
    ensures U64At(data, pos) == Success(Parsed(x, pos + 8))
  {
    LEOfEncodeLE(x, 8);
  }

  lemma StringAtEncoded(data: seq<u8>, pos: nat, s: string)
    requires IsByteString(s) && |s| < TWO_32
    requires pos + 4 + |s| <= |data| && data[pos..pos + 4 + |s|] == EncodeString(s)
    ensures StringAt(data, pos) == Success(Parsed(s, pos + 4 + |s|))
  {
    var enc := EncodeString(s);
    assert data[pos..pos + 4] == enc[..4] == EncodeU32(|s|);
    U32AtEncoded(data, pos, |s|);
    assert data[pos + 4..pos + 4 + |s|] == enc[4..] == ToBytes(s);
  }

  /** The header written by the source's ENCODE_START: version, compat, length. */
  function EncodeStart(version: u8, compat: u8, len: u32): seq<u8> {
    [version, compat] + EncodeU32(len)
  }

  lemma StartAtEncoded(data: seq<u8>, pos: nat, v: int, version: u8, compat: u8, len: u32)
    requires pos + 6 <= |data| && data[pos..pos + 6] == EncodeStart(version, compat, len)
    requires compat <= v && pos + 6 + len <= |data|
    ensures StartAt(data, pos, v) == Success(Parsed(Header(version, pos + 6 + len), pos + 6))
  {
    var enc := EncodeStart(version, compat, len);
    assert data[pos] == enc[0] && data[pos + 1] == enc[1];
    assert data[pos + 2..pos + 6] == enc[2..] == EncodeU32(len);
    U32AtEncoded(data, pos + 2, len);
  }

  lemma StartLegacyAtEncoded(data: seq<u8>, pos: nat, v: int, compatV: int, lenV: int,
                             version: u8, compat: u8, len: u32)
    requires version >= compatV && version >= lenV
    requires pos + 6 <= |data| && data[pos..pos + 6] == EncodeStart(version, compat, len)
    requires compat <= v && pos + 6 + len <= |data|
    ensures StartLegacyAt(data, pos, v, compatV, lenV) == Success(Parsed(Header(version, pos + 6 + len), pos + 6))
  {
    var enc := EncodeStart(version, compat, len);
    assert data[pos] == enc[0] && data[pos + 1] == enc[1];
    assert data[pos + 2..pos + 6] == enc[2..] == EncodeU32(len);
    U32AtEncoded(data, pos + 2, len);
  }
  /** The legacy header of a version below the length threshold: the version byte, and the
      compat byte when the version carries one. */
  function EncodeShortStart(version: u8, compat: u8, compatV: int): seq<u8> {
    if version >= compatV then [version, compat] else [version]
  }

  /** A legacy header without a length reads back as its version with struct end 0,
      leaving the position right after it. */
  lemma StartLegacyAtShort(data: seq<u8>, pos: nat, v: int, compatV: int, lenV: int,
                           version: u8, compat: u8)
    requires version < lenV && (version >= compatV ==> compat <= v)
    requires var enc := EncodeShortStart(version, compat, compatV);
      pos + |enc| <= |data| && data[pos..pos + |enc|] == enc
    ensures var enc := EncodeShortStart(version, compat, compatV);
      StartLegacyAt(data, pos, v, compatV, lenV) == Success(Parsed(Header(version, 0), pos + |enc|))
  {
    var enc := EncodeShortStart(version, compat, compatV);
    assert data[pos] == enc[0];
    if version >= compatV {
      assert data[pos + 1] == enc[1];
    }
  }
}
