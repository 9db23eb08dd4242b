/** What the version tables of user.go promise: which fields a version leaves at their
    zero value or copies, the dropped placement id, and the incompatible-entry check. */
module UserFacts {
  import opened Ints
  import opened Text
  import opened Wire
  import opened UserDecode
  import opened Codec

  /** The ids stage: nothing before version 2; from version 2 the marker is the string
      read first, and the id is the u64 read after it printed in decimal up to version 3,
      the string read after it from version 4. Nothing else changes. */
  lemma UserBucketIdsFacts(data: seq<u8>, pos: nat, v: u8, u: UserBucket)
    requires UserBucketIdsAt(data, pos, v, u).Success?
    ensures var r := UserBucketIdsAt(data, pos, v, u).value;
      && r.value == u.(marker := r.value.marker, bucketId := r.value.bucketId)
      && (v < 2 ==> r == Parsed(u, pos))
      && (v >= 2 ==>
            var mk := StringAt(data, pos).value;
            && r.value.marker == mk.value
            && (v <= 3 ==> r.value.bucketId == Decimal(U64At(data, mk.next).value.value))
            && (v > 3 ==> r.value.bucketId == StringAt(data, mk.next).value.value))
  {}

  /** The pools stage changes only the explicit placement. Before version 5 the index
      pool copies the data pool; from 5 to 7 the string read is the index pool. From
      version 8 a placement id is read and dropped; at version 8 with a non-empty id the
      three strings after it are the data, index and extra pools, and otherwise the
      placement is untouched. */
  lemma UserPoolsFacts(data: seq<u8>, pos: nat, v: u8, u: UserBucket)
    requires UserPoolsAt(data, pos, v, u).Success?
    ensures var r := UserPoolsAt(data, pos, v, u).value.value;
      var p := u.explicitPlacement;
      && r == u.(explicitPlacement := r.explicitPlacement)
      && (v < 5 ==> r.explicitPlacement == p.(indexPool := p.dataPool))
      && (v >= 5 ==>
            var s := StringAt(data, pos).value;
            && (v < 8 ==> r.explicitPlacement == p.(indexPool := s.value))
            && (v >= 8 && (v != 8 || s.value == "") ==> r == u)
            && (v == 8 && s.value != "" ==>
                  var dp := StringAt(data, s.next).value;
                  var ip := StringAt(data, dp.next).value;
                  var dep := StringAt(data, ip.next).value;
                  r.explicitPlacement == ExplicitPlacement(dp.value, ip.value, dep.value)))
  {}

  /** The version gates of `decodeUserBucket`: the placement id is never kept; no marker
      or id before version 2; up to version 3 the id is the u64 read after the marker,
      printed in decimal; the index pool a copy of the data pool before version 5; no
      extra pool before version 8; at version 8 an empty placement id leaves the explicit
      placement empty; from version 9 no explicit placement at all. */
  lemma UserBucketVersions(data: seq<u8>, pos: nat)
    requires UserBucketAt(data, pos).Success?
    ensures var u := UserBucketAt(data, pos).value.value;
      var v := data[pos];
      var p := u.explicitPlacement;
      && u.placementId == ""
      && (v < 2 ==> u.marker == "" && u.bucketId == "")
      && (2 <= v <= 3 ==> |u.bucketId| >= 1 && forall i :: 0 <= i < |u.bucketId| ==> IsDigit(u.bucketId[i]))
      && (v < 5 ==> p.indexPool == p.dataPool)
      && (v < 8 ==> p.dataExtraPool == "")
      && (v >= 9 ==> p == EmptyPlacement)
      && (2 <= v <= 3 ==>
            var h := StartLegacyAt(data, pos, 8, 3, 3).value;
            var name := StringAt(data, h.next).value;
            var dp := StringAt(data, name.next).value;
            var mk := StringAt(data, dp.next).value;
            u.marker == mk.value && u.bucketId == Decimal(U64At(data, mk.next).value.value))
      && (v == 8 ==>
            var h := StartLegacyAt(data, pos, 8, 3, 3).value;
            var name := StringAt(data, h.next).value;
            var mk := StringAt(data, name.next).value;
            var id := StringAt(data, mk.next).value;
            StringAt(data, id.next).value.value == "" ==> p == EmptyPlacement)
  {
    var h := StartLegacyAt(data, pos, 8, 3, 3).value;
    var v := h.value.version;
    var name := StringAt(data, h.next).value;
    var u1 := Parsed(EmptyUserBucket.(name := name.value), name.next);
    var u2 := if v < 8 then
        var dp := StringAt(data, u1.next).value;
        Parsed(WithDataPool(u1.value, dp.value), dp.next)
      else u1;
    UserBucketIdsFacts(data, u2.next, v, u2.value);
    var u3 := UserBucketIdsAt(data, u2.next, v, u2.value).value;
    UserPoolsFacts(data, u3.next, v, u3.value);
  }

  /** The version gates of `decodeUserBucketEntry`: the size is the first u64 and is
      also the rounded size before version 4; no count before version 2, no bucket
      before version 3, no sync flag before version 6. */
  lemma UserBucketEntryVersions(data: seq<u8>, pos: nat)
    requires UserBucketEntryAt(data, pos).Success?
    ensures var e := UserBucketEntryAt(data, pos).value.value;
      var v := data[pos];
      var h := StartLegacyAt(data, pos, 9, 5, 5).value;
      var s := StringAt(data, h.next).value;
      && s.value == ""
      && e.size == U64At(data, s.next).value.value
      && (v < 4 ==> e.sizeRounded == e.size)
      && (v < 2 ==> e.count == 0)
      && (v < 3 ==> e.bucket == EmptyUserBucket)
      && (v < 6 ==> !e.userStatusSync)
  {}

  /** A leading string that is not empty refuses the entry as incompatible, whatever
      follows. */
  lemma UserBucketEntryNotCompat(data: seq<u8>, pos: nat)
    requires StartLegacyAt(data, pos, 9, 5, 5).Success?
    requires var h := StartLegacyAt(data, pos, 9, 5, 5).value;
      StringAt(data, h.next).Success? && StringAt(data, h.next).value.value != ""
    ensures UserBucketEntryAt(data, pos) == Failure(NotCompat)
  {}

  // ---------------------------------------------------------------------------------
  // Reference encodings at version 9

  predicate EncodableBucket(u: UserBucket) {
    && Encodable(u.name) && Encodable(u.marker) && Encodable(u.bucketId) && Encodable(u.placementId)
    && |u.name| + |u.marker| + |u.bucketId| + |u.placementId| + 16 < TWO_32
  }

  function UserBucketBody(u: UserBucket): seq<u8>
    requires EncodableBucket(u)
  {
    EncodeString(u.name) + (EncodeString(u.marker) + (EncodeString(u.bucketId) + EncodeString(u.placementId)))
  }

  /** A user bucket at version 9: name, marker, id, placement id. */
  function EncodeUserBucket(u: UserBucket): seq<u8>
    requires EncodableBucket(u)
  {
    EncodeStart(9, 3, |UserBucketBody(u)|) + UserBucketBody(u)
  }

  /** A user bucket at version 9, given what each read yields. */
  lemma UserBucketFromReads(data: seq<u8>, pos: nat, u: UserBucket, p1: nat, p2: nat, p3: nat, end: nat)
    requires u.placementId == "" && u.explicitPlacement == EmptyPlacement
    requires StartLegacyAt(data, pos, 8, 3, 3) == Success(Parsed(Header(9, end), pos + 6))
    requires StringAt(data, pos + 6) == Success(Parsed(u.name, p1))
    requires StringAt(data, p1) == Success(Parsed(u.marker, p2))
    requires StringAt(data, p2) == Success(Parsed(u.bucketId, p3))
    requires StringAt(data, p3) == Success(Parsed(u.placementId, end))
    ensures UserBucketAt(data, pos) == Success(Parsed(u, end))
  {
    assert UserBucketIdsAt(data, p1, 9, EmptyUserBucket.(name := u.name))
        == Success(Parsed(EmptyUserBucket.(name := u.name, marker := u.marker, bucketId := u.bucketId), p3));
  }

  lemma UserBucketLength(u: UserBucket)
    requires EncodableBucket(u)
    ensures |UserBucketBody(u)| == 16 + |u.name| + |u.marker| + |u.bucketId| + |u.placementId|
    ensures |EncodeUserBucket(u)| == 6 + 4 + |u.name| + 4 + |u.marker| + 4 + |u.bucketId| + 4 + |u.placementId|
  {}

  /** Four encoded strings in a row, read back one after the other. */
  lemma FourStrings(data: seq<u8>, pos: nat, a: string, b: string, c: string, d: string,
                    p1: nat, p2: nat, p3: nat, p4: nat)
    requires Encodable(a) && Encodable(b) && Encodable(c) && Encodable(d)
    requires Holds(data, pos, EncodeString(a) + (EncodeString(b) + (EncodeString(c) + EncodeString(d))))
    requires p1 == pos + 4 + |a| && p2 == p1 + 4 + |b| && p3 == p2 + 4 + |c| && p4 == p3 + 4 + |d|
    ensures StringAt(data, pos) == Success(Parsed(a, p1))
    ensures StringAt(data, p1) == Success(Parsed(b, p2))
    ensures StringAt(data, p2) == Success(Parsed(c, p3))
    ensures StringAt(data, p3) == Success(Parsed(d, p4))
  {
    StringThen(data, pos, a, EncodeString(b) + (EncodeString(c) + EncodeString(d)), p1);
    StringThen(data, p1, b, EncodeString(c) + EncodeString(d), p2);
    StringThen(data, p2, c, EncodeString(d), p3);
    StringHolds(data, p3, d, p4);
  }

  /** The header of an encoded user bucket, and its body right after it. */
  lemma UserBucketHead(data: seq<u8>, pos: nat, u: UserBucket, end: nat)
    requires EncodableBucket(u) && Holds(data, pos, EncodeUserBucket(u))
    requires end == pos + |EncodeUserBucket(u)|
    ensures StartLegacyAt(data, pos, 8, 3, 3) == Success(Parsed(Header(9, end), pos + 6))
    ensures Holds(data, pos + 6, UserBucketBody(u))
  {
    var len := |UserBucketBody(u)|;
    Split(data, pos, EncodeStart(9, 3, len), UserBucketBody(u));
    StartLegacyAtEncoded(data, pos, 8, 3, 3, 9, 3, len);
  }

  /** Version 9 carries no explicit placement and the placement id is dropped, so a
      bucket without either comes back whole, wherever it sits, and ends where its
      encoding ends. */
  lemma UserBucketRoundTrip(data: seq<u8>, pos: nat, u: UserBucket, end: nat)
    requires EncodableBucket(u) && u.placementId == "" && u.explicitPlacement == EmptyPlacement
    requires Holds(data, pos, EncodeUserBucket(u)) && end == pos + |EncodeUserBucket(u)|
    ensures UserBucketAt(data, pos) == Success(Parsed(u, end))
  {
    UserBucketLength(u);
    UserBucketHead(data, pos, u, end);
    var p1 := pos + 10 + |u.name|;
    var p2 := p1 + 4 + |u.marker|;
    var p3 := p2 + 4 + |u.bucketId|;
    FourStrings(data, pos + 6, u.name, u.marker, u.bucketId, u.placementId, p1, p2, p3, end);
    UserBucketFromReads(data, pos, u, p1, p2, p3, end);
  }

  /** The fields of an entry after its leading empty string, in decode order. */
  function EntryFields(e: UserBucketEntry): seq<u8>
    requires EncodableBucket(e.bucket)
  {
    EncodeU64(e.size) + (EncodeU32(0) + (EncodeU64(e.count) + (EncodeUserBucket(e.bucket)
      + (EncodeU64(e.sizeRounded) + [if e.userStatusSync then 1 else 0]))))
  }

  function EntryBody(e: UserBucketEntry): seq<u8>
    requires EncodableBucket(e.bucket)
  {
    EncodeString("") + EntryFields(e)
  }

  /** A user bucket entry at version 9. */
  function EncodeUserBucketEntry(e: UserBucketEntry): seq<u8>
    requires EncodableBucket(e.bucket) && |EntryBody(e)| < TWO_32
  {
    EncodeStart(9, 5, |EntryBody(e)|) + EntryBody(e)
  }

  lemma EntryLength(e: UserBucketEntry)
    requires EncodableBucket(e.bucket) && |EntryBody(e)| < TWO_32
    ensures |EncodeUserBucketEntry(e)| == 39 + |EncodeUserBucket(e.bucket)|
  {}

  /** A whole entry at version 9, given what each read yields. */
  lemma EntryFromReads(data: seq<u8>, pos: nat, e: UserBucketEntry,
                       q: nat, p1: nat, p2: nat, p3: nat, p4: nat, p5: nat, end: nat)
    requires StartLegacyAt(data, pos, 9, 5, 5) == Success(Parsed(Header(9, end), pos + 6))
    requires StringAt(data, pos + 6) == Success(Parsed("", q))
    requires U64At(data, q) == Success(Parsed(e.size, p1))
    requires U32At(data, p1) == Success(Parsed(0, p2))
    requires U64At(data, p2) == Success(Parsed(e.count, p3))
    requires UserBucketAt(data, p3) == Success(Parsed(e.bucket, p4))
    requires U64At(data, p4) == Success(Parsed(e.sizeRounded, p5))
    requires p5 < |data| && (data[p5] != 0 <==> e.userStatusSync)
    requires p5 + 1 == end
    ensures UserBucketEntryAt(data, pos) == Success(Parsed(e, end))
  {
    assert EntryFieldsAt(data, p2, 9, EmptyEntry.(size := e.size, sizeRounded := e.size)) == Success(Parsed(e, end));
  }

  /** The header of an encoded entry, and its body right after it. */
  lemma EntryHead(data: seq<u8>, pos: nat, e: UserBucketEntry, end: nat)
    requires EncodableBucket(e.bucket) && |EntryBody(e)| < TWO_32
    requires Holds(data, pos, EncodeUserBucketEntry(e)) && end == pos + |EncodeUserBucketEntry(e)|
    ensures StartLegacyAt(data, pos, 9, 5, 5) == Success(Parsed(Header(9, end), pos + 6))
    ensures Holds(data, pos + 6, EncodeString("") + EntryFields(e))
  {
    var len := |EntryBody(e)|;
    Split(data, pos, EncodeStart(9, 5, len), EntryBody(e));
    StartLegacyAtEncoded(data, pos, 9, 5, 5, 9, 5, len);
  }

  /** The reads of an encoded entry's fields up to its bucket. */
  lemma EntryPrefixReads(data: seq<u8>, pos: nat, e: UserBucketEntry, p1: nat, p2: nat, p3: nat)
    requires EncodableBucket(e.bucket)
    requires Holds(data, pos, EntryFields(e))
    requires p1 == pos + 8 && p2 == p1 + 4 && p3 == p2 + 8
    ensures U64At(data, pos) == Success(Parsed(e.size, p1))
    ensures U32At(data, p1) == Success(Parsed(0, p2))
    ensures U64At(data, p2) == Success(Parsed(e.count, p3))
    ensures Holds(data, p3, EncodeUserBucket(e.bucket)
                            + (EncodeU64(e.sizeRounded) + [if e.userStatusSync then 1 else 0]))
  {
    var b := EncodeUserBucket(e.bucket);
    var f: seq<u8> := [if e.userStatusSync then 1 else 0];
    U64Then(data, pos, e.size, EncodeU32(0) + (EncodeU64(e.count) + (b + (EncodeU64(e.sizeRounded) + f))), p1);
    U32Then(data, p1, 0, EncodeU64(e.count) + (b + (EncodeU64(e.sizeRounded) + f)), p2);
    U64Then(data, p2, e.count, b + (EncodeU64(e.sizeRounded) + f), p3);
  }

  /** An encoded user bucket read back where it sits, and what follows it. */
  lemma UserBucketThen(data: seq<u8>, pos: nat, u: UserBucket, rest: seq<u8>, next: nat)
    requires EncodableBucket(u) && u.placementId == "" && u.explicitPlacement == EmptyPlacement
    requires Holds(data, pos, EncodeUserBucket(u) + rest) && next == pos + |EncodeUserBucket(u)|
    ensures UserBucketAt(data, pos) == Success(Parsed(u, next))
    ensures Holds(data, next, rest)
  {
    SplitAt(data, pos, EncodeUserBucket(u), rest, next);
    UserBucketRoundTrip(data, pos, u, next);
  }

  /** An encoded u64 and one last byte, read back. */
  lemma U64ThenByte(data: seq<u8>, pos: nat, x: u64, b: u8, next: nat)
    requires Holds(data, pos, EncodeU64(x) + [b]) && next == pos + 8
    ensures U64At(data, pos) == Success(Parsed(x, next))
    ensures next < |data| && data[next] == b
  {
    U64Then(data, pos, x, [b], next);
    assert data[next] == data[next..next + 1][0];
  }

  /** The reads of an encoded entry after its header. */
  lemma EntryBodyReads(data: seq<u8>, pos: nat, e: UserBucketEntry, q: nat, p1: nat, p2: nat, p3: nat)
    requires EncodableBucket(e.bucket)
    requires Holds(data, pos, EncodeString("") + EntryFields(e))
    requires q == pos + 4 && p1 == q + 8 && p2 == p1 + 4 && p3 == p2 + 8
    ensures StringAt(data, pos) == Success(Parsed("", q))
    ensures U64At(data, q) == Success(Parsed(e.size, p1))
    ensures U32At(data, p1) == Success(Parsed(0, p2))
    ensures U64At(data, p2) == Success(Parsed(e.count, p3))
    ensures Holds(data, p3, EncodeUserBucket(e.bucket)
                            + (EncodeU64(e.sizeRounded) + [if e.userStatusSync then 1 else 0]))
  {
    StringThen(data, pos, "", EntryFields(e), q);
    EntryPrefixReads(data, q, e, p1, p2, p3);
  }

  /** An entry whose bucket has neither placement id nor explicit placement comes back
      whole, wherever it sits, and ends where its encoding ends. */
  lemma UserBucketEntryRoundTrip(data: seq<u8>, pos: nat, e: UserBucketEntry, end: nat)
    requires EncodableBucket(e.bucket) && |EntryBody(e)| < TWO_32
    requires e.bucket.placementId == "" && e.bucket.explicitPlacement == EmptyPlacement
    requires Holds(data, pos, EncodeUserBucketEntry(e)) && end == pos + |EncodeUserBucketEntry(e)|
    ensures UserBucketEntryAt(data, pos) == Success(Parsed(e, end))
  {
    var q := pos + 10;
    var p1 := q + 8;
    var p2 := p1 + 4;
    var p3 := p2 + 8;
    var p4 := p3 + |EncodeUserBucket(e.bucket)|;
    var p5 := p4 + 8;
    var flag: u8 := if e.userStatusSync then 1 else 0;
    EntryLength(e);
    EntryHead(data, pos, e, end);
    EntryBodyReads(data, pos + 6, e, q, p1, p2, p3);
    UserBucketThen(data, p3, e.bucket, EncodeU64(e.sizeRounded) + [flag], p4);
    U64ThenByte(data, p4, e.sizeRounded, flag, p5);
    EntryFromReads(data, pos, e, q, p1, p2, p3, p4, p5, end);
  }
}
