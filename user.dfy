/** The user-bucket records of user.go: the bucket a user owns, and the per-bucket
    statistics entry that wraps it. As in the object decoders, `XAt(data, pos)` states
    what the version-gated field sequence yields and `DecodeX(d)` reads the same fields
    from the shared `Decoder`. */
module UserDecode {
  import opened Ints
  import opened Text
  import opened Wire
  import opened Decode

  /** `explicitPlacement`: the pool names of a bucket placed outside a placement rule. */
  datatype ExplicitPlacement = ExplicitPlacement(dataPool: string, indexPool: string, dataExtraPool: string)

  /** `UserBucket`. The placement id is read from version 8 on but never stored. */
  datatype UserBucket = UserBucket(name: string, marker: string, bucketId: string,
                                   placementId: string, explicitPlacement: ExplicitPlacement)

  /** `UserBucketEntry`. */
  datatype UserBucketEntry = UserBucketEntry(size: u64, sizeRounded: u64, count: u64,
                                             userStatusSync: bool, bucket: UserBucket)

  const EmptyPlacement := ExplicitPlacement("", "", "")
  const EmptyUserBucket := UserBucket("", "", "", "", EmptyPlacement)
  const EmptyEntry := UserBucketEntry(0, 0, 0, false, EmptyUserBucket)

  function WithDataPool(u: UserBucket, p: string): UserBucket {
    u.(explicitPlacement := u.explicitPlacement.(dataPool := p))
  }

  function WithIndexPool(u: UserBucket, p: string): UserBucket {
    u.(explicitPlacement := u.explicitPlacement.(indexPool := p))
  }

  // ---------------------------------------------------------------------------------
  // UserBucket

  /** The marker and id from version 2: before version 4 the id is a u64 printed in
      decimal, from version 4 a string. */
  function UserBucketIdsAt(data: seq<u8>, pos: nat, v: u8, u: UserBucket): (r: Result<Parsed<UserBucket>>)
  {
    if v >= 2 then
      var mk :- StringAt(data, pos);
      var id :- if v <= 3 then
          var n :- U64At(data, mk.next);
          Success(Parsed(Decimal(n.value), n.next))
        else StringAt(data, mk.next);
      Success(Parsed(u.(marker := mk.value, bucketId := id.value), id.next))
    else Success(Parsed(u, pos))
  }

  /** The pool names. Before version 8: from version 5 the index pool is read, before it
      it copies the data pool. From version 8: a placement id, followed, at version 8
      exactly and when the id is not empty, by the data, index and extra pool names. */
  function UserPoolsAt(data: seq<u8>, pos: nat, v: u8, u: UserBucket): (r: Result<Parsed<UserBucket>>)
  {
    if v < 8 then
      if v >= 5 then
        var ip :- StringAt(data, pos);
        Success(Parsed(WithIndexPool(u, ip.value), ip.next))
      else Success(Parsed(WithIndexPool(u, u.explicitPlacement.dataPool), pos))
    else
      var pid :- StringAt(data, pos);
      if v == 8 && pid.value != "" then
        var dp :- StringAt(data, pid.next);
        var ip :- StringAt(data, dp.next);
        var dep :- StringAt(data, ip.next);
        Success(Parsed(u.(explicitPlacement := ExplicitPlacement(dp.value, ip.value, dep.value)), dep.next))
      else Success(Parsed(u, pid.next))
  }

  /** `decodeUserBucket`: a legacy header (8, 3, 3), the name, the data pool before
      version 8, the ids, the pools, and the struct end check. */
  function UserBucketAt(data: seq<u8>, pos: nat): (r: Result<Parsed<UserBucket>>)
  {
    var h :- StartLegacyAt(data, pos, 8, 3, 3);
    var v := h.value.version;
    var name :- StringAt(data, h.next);
    var u1 := Parsed(EmptyUserBucket.(name := name.value), name.next);
    var u2 :- if v < 8 then
        var dp :- StringAt(data, u1.next);
        Success(Parsed(WithDataPool(u1.value, dp.value), dp.next))
      else Success(u1);
    var u3 :- UserBucketIdsAt(data, u2.next, v, u2.value);
    var u4 :- UserPoolsAt(data, u3.next, v, u3.value);
    Finish(h.value.end, u4)
  }

  method DecodeUserBucketIds(d: Decoder, v: u8, u: UserBucket) returns (r: Result<UserBucket>)
    requires d.Valid()
    modifies d
    ensures d.Valid()
    ensures Agrees(r, d.offset, UserBucketIdsAt(d.data, old(d.offset), v, u))
  {
    var u := u;
    if v >= 2 {
      var marker :- d.DecodeString();
      u := u.(marker := marker);
      if v <= 3 {
        var id :- d.DecodeU64();
        u := u.(bucketId := Decimal(id));
      } else {
        var id :- d.DecodeString();
        u := u.(bucketId := id);
      }
    }
    r := Success(u);
  }

  method DecodeUserPools(d: Decoder, v: u8, u: UserBucket) returns (r: Result<UserBucket>)
    requires d.Valid()
    modifies d
    ensures d.Valid()
    ensures Agrees(r, d.offset, UserPoolsAt(d.data, old(d.offset), v, u))
  {
    var u := u;
    if v < 8 {
      if v >= 5 {
        var p :- d.DecodeString();
        u := WithIndexPool(u, p);
      } else {
        u := WithIndexPool(u, u.explicitPlacement.dataPool);
      }
    } else {
      var pid :- d.DecodeString();
      if v == 8 && pid != "" {
        var dp :- d.DecodeString();
        var ip :- d.DecodeString();
        var dep :- d.DecodeString();
        u := u.(explicitPlacement := ExplicitPlacement(dp, ip, dep));
      }
    }
    r := Success(u);
  }

  method DecodeUserBucketFrom(d: Decoder) returns (r: Result<UserBucket>)
    requires d.Valid()
    modifies d
    ensures d.Valid()
    ensures Agrees(r, d.offset, UserBucketAt(d.data, old(d.offset)))
  {
    var u := EmptyUserBucket;
    var h :- d.DecodeStartLegacy(8, 3, 3);
    var v := h.version;
    var name :- d.DecodeString();
    u := u.(name := name);
    if v < 8 {
      var p :- d.DecodeString();
      u := WithDataPool(u, p);
    }
    u :- DecodeUserBucketIds(d, v, u);
    u :- DecodeUserPools(d, v, u);
    if h.end > 0 && d.offset as nat > h.end {
      return Failure(Past);
    }
    r := Success(u);
  }

  /** `DecodeUserBucket`: a user bucket decoded from the start of the buffer. */
  method DecodeUserBucket(data: seq<u8>) returns (r: Result<UserBucket>)
    requires |data| < TWO_32
    ensures r == Value(UserBucketAt(data, 0))
  {
    var d := new Decoder(data);
    r := DecodeUserBucketFrom(d);
  }

  // ---------------------------------------------------------------------------------
  // UserBucketEntry

  /** The fields of an entry after its skipped u32: the count from version 2, the
      bucket from version 3, the rounded size from version 4, and the sync flag (a u8,
      set when non-zero) from version 6. */
  function EntryFieldsAt(data: seq<u8>, pos: nat, v: u8, e: UserBucketEntry): (r: Result<Parsed<UserBucketEntry>>)
  {
    var e2 :- if v >= 2 then
        var c :- U64At(data, pos);
        Success(Parsed(e.(count := c.value), c.next))
      else Success(Parsed(e, pos));
    var e3 :- if v >= 3 then
        var b :- UserBucketAt(data, e2.next);
        Success(Parsed(e2.value.(bucket := b.value), b.next))
      else Success(e2);
    var e4 :- if v >= 4 then
        var s :- U64At(data, e3.next);
        Success(Parsed(e3.value.(sizeRounded := s.value), s.next))
      else Success(e3);
    if v >= 6 then
      var st :- U8At(data, e4.next);
      Success(Parsed(e4.value.(userStatusSync := st.value != 0), st.next))
    else Success(e4)
  }

  /** `decodeUserBucketEntry`: a legacy header (9, 5, 5); a string that must be empty
      (a non-empty one is refused as incompatible); the size, which also stands as the
      rounded size; a u32 that is skipped; the version-gated fields; the struct end
      check. */
  function UserBucketEntryAt(data: seq<u8>, pos: nat): (r: Result<Parsed<UserBucketEntry>>)
  {
    var h :- StartLegacyAt(data, pos, 9, 5, 5);
    var s :- StringAt(data, h.next);
    if s.value != "" then Failure(NotCompat)
    else
      var size :- U64At(data, s.next);
      var skipped :- U32At(data, size.next);
      var e :- EntryFieldsAt(data, skipped.next, h.value.version,
                             EmptyEntry.(size := size.value, sizeRounded := size.value));
      Finish(h.value.end, e)
  }

  method DecodeEntryFields(d: Decoder, v: u8, e: UserBucketEntry) returns (r: Result<UserBucketEntry>)
    requires d.Valid()
    modifies d
    ensures d.Valid()
    ensures Agrees(r, d.offset, EntryFieldsAt(d.data, old(d.offset), v, e))
  {
    var e := e;
    if v >= 2 {
      var count :- d.DecodeU64();
      e := e.(count := count);
    }
    if v >= 3 {
      var bucket :- DecodeUserBucketFrom(d);
      e := e.(bucket := bucket);
    }
    if v >= 4 {
      var size :- d.DecodeU64();
      e := e.(sizeRounded := size);
    }
    if v >= 6 {
      var st :- d.DecodeU8();
      e := e.(userStatusSync := st != 0);
    }
    r := Success(e);
  }

  method DecodeUserBucketEntryFrom(d: Decoder) returns (r: Result<UserBucketEntry>)
    requires d.Valid()
    modifies d
    ensures d.Valid()
    ensures Agrees(r, d.offset, UserBucketEntryAt(d.data, old(d.offset)))
  {
    var e := EmptyEntry;
    var h :- d.DecodeStartLegacy(9, 5, 5);
    var s := d.DecodeString();
    if s.Failure? {
      return Failure(s.error);
    }
    if s.value != "" {
      return Failure(NotCompat);
    }
    var size :- d.DecodeU64();
    e := e.(size := size, sizeRounded := size);
    var skipped :- d.DecodeU32();
    e :- DecodeEntryFields(d, h.version, e);
    var fin := d.DecodeFinish(h.end);
    if fin.Failure? {
      return Failure(fin.error);
    }
    r := Success(e);
  }

  /** `DecodeUserBucketEntry`: an entry decoded from the start of the buffer. */
  method DecodeUserBucketEntry(data: seq<u8>) returns (r: Result<UserBucketEntry>)
    requires |data| < TWO_32
    ensures r == Value(UserBucketEntryAt(data, 0))
  {
    var d := new Decoder(data);
    r := DecodeUserBucketEntryFrom(d);
  }
}
