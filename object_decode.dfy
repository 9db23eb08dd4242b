/** The struct decoders of object.go. For each struct, `XAt(data, pos)` states what the
    version-gated field sequence yields when read from `pos`, and `DecodeX(d)` is the
    source's decoder, which reads the same fields from the shared `Decoder` one after
    the other and is proved to agree with `XAt`. */
module ObjectDecode {
  import opened Ints
  import opened Text
  import opened Wire
  import opened Decode
  import opened Objects

  const EmptyPart := ManifestPart(0, 0, EmptyObj)
  const EmptyBucketPlacement := BucketPlacement(EmptyPlacementRule, EmptyBucket)
  const EmptyManifest := Manifest(false, 0, 0, 0, "", "", map[], map[], EmptyBucketPlacement,
                                  EmptyObj, EmptyPlacementRule)

  function WithDataPoolName(b: Bucket, name: string): Bucket {
    b.(explicitPlacement := b.explicitPlacement.(dataPool := b.explicitPlacement.dataPool.(name := name)))
  }

  function WithExtraPoolName(b: Bucket, name: string): Bucket {
    b.(explicitPlacement := b.explicitPlacement.(dataExtraPool := b.explicitPlacement.dataExtraPool.(name := name)))
  }

  function WithIndexPool(b: Bucket, p: Pool): Bucket {
    b.(explicitPlacement := b.explicitPlacement.(indexPool := p))
  }

  // ---------------------------------------------------------------------------------
  // RGWPlacementRule

  /** `decodeRGWPlacementRule`: a string, split by `fromStr`. */
  function PlacementRuleAt(data: seq<u8>, pos: nat): (r: Result<Parsed<PlacementRule>>)
    ensures r.Failure? ==> r.error == Truncated
  {
    var s :- StringAt(data, pos);
    Success(Parsed(FromStr(s.value), s.next))
  }

  method DecodePlacementRule(d: Decoder) returns (r: Result<PlacementRule>)
    requires d.Valid()
    modifies d
    ensures d.Valid()
    ensures Agrees(r, d.offset, PlacementRuleAt(d.data, old(d.offset)))
  {
    var s :- d.DecodeString();
    r := Success(FromStr(s));
  }

  // ---------------------------------------------------------------------------------
  // RGWObjKey

  /** `decodeRGWObjKey`: a `decodeStart(2)` header, the name, the instance, and the
      namespace from version 2 on. The struct end is never checked. */
  function ObjKeyAt(data: seq<u8>, pos: nat): (r: Result<Parsed<ObjKey>>)
  {
    var h :- StartAt(data, pos, 2);
    var name :- StringAt(data, h.next);
    var instance :- StringAt(data, name.next);
    if h.value.version >= 2 then
      var ns :- StringAt(data, instance.next);
      Success(Parsed(ObjKey(name.value, ns.value, instance.value), ns.next))
    else
      Success(Parsed(ObjKey(name.value, "", instance.value), instance.next))
  }

  method DecodeObjKey(d: Decoder) returns (r: Result<ObjKey>)
    requires d.Valid()
    modifies d
    ensures d.Valid()
    ensures Agrees(r, d.offset, ObjKeyAt(d.data, old(d.offset)))
  {
    var k := EmptyKey;
    var h :- d.DecodeStart(2);
    var name :- d.DecodeString();
    k := k.(name := name);
    var instance :- d.DecodeString();
    k := k.(instance := instance);
    if h.version >= 2 {
      var ns :- d.DecodeString();
      k := k.(ns := ns);
    }
    r := Success(k);
  }

  // ---------------------------------------------------------------------------------
  // RGWPool

  /** `decodeRGWPool`: a legacy header (10, 3, 3), the name, the namespace. */
  function PoolAt(data: seq<u8>, pos: nat): (r: Result<Parsed<Pool>>)
  {
    var h :- StartLegacyAt(data, pos, 10, 3, 3);
    var name :- StringAt(data, h.next);
    var ns :- StringAt(data, name.next);
    Finish(h.value.end, Parsed(Pool(name.value, ns.value), ns.next))
  }

  method DecodePool(d: Decoder) returns (r: Result<Pool>)
    requires d.Valid()
    modifies d
    ensures d.Valid()
    ensures Agrees(r, d.offset, PoolAt(d.data, old(d.offset)))
  {
    var p := EmptyPool;
    var h :- d.DecodeStartLegacy(10, 3, 3);
    var name :- d.DecodeString();
    p := p.(name := name);
    var ns :- d.DecodeString();
    p := p.(ns := ns);
    var fin := d.DecodeFinish(h.end);
    if fin.Failure? {
      return Failure(fin.error);
    }
    r := Success(p);
  }

  // ---------------------------------------------------------------------------------
  // RGWBucket

  /** The marker and bucket id of a bucket from version 2 on: the id is a u64 printed in
      decimal up to version 3, a string from version 4. */
  function BucketIdsAt(data: seq<u8>, pos: nat, v: u8, b: Bucket): (r: Result<Parsed<Bucket>>)
  {
    var mk :- StringAt(data, pos);
    var id :- if v <= 3 then
        var n :- U64At(data, mk.next);
        Success(Parsed(Decimal(n.value), n.next))
      else StringAt(data, mk.next);
    Success(Parsed(b.(marker := mk.value, bucketId := id.value), id.next))
  }

  /** The pool names of a bucket before version 10: from version 5 the data pool's name
      is read again (the earlier read is overwritten), before it the index pool is a
      copy of the data pool; from version 7 the extra pool's name follows. */
  function LegacyPoolsAt(data: seq<u8>, pos: nat, v: u8, b: Bucket): (r: Result<Parsed<Bucket>>)
  {
    var p :- if v >= 5 then
        var n :- StringAt(data, pos);
        Success(Parsed(WithDataPoolName(b, n.value), n.next))
      else Success(Parsed(WithIndexPool(b, b.explicitPlacement.dataPool), pos));
    if v >= 7 then
      var n :- StringAt(data, p.next);
      Success(Parsed(WithExtraPoolName(p.value, n.value), n.next))
    else Success(p)
  }

  /** The explicit placement of a bucket from version 10: a flag, and when it is set the
      data, extra and index pools in that order. */
  function ExplicitPoolsAt(data: seq<u8>, pos: nat, b: Bucket): (r: Result<Parsed<Bucket>>)
  {
    var flag :- BoolAt(data, pos);
    if flag.value then
      var dp :- PoolAt(data, flag.next);
      var ep :- PoolAt(data, dp.next);
      var ip :- PoolAt(data, ep.next);
      Success(Parsed(b.(explicitPlacement := DataPlacementTarget(dp.value, ep.value, ip.value)), ip.next))
    else Success(Parsed(b, flag.next))
  }

  /** `decodeRGWBucket`: a legacy header (10, 3, 3), then the fields of each version. */
  function BucketAt(data: seq<u8>, pos: nat): (r: Result<Parsed<Bucket>>)
  {
    var h :- StartLegacyAt(data, pos, 10, 3, 3);
    var v := h.value.version;
    var name :- StringAt(data, h.next);
    var b1 := Parsed(EmptyBucket.(name := name.value), name.next);
    var b2 :- if v < 10 then
        var pname :- StringAt(data, b1.next);
        Success(Parsed(WithDataPoolName(b1.value, pname.value), pname.next))
      else Success(b1);
    var b3 :- if v >= 2 then BucketIdsAt(data, b2.next, v, b2.value) else Success(b2);
    var b4 :- if v < 10 then LegacyPoolsAt(data, b3.next, v, b3.value) else Success(b3);
    var b5 :- if v >= 8 then
        var tenant :- StringAt(data, b4.next);
        Success(Parsed(b4.value.(tenant := tenant.value), tenant.next))
      else Success(b4);
    var b6 :- if v >= 10 then ExplicitPoolsAt(data, b5.next, b5.value) else Success(b5);
    Finish(h.value.end, b6)
  }

  method DecodeBucket(d: Decoder) returns (r: Result<Bucket>)
    requires d.Valid()
    modifies d
    ensures d.Valid()
    ensures Agrees(r, d.offset, BucketAt(d.data, old(d.offset)))
  {
    var b := EmptyBucket;
    var h :- d.DecodeStartLegacy(10, 3, 3);
    var v := h.version;
    var name :- d.DecodeString();
    b := b.(name := name);
    if v < 10 {
      var pname :- d.DecodeString();
      b := WithDataPoolName(b, pname);
    }
    if v >= 2 {
      b :- DecodeBucketIds(d, v, b);
    }
    if v < 10 {
      b :- DecodeLegacyPools(d, v, b);
    }
    if v >= 8 {
      var tenant :- d.DecodeString();
      b := b.(tenant := tenant);
    }
    if v >= 10 {
      b :- DecodeExplicitPools(d, b);
    }
    var fin := d.DecodeFinish(h.end);
    if fin.Failure? {
      return Failure(fin.error);
    }
    r := Success(b);
  }

  /** The marker and bucket-id reads of `decodeRGWBucket`. */
  method DecodeBucketIds(d: Decoder, v: u8, b: Bucket) returns (r: Result<Bucket>)
    requires d.Valid()
    modifies d
    ensures d.Valid()
    ensures Agrees(r, d.offset, BucketIdsAt(d.data, old(d.offset), v, b))
  {
    var mk :- d.DecodeString();
    var b := b.(marker := mk);
    if v <= 3 {
      var id :- d.DecodeU64();
      b := b.(bucketId := Decimal(id));
    } else {
      var bid :- d.DecodeString();
      b := b.(bucketId := bid);
    }
    r := Success(b);
  }

  /** The pre-version-10 pool reads of `decodeRGWBucket`. */
  method DecodeLegacyPools(d: Decoder, v: u8, b: Bucket) returns (r: Result<Bucket>)
    requires d.Valid()
    modifies d
    ensures d.Valid()
    ensures Agrees(r, d.offset, LegacyPoolsAt(d.data, old(d.offset), v, b))
  {
    var b := b;
    if v >= 5 {
      var pname :- d.DecodeString();
      b := WithDataPoolName(b, pname);
    } else {
      b := WithIndexPool(b, b.explicitPlacement.dataPool);
    }
    if v >= 7 {
      var ename :- d.DecodeString();
      b := WithExtraPoolName(b, ename);
    }
    r := Success(b);
  }

  /** The version-10 explicit placement reads of `decodeRGWBucket`. */
  method DecodeExplicitPools(d: Decoder, b: Bucket) returns (r: Result<Bucket>)
    requires d.Valid()
    modifies d
    ensures d.Valid()
    ensures Agrees(r, d.offset, ExplicitPoolsAt(d.data, old(d.offset), b))
  {
    var b := b;
    var decodeExplicit :- d.DecodeBool();
    if decodeExplicit {
      var dataPool :- DecodePool(d);
      b := b.(explicitPlacement := b.explicitPlacement.(dataPool := dataPool));
      var extraPool :- DecodePool(d);
      b := b.(explicitPlacement := b.explicitPlacement.(dataExtraPool := extraPool));
      var indexPool :- DecodePool(d);
      b := b.(explicitPlacement := b.explicitPlacement.(indexPool := indexPool));
    }
    r := Success(b);
  }

  // ---------------------------------------------------------------------------------
  // RGWObj

  /** The fields of an object before version 6: bucket name, a skipped string,
      namespace, key name; from version 2 a whole bucket (replacing the name read before);
      from version 4 the instance. Then the key name is fixed up: without namespace and
      instance one leading '_' is dropped; otherwise from version 5 the name is read again,
      and before version 5 it is cut after its first '_', which must be present. */
  function LegacyObjAt(data: seq<u8>, pos: nat, v: u8): (r: Result<Parsed<Obj>>)
  {
    var bname :- StringAt(data, pos);
    var skipped :- StringAt(data, bname.next);
    var ns :- StringAt(data, skipped.next);
    var kname :- StringAt(data, ns.next);
    var o1 := Parsed(EmptyObj.(bucket := EmptyBucket.(name := bname.value),
                               key := EmptyKey.(ns := ns.value, name := kname.value)), kname.next);
    var o2 :- if v >= 2 then
        var b :- BucketAt(data, o1.next);
        Success(Parsed(o1.value.(bucket := b.value), b.next))
      else Success(o1);
    var o3 :- if v >= 4 then
        var ins :- StringAt(data, o2.next);
        Success(Parsed(o2.value.(key := o2.value.key.(instance := ins.value)), ins.next))
      else Success(o2);
    LegacyNameAt(data, o3.next, v, o3.value)
  }

  /** The key-name fix-up at the end of the legacy layout of `decodeRGWObj`. */
  function LegacyNameAt(data: seq<u8>, pos: nat, v: u8, o: Obj): (r: Result<Parsed<Obj>>)
  {
    var key := o.key;
    if key.ns == "" && key.instance == "" then
      Success(Parsed(o.(key := key.(name := TrimPrefix(key.name, '_'))), pos))
    else if v >= 5 then
      var n :- StringAt(data, pos);
      Success(Parsed(o.(key := key.(name := n.value)), n.next))
    else
      var i := IndexOf(key.name, '_');
      if i < 0 then Failure(Past)
      else Success(Parsed(o.(key := key.(name := key.name[i + 1..])), pos))
  }

  /** `decodeRGWObj`: a legacy header (6, 3, 3); before version 6 the legacy layout,
      from version 6 a bucket, the namespace, the name and the instance. */
  function ObjAt(data: seq<u8>, pos: nat): (r: Result<Parsed<Obj>>)
  {
    var h :- StartLegacyAt(data, pos, 6, 3, 3);
    var v := h.value.version;
    var o :- if v < 6 then LegacyObjAt(data, h.next, v)
      else
        var b :- BucketAt(data, h.next);
        var ns :- StringAt(data, b.next);
        var name :- StringAt(data, ns.next);
        var ins :- StringAt(data, name.next);
        Success(Parsed(Obj(b.value, ObjKey(name.value, ns.value, ins.value), false), ins.next));
    Finish(h.value.end, o)
  }

  method DecodeObj(d: Decoder) returns (r: Result<Obj>)
    requires d.Valid()
    modifies d
    ensures d.Valid()
    ensures Agrees(r, d.offset, ObjAt(d.data, old(d.offset)))
  {
    var o := EmptyObj;
    var h :- d.DecodeStartLegacy(6, 3, 3);
    var v := h.version;
    if v < 6 {
      o :- DecodeLegacyObj(d, v);
    } else {
      var bucket :- DecodeBucket(d);
      o := o.(bucket := bucket);
      var ns :- d.DecodeString();
      o := o.(key := o.key.(ns := ns));
      var keyName :- d.DecodeString();
      o := o.(key := o.key.(name := keyName));
      var ins :- d.DecodeString();
      o := o.(key := o.key.(instance := ins));
    }
    var fin := d.DecodeFinish(h.end);
    if fin.Failure? {
      return Failure(fin.error);
    }
    r := Success(o);
  }

  /** The pre-version-6 branch of `decodeRGWObj`. */
  method DecodeLegacyObj(d: Decoder, v: u8) returns (r: Result<Obj>)
    requires d.Valid()
    modifies d
    ensures d.Valid()
    ensures Agrees(r, d.offset, LegacyObjAt(d.data, old(d.offset), v))
  {
    var o := EmptyObj;
    var name :- d.DecodeString();
    o := o.(bucket := o.bucket.(name := name));
    var _ :- d.DecodeString();
    var ns :- d.DecodeString();
    o := o.(key := o.key.(ns := ns));
    var keyName :- d.DecodeString();
    o := o.(key := o.key.(name := keyName));
    if v >= 2 {
      var bucket :- DecodeBucket(d);
      o := o.(bucket := bucket);
    }
    if v >= 4 {
      var ins :- d.DecodeString();
      o := o.(key := o.key.(instance := ins));
    }
    r := DecodeLegacyName(d, v, o);
  }

  /** The key-name fix-up of the legacy layout. */
  method DecodeLegacyName(d: Decoder, v: u8, o: Obj) returns (r: Result<Obj>)
    requires d.Valid()
    modifies d
    ensures d.Valid()
    ensures Agrees(r, d.offset, LegacyNameAt(d.data, old(d.offset), v, o))
  {
    var o := o;
    if o.key.ns == "" && o.key.instance == "" {
      o := o.(key := o.key.(name := TrimPrefix(o.key.name, '_')));
    } else {
      if v >= 5 {
        var n :- d.DecodeString();
        o := o.(key := o.key.(name := n));
      } else {
        var i := IndexOf(o.key.name, '_');
        if i < 0 {
          return Failure(Past);
        }
        o := o.(key := o.key.(name := o.key.name[i + 1..]));
      }
    }
    r := Success(o);
  }

  // ---------------------------------------------------------------------------------
  // RGWObjManifestRule and RGWObjManifestPart

  /** `decodeRGWObjManifestRule`: a `decodeStart(2)` header, the first part number, the
      start offset, the part size, the stripe size, and the override prefix from
      version 2 on. */
  function ManifestRuleAt(data: seq<u8>, pos: nat): (r: Result<Parsed<ManifestRule>>)
  {
    var h :- StartAt(data, pos, 2);
    var spn :- U32At(data, h.next);
    var startOfs :- U64At(data, spn.next);
    var ps :- U64At(data, startOfs.next);
    var sms :- U64At(data, ps.next);
    var rule := ManifestRule(spn.value, startOfs.value, ps.value, sms.value, "");
    var p :- if h.value.version >= 2 then
        var op :- StringAt(data, sms.next);
        Success(Parsed(rule.(overridePrefix := op.value), op.next))
      else Success(Parsed(rule, sms.next));
    Finish(h.value.end, p)
  }

  method DecodeManifestRule(d: Decoder) returns (r: Result<ManifestRule>)
    requires d.Valid()
    modifies d
    ensures d.Valid()
    ensures Agrees(r, d.offset, ManifestRuleAt(d.data, old(d.offset)))
  {
    var rule := EmptyRule;
    var h :- d.DecodeStart(2);
    var spn :- d.DecodeU32();
    rule := rule.(startPartNum := spn);
    var startOfs :- d.DecodeU64();
    rule := rule.(startOfs := startOfs);
    var ps :- d.DecodeU64();
    rule := rule.(partSize := ps);
    var sms :- d.DecodeU64();
    rule := rule.(stripeMaxSize := sms);
    if h.version >= 2 {
      var op :- d.DecodeString();
      rule := rule.(overridePrefix := op);
    }
    var fin := d.DecodeFinish(h.end);
    if fin.Failure? {
      return Failure(fin.error);
    }
    r := Success(rule);
  }

  /** `decodeRGWObjManifestPart`: a legacy header (2, 2, 2), the object, its offset and
      its size. */
  function ManifestPartAt(data: seq<u8>, pos: nat): (r: Result<Parsed<ManifestPart>>)
  {
    var h :- StartLegacyAt(data, pos, 2, 2, 2);
    var loc :- ObjAt(data, h.next);
    var locOfs :- U64At(data, loc.next);
    var size :- U64At(data, locOfs.next);
    Finish(h.value.end, Parsed(ManifestPart(locOfs.value, size.value, loc.value), size.next))
  }

  method DecodeManifestPart(d: Decoder) returns (r: Result<ManifestPart>)
    requires d.Valid()
    modifies d
    ensures d.Valid()
    ensures Agrees(r, d.offset, ManifestPartAt(d.data, old(d.offset)))
  {
    var part := EmptyPart;
    var h :- d.DecodeStartLegacy(2, 2, 2);
    var robj :- DecodeObj(d);
    part := part.(loc := robj);
    var locOfs :- d.DecodeU64();
    part := part.(locOfs := locOfs);
    var size :- d.DecodeU64();
    part := part.(size := size);
    var fin := d.DecodeFinish(h.end);
    if fin.Failure? {
      return Failure(fin.error);
    }
    r := Success(part);
  }
}
