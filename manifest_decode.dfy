/** The manifest decoder of object.go: the key/entry tables, the version-gated fields,
    the part-0 repair, and `decodeRGWObjManifest` itself, which ends by placing the
    begin and end iterators. */
module ManifestDecode {
  import opened Ints
  import opened Wire
  import opened Decode
  import opened Objects
  import opened Iteration
  import opened Manifests
  import opened ObjectDecode


  /** n pairs of a u64 key and an entry read by `parse`, each stored in `acc` under its
      key in the order read, so that a repeated key keeps the later entry. */
  function EntriesAt<T>(data: seq<u8>, pos: nat, n: nat, acc: map<u64, T>,
                        parse: (seq<u8>, nat) -> Result<Parsed<T>>): (r: Result<Parsed<map<u64, T>>>)
  {
    if n == 0 then Success(Parsed(acc, pos))
    else
      var prev :- EntriesAt(data, pos, n - 1, acc, parse);
      var e :- EntryAt(data, prev.next, parse);
      Success(Parsed(prev.value[e.value.0 := e.value.1], e.next))
  }

  /** Once the first k entries fail to read, so does the whole table, with the same
      error. */
  lemma {:induction false} EntriesFailFrom<T>(data: seq<u8>, pos: nat, k: nat, n: nat, acc: map<u64, T>,
                                              parse: (seq<u8>, nat) -> Result<Parsed<T>>)
    requires k <= n && EntriesAt(data, pos, k, acc, parse).Failure?
    ensures EntriesAt(data, pos, n, acc, parse) == EntriesAt(data, pos, k, acc, parse)
    decreases n
  {
    if k < n {
      EntriesFailFrom(data, pos, k, n - 1, acc, parse);
    }
  }

  /** One u64 key followed by one entry read by `parse`. */
  function EntryAt<T>(data: seq<u8>, pos: nat, parse: (seq<u8>, nat) -> Result<Parsed<T>>)
    : (r: Result<Parsed<(u64, T)>>)
  {
    var k :- U64At(data, pos);
    var e :- parse(data, k.next);
    Success(Parsed((k.value, e.value), e.next))
  }

  /** The fields a manifest has from version 4 on: the explicit-objects flag, the head
      object, the head size, the maximum head size, the prefix and the rule table. */
  function HeadFieldsAt(data: seq<u8>, pos: nat, m: Manifest): (r: Result<Parsed<Manifest>>)
  {
    var explicit :- BoolAt(data, pos);
    var obj :- ObjAt(data, explicit.next);
    var hs :- U64At(data, obj.next);
    var mhs :- U64At(data, hs.next);
    var prefix :- StringAt(data, mhs.next);
    var l :- U32At(data, prefix.next);
    var rules :- EntriesAt(data, l.next, l.value, m.rules, ManifestRuleAt);
    Success(Parsed(m.(explicitObjs := explicit.value, obj := obj.value, headSize := hs.value,
                      maxHeadSize := mhs.value, prefix := prefix.value, rules := rules.value), rules.next))
  }

  /** The part-0 repair: with explicit objects, a head and some parts, a part 0 whose
      object has a non-empty `getOID` and a namespace is replaced by the head object,
      with the head size as its size. An absent part 0 reads as the zero part. */
  function RepairPartZero(m: Manifest): Manifest {
    if m.explicitObjs && m.headSize > 0 && |m.objs| > 0 then
      var part0 := if 0 in m.objs then m.objs[0] else EmptyPart;
      if GetOid(part0.loc.key) != "" && part0.loc.key.ns != "" then
        m.(objs := m.objs[0 := part0.(loc := m.obj, size := m.headSize)])
      else m
    else m
  }

  /** The tail bucket from version 4: before version 6 always read; from version 6 read
      when a flag is set, otherwise the head object's bucket. */
  function TailPlacementAt(data: seq<u8>, pos: nat, v: u8, m: Manifest): (r: Result<Parsed<Manifest>>)
  {
    if v < 6 then
      var b :- BucketAt(data, pos);
      Success(Parsed(m.(tailPlacement := m.tailPlacement.(bucket := b.value)), b.next))
    else
      var flag :- BoolAt(data, pos);
      if flag.value then
        var b :- BucketAt(data, flag.next);
        Success(Parsed(m.(tailPlacement := m.tailPlacement.(bucket := b.value)), b.next))
      else Success(Parsed(m.(tailPlacement := m.tailPlacement.(bucket := m.obj.bucket)), flag.next))
  }

  /** The tail instance: read at version 5; from version 6 read when a flag is set;
      otherwise, and before version 5, the head object's instance. */
  function TailInstanceAt(data: seq<u8>, pos: nat, v: u8, m: Manifest): (r: Result<Parsed<Manifest>>)
  {
    if v >= 5 then
      if v < 6 then
        var ins :- StringAt(data, pos);
        Success(Parsed(m.(tailInstance := ins.value), ins.next))
      else
        var flag :- BoolAt(data, pos);
        if flag.value then
          var ins :- StringAt(data, flag.next);
          Success(Parsed(m.(tailInstance := ins.value), ins.next))
        else Success(Parsed(m.(tailInstance := m.obj.key.instance), flag.next))
    else Success(Parsed(m.(tailInstance := m.obj.key.instance), pos))
  }

  /** The head and tail placement rules, from version 7. */
  function PlacementRulesAt(data: seq<u8>, pos: nat, m: Manifest): (r: Result<Parsed<Manifest>>)
  {
    var hpr :- PlacementRuleAt(data, pos);
    var tpr :- PlacementRuleAt(data, hpr.next);
    Success(Parsed(m.(headPlacementRule := hpr.value,
                      tailPlacement := m.tailPlacement.(placementRule := tpr.value)), tpr.next))
  }

  /** The head half of `decodeRGWObjManifest` after its header: the object size, the
      parts, the version-4 fields and the part-0 repair. */
  function HeadHalfAt(data: seq<u8>, pos: nat, v: u8): (r: Result<Parsed<Manifest>>)
  {
    var size :- U64At(data, pos);
    var l :- U32At(data, size.next);
    var objs :- EntriesAt(data, l.next, l.value, EmptyManifest.objs, ManifestPartAt);
    var m1 := Parsed(EmptyManifest.(objSize := size.value, objs := objs.value), objs.next);
    var m2 :- if v > 3 then HeadFieldsAt(data, m1.next, m1.value) else Success(m1);
    Success(Parsed(RepairPartZero(m2.value), m2.next))
  }

  /** The tail half of `decodeRGWObjManifest`: the tail placement and instance and the
      placement rules. */
  function TailHalfAt(data: seq<u8>, pos: nat, v: u8, m: Manifest): (r: Result<Parsed<Manifest>>)
  {
    var m4 :- if v >= 4 then TailPlacementAt(data, pos, v, m) else Success(Parsed(m, pos));
    var m5 :- TailInstanceAt(data, m4.next, v, m4.value);
    if v >= 7 then PlacementRulesAt(data, m5.next, m5.value) else Success(m5)
  }

  /** `decodeRGWObjManifest`: a legacy header (7, 2, 2) and the two halves; then
      `updateIterators`, which fails on an empty rule table, and the struct end check. */
  function ManifestAt(data: seq<u8>, pos: nat): (r: Result<Parsed<Manifest>>)
  {
    var h :- StartLegacyAt(data, pos, 7, 2, 2);
    var head :- HeadHalfAt(data, h.next, h.value.version);
    var m :- TailHalfAt(data, head.next, h.value.version, head.value);
    if |m.value.rules| == 0 then Failure(NoRules)
    else Finish(h.value.end, m)
  }

  /** The source's decoded manifest: what ManifestAt describes, with its two iterators
      where `updateIterators` leaves them. */
  ghost predicate DecodedAs(r: Result<ObjManifest>, offset: nat, spec: Result<Parsed<Manifest>>)
    reads if r.Success? then {r.value, r.value.beginIter, r.value.endIter} else {}
  {
    match spec
    case Success(p) =>
      r.Success? && r.value.manifest == p.value && offset == p.next && r.value.IteratorsAtEnds()
    case Failure(e) => r == Failure(e)
  }

  method DecodeManifest(d: Decoder) returns (r: Result<ObjManifest>)
    requires d.Valid()
    modifies d
    ensures d.Valid()
    ensures r.Success? ==> fresh(r.value) && fresh(r.value.beginIter) && fresh(r.value.endIter)
    ensures DecodedAs(r, d.offset, ManifestAt(d.data, old(d.offset)))
  {
    var h :- d.DecodeStartLegacy(7, 2, 2);
    var m :- DecodeHeadHalf(d, h.version);
    m :- DecodeTailHalf(d, h.version, m);
    r := FinishManifest(d, h.end, m);
  }

  /** The last statements of `decodeRGWObjManifest`: `updateIterators`, which needs a
      rule, then `decodeFinish`. */
  method FinishManifest(d: Decoder, structEnd: nat, m: Manifest) returns (r: Result<ObjManifest>)
    requires d.Valid()
    modifies d
    ensures d.Valid()
    ensures r.Success? ==> fresh(r.value) && fresh(r.value.beginIter) && fresh(r.value.endIter)
    ensures DecodedAs(r, d.offset,
      if |m.rules| == 0 then Failure(NoRules) else Finish(structEnd, Parsed(m, old(d.offset))))
  {
    if |m.rules| == 0 {
      return Failure(NoRules);
    }
    var manifest := new ObjManifest(m);
    var fin := d.DecodeFinish(structEnd);
    if fin.Failure? {
      return Failure(fin.error);
    }
    r := Success(manifest);
  }

  /** The statements of `decodeRGWObjManifest` that HeadHalfAt describes. */
  method DecodeHeadHalf(d: Decoder, v: u8) returns (r: Result<Manifest>)
    requires d.Valid()
    modifies d
    ensures d.Valid()
    ensures Agrees(r, d.offset, HeadHalfAt(d.data, old(d.offset), v))
  {
    var m := EmptyManifest;
    var objSize :- d.DecodeU64();
    m := m.(objSize := objSize);
    var l :- d.DecodeU32();
    var objs :- DecodeParts(d, l, m.objs);
    m := m.(objs := objs);
    if v > 3 {
      m :- DecodeHeadFields(d, m);
    }
    m := RepairPartZero(m);
    r := Success(m);
  }

  /** The statements of `decodeRGWObjManifest` that TailHalfAt describes. */
  method DecodeTailHalf(d: Decoder, v: u8, m: Manifest) returns (r: Result<Manifest>)
    requires d.Valid()
    modifies d
    ensures d.Valid()
    ensures Agrees(r, d.offset, TailHalfAt(d.data, old(d.offset), v, m))
  {
    var m := m;
    if v >= 4 {
      m :- DecodeTailPlacement(d, v, m);
    }
    m :- DecodeTailInstance(d, v, m);
    if v >= 7 {
      m :- DecodePlacementRules(d, m);
    }
    r := Success(m);
  }

  /** A part-table entry: its key, then the part. */
  method DecodePartEntry(d: Decoder) returns (r: Result<(u64, ManifestPart)>)
    requires d.Valid()
    modifies d
    ensures d.Valid()
    ensures Agrees(r, d.offset, EntryAt(d.data, old(d.offset), ManifestPartAt))
  {
    var k :- d.DecodeU64();
    var part :- DecodeManifestPart(d);
    r := Success((k, part));
  }

  /** A rule-table entry: its key, then the rule. */
  method DecodeRuleEntry(d: Decoder) returns (r: Result<(u64, ManifestRule)>)
    requires d.Valid()
    modifies d
    ensures d.Valid()
    ensures Agrees(r, d.offset, EntryAt(d.data, old(d.offset), ManifestRuleAt))
  {
    var k :- d.DecodeU64();
    var rule :- DecodeManifestRule(d);
    r := Success((k, rule));
  }

  /** The loop over the parts of `decodeRGWObjManifest`. */
  method DecodeParts(d: Decoder, n: u32, acc: map<u64, ManifestPart>)
    returns (r: Result<map<u64, ManifestPart>>)
    requires d.Valid()
    modifies d
    ensures d.Valid()
    ensures Agrees(r, d.offset, EntriesAt(d.data, old(d.offset), n as nat, acc, ManifestPartAt))
  {
    var objs: map<u64, ManifestPart> := acc;
    var i: u32 := 0;
    while i < n
      invariant i <= n && d.Valid()
      invariant EntriesAt(d.data, old(d.offset), i as nat, acc, ManifestPartAt) == Success(Parsed(objs, d.offset as nat))
    {
      var e := DecodePartEntry(d);
      if e.Failure? {
        EntriesFailFrom(d.data, old(d.offset), i as nat + 1, n as nat, acc, ManifestPartAt);
        return Failure(e.error);
      }
      objs := objs[e.value.0 := e.value.1];
      i := i + 1;
    }
    r := Success(objs);
  }

  /** The loop over the rules of `decodeRGWObjManifest`. */
  method DecodeRules(d: Decoder, n: u32, acc: map<u64, ManifestRule>)
    returns (r: Result<map<u64, ManifestRule>>)
    requires d.Valid()
    modifies d
    ensures d.Valid()
    ensures Agrees(r, d.offset, EntriesAt(d.data, old(d.offset), n as nat, acc, ManifestRuleAt))
  {
    var rules: map<u64, ManifestRule> := acc;
    var i: u32 := 0;
    while i < n
      invariant i <= n && d.Valid()
      invariant EntriesAt(d.data, old(d.offset), i as nat, acc, ManifestRuleAt) == Success(Parsed(rules, d.offset as nat))
    {
      var e := DecodeRuleEntry(d);
      if e.Failure? {
        EntriesFailFrom(d.data, old(d.offset), i as nat + 1, n as nat, acc, ManifestRuleAt);
        return Failure(e.error);
      }
      rules := rules[e.value.0 := e.value.1];
      i := i + 1;
    }
    r := Success(rules);
  }

  /** The version-4 fields of `decodeRGWObjManifest`, with the loop over the rules. */
  method DecodeHeadFields(d: Decoder, m: Manifest) returns (r: Result<Manifest>)
    requires d.Valid()
    modifies d
    ensures d.Valid()
    ensures Agrees(r, d.offset, HeadFieldsAt(d.data, old(d.offset), m))
  {
    var m := m;
    var explicit :- d.DecodeBool();
    m := m.(explicitObjs := explicit);
    var obj :- DecodeObj(d);
    m := m.(obj := obj);
    var hs :- d.DecodeU64();
    m := m.(headSize := hs);
    var mhs :- d.DecodeU64();
    m := m.(maxHeadSize := mhs);
    var prefix :- d.DecodeString();
    m := m.(prefix := prefix);
    var l :- d.DecodeU32();
    var rules :- DecodeRules(d, l, m.rules);
    m := m.(rules := rules);
    r := Success(m);
  }

  /** The tail-bucket reads of `decodeRGWObjManifest`. */
  method DecodeTailPlacement(d: Decoder, v: u8, m: Manifest) returns (r: Result<Manifest>)
    requires d.Valid()
    modifies d
    ensures d.Valid()
    ensures Agrees(r, d.offset, TailPlacementAt(d.data, old(d.offset), v, m))
  {
    var m := m;
    if v < 6 {
      var bucket :- DecodeBucket(d);
      m := m.(tailPlacement := m.tailPlacement.(bucket := bucket));
    } else {
      var flag :- d.DecodeBool();
      if flag {
        var bucket :- DecodeBucket(d);
        m := m.(tailPlacement := m.tailPlacement.(bucket := bucket));
      } else {
        m := m.(tailPlacement := m.tailPlacement.(bucket := m.obj.bucket));
      }
    }
    r := Success(m);
  }

  /** The tail-instance reads of `decodeRGWObjManifest`. */
  method DecodeTailInstance(d: Decoder, v: u8, m: Manifest) returns (r: Result<Manifest>)
    requires d.Valid()
    modifies d
    ensures d.Valid()
    ensures Agrees(r, d.offset, TailInstanceAt(d.data, old(d.offset), v, m))
  {
    var m := m;
    if v >= 5 {
      if v < 6 {
        var ins :- d.DecodeString();
        m := m.(tailInstance := ins);
      } else {
        var flag :- d.DecodeBool();
        if flag {
          var ins :- d.DecodeString();
          m := m.(tailInstance := ins);
        } else {
          m := m.(tailInstance := m.obj.key.instance);
        }
      }
    } else {
      m := m.(tailInstance := m.obj.key.instance);
    }
    r := Success(m);
  }

  /** The placement-rule reads of `decodeRGWObjManifest`. */
  method DecodePlacementRules(d: Decoder, m: Manifest) returns (r: Result<Manifest>)
    requires d.Valid()
    modifies d
    ensures d.Valid()
    ensures Agrees(r, d.offset, PlacementRulesAt(d.data, old(d.offset), m))
  {
    var m := m;
    var hpr :- DecodePlacementRule(d);
    m := m.(headPlacementRule := hpr);
    var tpr :- DecodePlacementRule(d);
    m := m.(tailPlacement := m.tailPlacement.(placementRule := tpr));
    r := Success(m);
  }

  /** `DecodeRGWObjManifest`: a manifest decoded from the start of the buffer. */
  method DecodeRGWObjManifest(data: seq<u8>) returns (r: Result<ObjManifest>)
    requires |data| < TWO_32
    ensures r.Success? ==> fresh(r.value) && fresh(r.value.beginIter) && fresh(r.value.endIter)
    ensures var spec := ManifestAt(data, 0);
      DecodedAs(r, if spec.Success? then spec.value.next else 0, spec)
  {
    var d := new Decoder(data);
    r := DecodeManifest(d);
  }
}
