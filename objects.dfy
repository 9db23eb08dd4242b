/** The entities of object.go as values, and its pure helpers: `fromStr`, `getOID`,
    `needToEncodeInstance`. A Go zero value is written out as an `Empty...` constant. */
module Objects {
  import opened Ints
  import opened Text

  datatype PlacementRule = PlacementRule(name: string, storageClass: string)

  datatype Pool = Pool(name: string, ns: string)

  datatype DataPlacementTarget = DataPlacementTarget(dataPool: Pool, dataExtraPool: Pool, indexPool: Pool)

  datatype Bucket = Bucket(tenant: string, name: string, marker: string, bucketId: string,
                           explicitPlacement: DataPlacementTarget)

  datatype ObjKey = ObjKey(name: string, ns: string, instance: string)

  datatype Obj = Obj(bucket: Bucket, key: ObjKey, inExtraData: bool)

  /** One entry of a manifest's rule table. */
  datatype ManifestRule = ManifestRule(startPartNum: u32, startOfs: u64, partSize: u64,
                                       stripeMaxSize: u64, overridePrefix: string)

  datatype ManifestPart = ManifestPart(locOfs: u64, size: u64, loc: Obj)

  datatype BucketPlacement = BucketPlacement(placementRule: PlacementRule, bucket: Bucket)

  /** `RGWObjSelect` with the raw-object alternative left out (it is never populated). */
  datatype ObjSelect = ObjSelect(placementRule: PlacementRule, obj: Obj)

  /** The decoded fields of `RGWObjManifest` (its two iterators are in module Manifests).
      `maxHeadSize` is the source's `MaxHeapSize`. */
  datatype Manifest = Manifest(
    explicitObjs: bool,
    objSize: u64,
    headSize: u64,
    maxHeadSize: u64,
    prefix: string,
    tailInstance: string,
    objs: map<u64, ManifestPart>,
    rules: map<u64, ManifestRule>,
    tailPlacement: BucketPlacement,
    obj: Obj,
    headPlacementRule: PlacementRule)

  const EmptyPlacementRule := PlacementRule("", "")
  const EmptyPool := Pool("", "")
  const EmptyPlacementTarget := DataPlacementTarget(EmptyPool, EmptyPool, EmptyPool)
  const EmptyBucket := Bucket("", "", "", "", EmptyPlacementTarget)
  const EmptyKey := ObjKey("", "", "")
  const EmptyObj := Obj(EmptyBucket, EmptyKey, false)
  const EmptyRule := ManifestRule(0, 0, 0, 0, "")
  const EmptyObjSelect := ObjSelect(EmptyPlacementRule, EmptyObj)

  /** `RGWPlacementRule.fromStr`: split at the first '/'. */
  function FromStr(s: string): (r: PlacementRule)
    ensures '/' !in s ==> r == PlacementRule(s, "")
    ensures '/' in s ==> s == r.name + "/" + r.storageClass && '/' !in r.name
  {
    var pos := IndexOf(s, '/');
    if pos < 0 then PlacementRule(s, "")
    else
      assert s == s[..pos] + [s[pos]] + s[pos + 1..];
      PlacementRule(s[..pos], s[pos + 1..])
  }

  /** `needToEncodeInstance`: an instance other than "" and "null" is present. */
  predicate NeedToEncodeInstance(k: ObjKey) {
    k.instance != "" && k.instance != "null"
  }

  /** `RGWObjKey.getOID`, as written: the name stands alone (escaped with one '_' when it
      starts with '_') when the namespace is NON-empty and no instance is present;
      otherwise it is "_" + ns + (":" + instance, when present) + "_" + name. */
  function GetOid(k: ObjKey): (oid: string)
    ensures k.ns != "" && !NeedToEncodeInstance(k) && !(|k.name| > 0 && k.name[0] == '_') ==> oid == k.name
    ensures k.ns != "" && !NeedToEncodeInstance(k) && |k.name| > 0 && k.name[0] == '_' ==> oid == "_" + k.name
    ensures k.ns == "" || NeedToEncodeInstance(k) ==>
      oid == "_" + k.ns + (if NeedToEncodeInstance(k) then ":" + k.instance else "") + "_" + k.name
  {
    if k.ns != "" && !NeedToEncodeInstance(k) then
      if |k.name| < 1 || k.name[0] != '_' then k.name else "_" + k.name
    else
      var oid := "_" + k.ns;
      var oid := if NeedToEncodeInstance(k) then oid + ":" + k.instance else oid;
      oid + "_" + k.name
  }

  /** getOID is empty exactly for a bare empty name under a non-empty namespace. So the
      manifest's part-0 repair, guarded by `getOID() != "" && NS != ""`, fires for every
      key with a namespace except one with an empty name and no instance. */
  lemma {:induction false} GetOidEmpty(k: ObjKey)
    ensures GetOid(k) == "" <==> k.ns != "" && !NeedToEncodeInstance(k) && k.name == ""
    ensures GetOid(k) != "" && k.ns != "" <==> k.ns != "" && (k.name != "" || NeedToEncodeInstance(k))
  {
    var oid := GetOid(k);
    if !(k.ns != "" && !NeedToEncodeInstance(k)) {
      assert oid[0] == '_';
    } else if |k.name| > 0 && k.name[0] == '_' {
      assert |oid| == |k.name| + 1;
    }
  }
}
