/** Reference encoders for the structs of object.go, written the way the cluster lays
    them out (a version/compat/length header, then the fields in decode order), and the
    round trips that show each decoder recovers what its encoder wrote, whatever bytes
    follow. */
module Codec {
  import opened Ints
  import opened Text
  import opened Wire
  import opened Objects
  import opened ObjectDecode

  /** A string the wire format can carry: bytes only, with a u32 length. */
  predicate Encodable(s: string) {
    IsByteString(s) && |s| < TWO_32
  }

  // ---------------------------------------------------------------------------------
  // Encodings laid out in a buffer

  /** `e` sits in `data` at `pos`. */
  predicate Holds(data: seq<u8>, pos: nat, e: seq<u8>) {
    pos + |e| <= |data| && data[pos..pos + |e|] == e
  }

  lemma HoldsPrefix(x: seq<u8>, rest: seq<u8>)
    ensures Holds(x + rest, 0, x)
  {
    assert (x + rest)[..|x|] == x;
  }

  lemma Split(data: seq<u8>, pos: nat, x: seq<u8>, y: seq<u8>)
    requires Holds(data, pos, x + y)
    ensures Holds(data, pos, x) && Holds(data, pos + |x|, y)
  {
    assert data[pos..pos + |x|] == (x + y)[..|x|];
    assert data[pos + |x|..pos + |x| + |y|] == (x + y)[|x|..];
  }

  /** Split, with the position of the second part named. */
  lemma SplitAt(data: seq<u8>, pos: nat, x: seq<u8>, y: seq<u8>, mid: nat)
    requires Holds(data, pos, x + y) && mid == pos + |x|
    ensures Holds(data, pos, x) && Holds(data, mid, y)
  {
    Split(data, pos, x, y);
  }

  /** An encoded string read back where it sits. */
  lemma StringHolds(data: seq<u8>, pos: nat, s: string, next: nat)
    requires Encodable(s) && Holds(data, pos, EncodeString(s)) && next == pos + 4 + |s|
    ensures StringAt(data, pos) == Success(Parsed(s, next))
  {
    StringAtEncoded(data, pos, s);
  }

  /** An encoded string read back where it sits, and what follows it. */
  lemma StringThen(data: seq<u8>, pos: nat, s: string, rest: seq<u8>, next: nat)
    requires Encodable(s) && Holds(data, pos, EncodeString(s) + rest) && next == pos + 4 + |s|
    ensures StringAt(data, pos) == Success(Parsed(s, next))
    ensures Holds(data, next, rest)
  {
    Split(data, pos, EncodeString(s), rest);
    StringAtEncoded(data, pos, s);
  }

  /** An encoded u32 read back where it sits, and what follows it. */
  lemma U32Then(data: seq<u8>, pos: nat, x: u32, rest: seq<u8>, next: nat)
    requires Holds(data, pos, EncodeU32(x) + rest) && next == pos + 4
    ensures U32At(data, pos) == Success(Parsed(x, next))
    ensures Holds(data, next, rest)
  {
    Split(data, pos, EncodeU32(x), rest);
    U32AtEncoded(data, pos, x);
  }

  /** An encoded u64 read back where it sits, and what follows it. */
  lemma U64Then(data: seq<u8>, pos: nat, x: u64, rest: seq<u8>, next: nat)
    requires Holds(data, pos, EncodeU64(x) + rest) && next == pos + 8
    ensures U64At(data, pos) == Success(Parsed(x, next))
    ensures Holds(data, next, rest)
  {
    Split(data, pos, EncodeU64(x), rest);
    U64AtEncoded(data, pos, x);
  }

  // ---------------------------------------------------------------------------------
  // RGWPlacementRule

  /** The string form `fromStr` splits: the name, then "/" and the storage class when
      there is one. */
  function ToStr(r: PlacementRule): string {
    if r.storageClass == "" then r.name else r.name + "/" + r.storageClass
  }

  /** fromStr inverts ToStr for every rule whose name has no '/'. */
  lemma FromStrToStr(r: PlacementRule)
    requires '/' !in r.name
    ensures FromStr(ToStr(r)) == r
  {
    var s := ToStr(r);
    if r.storageClass != "" {
      assert s[|r.name|] == '/';
      var q := FromStr(s);
      assert q.name == s[..|q.name|] == r.name;
      assert q.storageClass == s[|q.name| + 1..] == r.storageClass;
    }
  }

  /** ToStr inverts fromStr except on a string whose first '/' is its last character,
      where the empty storage class drops the '/'. */
  lemma ToStrFromStr(s: string)
    ensures ToStr(FromStr(s)) == s || s == FromStr(s).name + "/"
  {}

  /** A placement rule as `decodeRGWPlacementRule` reads it. */
  function EncodePlacementRule(r: PlacementRule): seq<u8>
    requires Encodable(ToStr(r))
  {
    EncodeString(ToStr(r))
  }

  lemma PlacementRuleRoundTrip(r: PlacementRule, rest: seq<u8>)
    requires '/' !in r.name && Encodable(ToStr(r))
    ensures PlacementRuleAt(EncodePlacementRule(r) + rest, 0)
         == Success(Parsed(r, |EncodePlacementRule(r)|))
  {
    HoldsPrefix(EncodePlacementRule(r), rest);
    StringAtEncoded(EncodePlacementRule(r) + rest, 0, ToStr(r));
    FromStrToStr(r);
  }

  // ---------------------------------------------------------------------------------
  // RGWPool

  function PoolBody(p: Pool): seq<u8>
    requires Encodable(p.name) && Encodable(p.ns)
  {
    EncodeString(p.name) + EncodeString(p.ns)
  }

  /** A pool at version 10, the newest `decodeRGWPool` accepts. */
  function EncodePool(p: Pool): seq<u8>
    requires Encodable(p.name) && Encodable(p.ns) && |PoolBody(p)| < TWO_32
  {
    EncodeStart(10, 3, |PoolBody(p)|) + PoolBody(p)
  }

  lemma PoolRoundTrip(p: Pool, rest: seq<u8>)
    requires Encodable(p.name) && Encodable(p.ns) && |PoolBody(p)| < TWO_32
    ensures PoolAt(EncodePool(p) + rest, 0) == Success(Parsed(p, |EncodePool(p)|))
  {
    var hdr := EncodeStart(10, 3, |PoolBody(p)|);
    var data := EncodePool(p) + rest;
    HoldsPrefix(EncodePool(p), rest);
    Split(data, 0, hdr, PoolBody(p));
    StartLegacyAtEncoded(data, 0, 10, 3, 3, 10, 3, |PoolBody(p)|);
    Split(data, 6, EncodeString(p.name), EncodeString(p.ns));
    StringAtEncoded(data, 6, p.name);
    StringAtEncoded(data, 10 + |p.name|, p.ns);
  }

  // ---------------------------------------------------------------------------------
  // RGWObjKey

  function ObjKeyBody(k: ObjKey): seq<u8>
    requires Encodable(k.name) && Encodable(k.instance) && Encodable(k.ns)
  {
    EncodeString(k.name) + (EncodeString(k.instance) + EncodeString(k.ns))
  }

  /** A key at version 2, which carries the namespace. */
  function EncodeObjKey(k: ObjKey): seq<u8>
    requires Encodable(k.name) && Encodable(k.instance) && Encodable(k.ns)
    requires |ObjKeyBody(k)| < TWO_32
  {
    EncodeStart(2, 1, |ObjKeyBody(k)|) + ObjKeyBody(k)
  }

  lemma ObjKeyRoundTrip(k: ObjKey, rest: seq<u8>)
    requires Encodable(k.name) && Encodable(k.instance) && Encodable(k.ns)
    requires |ObjKeyBody(k)| < TWO_32
    ensures ObjKeyAt(EncodeObjKey(k) + rest, 0) == Success(Parsed(k, |EncodeObjKey(k)|))
  {
    var hdr := EncodeStart(2, 1, |ObjKeyBody(k)|);
    var s2 := EncodeString(k.instance);
    var s3 := EncodeString(k.ns);
    var data := EncodeObjKey(k) + rest;
    var p1 := 10 + |k.name|;
    var p2 := p1 + 4 + |k.instance|;
    var end := |EncodeObjKey(k)|;
    assert end == p2 + 4 + |k.ns|;
    HoldsPrefix(EncodeObjKey(k), rest);
    Split(data, 0, hdr, ObjKeyBody(k));
    StartAtEncoded(data, 0, 2, 2, 1, |ObjKeyBody(k)|);
    StringThen(data, 6, k.name, s2 + s3, p1);
    StringThen(data, p1, k.instance, s3, p2);
    StringHolds(data, p2, k.ns, end);
  }

  // ---------------------------------------------------------------------------------
  // RGWObjManifestRule

  function ManifestRuleBody(r: ManifestRule): seq<u8>
    requires Encodable(r.overridePrefix)
  {
    EncodeU32(r.startPartNum) + EncodeU64(r.startOfs) + EncodeU64(r.partSize)
      + EncodeU64(r.stripeMaxSize) + EncodeString(r.overridePrefix)
  }

  /** A rule at version 2, which carries the override prefix. */
  function EncodeManifestRule(r: ManifestRule): seq<u8>
    requires Encodable(r.overridePrefix) && |ManifestRuleBody(r)| < TWO_32
  {
    EncodeStart(2, 1, |ManifestRuleBody(r)|) + ManifestRuleBody(r)
  }

  lemma ManifestRuleRoundTrip(r: ManifestRule, rest: seq<u8>)
    requires Encodable(r.overridePrefix) && |ManifestRuleBody(r)| < TWO_32
    ensures ManifestRuleAt(EncodeManifestRule(r) + rest, 0)
         == Success(Parsed(r, |EncodeManifestRule(r)|))
  {
    var hdr := EncodeStart(2, 1, |ManifestRuleBody(r)|);
    var e1 := EncodeU32(r.startPartNum);
    var e2 := EncodeU64(r.startOfs);
    var e3 := EncodeU64(r.partSize);
    var e4 := EncodeU64(r.stripeMaxSize);
    var e5 := EncodeString(r.overridePrefix);
    var data := EncodeManifestRule(r) + rest;
    HoldsPrefix(EncodeManifestRule(r), rest);
    Split(data, 0, hdr, ManifestRuleBody(r));
    StartAtEncoded(data, 0, 2, 2, 1, |ManifestRuleBody(r)|);
    Split(data, 6, e1 + e2 + e3 + e4, e5);
    Split(data, 6, e1 + e2 + e3, e4);
    Split(data, 6, e1 + e2, e3);
    Split(data, 6, e1, e2);
    U32AtEncoded(data, 6, r.startPartNum);
    U64AtEncoded(data, 10, r.startOfs);
    U64AtEncoded(data, 18, r.partSize);
    U64AtEncoded(data, 26, r.stripeMaxSize);
    StringAtEncoded(data, 34, r.overridePrefix);
  }
}
