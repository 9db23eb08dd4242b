/** What the version tables of object.go's decoders promise: which fields a version
    leaves at their zero value or copies from another, how the legacy key name is fixed
    up, when the part-0 repair fires, and why a manifest without rules never decodes. */
module DecodeFacts {
  import opened Ints
  import opened Text
  import opened Wire
  import opened Objects
  import opened ObjectDecode
  import opened ManifestDecode
  import opened Codec

  // ---------------------------------------------------------------------------------
  // RGWObjKey

  /** Before version 2 a key has no namespace; the struct end is never checked, so a
      key whose fields run past its declared length still decodes. */
  lemma ObjKeyVersions(data: seq<u8>, pos: nat)
    requires ObjKeyAt(data, pos).Success?
    ensures data[pos] < 2 ==> ObjKeyAt(data, pos).value.value.ns == ""
  {}

  /** A key that declares an empty body but carries the strings "a", "" and "": it
      decodes, and its end lies 13 bytes past the declared end. */
  lemma ObjKeyEndNotChecked()
    ensures var data := EncodeStart(2, 1, 0) + EncodeString("a") + EncodeString("") + EncodeString("");
      ObjKeyAt(data, 0) == Success(Parsed(ObjKey("a", "", ""), 19))
  {
    var s1 := EncodeString("a");
    var s0 := EncodeString("");
    var data := EncodeStart(2, 1, 0) + s1 + s0 + s0;
    HoldsPrefix(data, []);
    assert data + [] == data;
    Split(data, 0, EncodeStart(2, 1, 0) + s1 + s0, s0);
    Split(data, 0, EncodeStart(2, 1, 0) + s1, s0);
    Split(data, 0, EncodeStart(2, 1, 0), s1);
    StartAtEncoded(data, 0, 2, 2, 1, 0);
    StringAtEncoded(data, 6, "a");
    StringAtEncoded(data, 11, "");
    StringAtEncoded(data, 15, "");
  }

  // ---------------------------------------------------------------------------------
  // RGWBucket

  /** The ids stage sets the marker and the id and nothing else. The marker is the
      string read first; up to version 3 the id is the u64 read after it, printed in
      decimal, and from version 4 it is the string read after it. */
  lemma BucketIdsFacts(data: seq<u8>, pos: nat, v: u8, b: Bucket)
    requires BucketIdsAt(data, pos, v, b).Success?
    ensures var r := BucketIdsAt(data, pos, v, b).value.value;
      var mk := StringAt(data, pos).value;
      && r == b.(marker := r.marker, bucketId := r.bucketId)
      && r.marker == mk.value
      && (v <= 3 ==> r.bucketId == Decimal(U64At(data, mk.next).value.value))
      && (v <= 3 ==> |r.bucketId| >= 1 && forall i :: 0 <= i < |r.bucketId| ==> IsDigit(r.bucketId[i]))
      && (v > 3 ==> r.bucketId == StringAt(data, mk.next).value.value)
  {}

  /** The legacy pools stage leaves the tenant, marker and id alone. Before version 5
      the index pool is the data pool; from version 5 the string read first overwrites
      the data pool's name and the index pool is untouched. Before version 7 the extra
      pool is untouched; from version 7 the next string is its name. */
  lemma LegacyPoolsFacts(data: seq<u8>, pos: nat, v: u8, b: Bucket)
    requires LegacyPoolsAt(data, pos, v, b).Success?
    ensures var r := LegacyPoolsAt(data, pos, v, b).value.value;
      var p := r.explicitPlacement;
      && r.name == b.name && r.tenant == b.tenant && r.marker == b.marker && r.bucketId == b.bucketId
      && p.dataPool.ns == b.explicitPlacement.dataPool.ns
      && (v < 5 ==> p.indexPool == p.dataPool && p.dataPool == b.explicitPlacement.dataPool)
      && (v >= 5 ==> p.dataPool.name == StringAt(data, pos).value.value
                     && p.indexPool == b.explicitPlacement.indexPool)
      && (v < 7 ==> p.dataExtraPool == b.explicitPlacement.dataExtraPool)
      && (v >= 7 ==>
            var extraPos := if v >= 5 then StringAt(data, pos).value.next else pos;
            p.dataExtraPool == b.explicitPlacement.dataExtraPool.(name := StringAt(data, extraPos).value.value))
  {}

  /** The version gates of `decodeRGWBucket`: no marker or id before version 2, a
      decimal id up to version 3, the index pool a copy of the data pool before version
      5, no extra pool before version 7 and no tenant before version 8. Up to version 3
      the id is the u64 read after the marker, printed in decimal. */
  lemma BucketVersions(data: seq<u8>, pos: nat)
    requires BucketAt(data, pos).Success?
    ensures var b := BucketAt(data, pos).value.value;
      var v := data[pos];
      && (v < 2 ==> b.marker == "" && b.bucketId == "")
      && (2 <= v <= 3 ==> |b.bucketId| >= 1 && forall i :: 0 <= i < |b.bucketId| ==> IsDigit(b.bucketId[i]))
      && (2 <= v <= 3 ==>
            var h := StartLegacyAt(data, pos, 10, 3, 3).value;
            var name := StringAt(data, h.next).value;
            var pname := StringAt(data, name.next).value;
            var mk := StringAt(data, pname.next).value;
            b.marker == mk.value && b.bucketId == Decimal(U64At(data, mk.next).value.value))
      && (v < 5 ==> b.explicitPlacement.indexPool == b.explicitPlacement.dataPool)
      && (v < 7 ==> b.explicitPlacement.dataExtraPool == EmptyPool)
      && (v < 8 ==> b.tenant == "")
  {
    var h := StartLegacyAt(data, pos, 10, 3, 3).value;
    var v := h.value.version;
    var name := StringAt(data, h.next).value;
    var b1 := Parsed(EmptyBucket.(name := name.value), name.next);
    var b2 := if v < 10 then
        var pname := StringAt(data, b1.next).value;
        Parsed(WithDataPoolName(b1.value, pname.value), pname.next)
      else b1;
    if v >= 2 {
      BucketIdsFacts(data, b2.next, v, b2.value);
    }
    var b3 := if v >= 2 then BucketIdsAt(data, b2.next, v, b2.value).value else b2;
    if v < 10 {
      LegacyPoolsFacts(data, b3.next, v, b3.value);
    }
  }

  // ---------------------------------------------------------------------------------
  // RGWObj

  /** The legacy key-name fix-up. Without namespace and instance, one leading '_' is
      dropped; otherwise from version 5 the name is replaced by a fresh read; before
      version 5 the name loses everything up to and including its first '_', and a name
      without '_' fails with Past. Nothing but the name changes. */
  lemma LegacyNameCases(data: seq<u8>, pos: nat, v: u8, o: Obj)
    ensures var r := LegacyNameAt(data, pos, v, o);
      var k := o.key;
      && (r.Success? ==> r.value.value == o.(key := k.(name := r.value.value.key.name)))
      && (k.ns == "" && k.instance == "" ==>
            r.Success? && r.value.next == pos
            && (|k.name| > 0 && k.name[0] == '_' ==> k.name == "_" + r.value.value.key.name)
            && (!(|k.name| > 0 && k.name[0] == '_') ==> r.value.value.key.name == k.name))
      && (!(k.ns == "" && k.instance == "") && v >= 5 ==>
            (r.Success? <==> StringAt(data, pos).Success?)
            && (r.Success? ==> r.value.next == StringAt(data, pos).value.next
                               && r.value.value.key.name == StringAt(data, pos).value.value))
      && (!(k.ns == "" && k.instance == "") && v < 5 ==>
            (r == Failure(Past) <==> '_' !in k.name)
            && (r.Success? ==> exists j :: 0 <= j < |k.name| && k.name[j] == '_' && '_' !in k.name[..j]
                                       && r.value.value.key.name == k.name[j + 1..]))
  {
    var k := o.key;
    if !(k.ns == "" && k.instance == "") && v < 5 && '_' in k.name {
      var j := IndexOf(k.name, '_');
      assert k.name[j] == '_' && '_' !in k.name[..j];
    }
  }

  // ---------------------------------------------------------------------------------
  // RGWObjManifestPart

  /** A manifest part laid out as its decoder reads it: a version-2 legacy header whose
      length covers the rest, an object that decodes to the part's object, then the
      location offset and the size as u64s. It decodes to that part and ends where its
      declared bytes end. */
  lemma ManifestPartRoundTrip(data: seq<u8>, pos: nat, part: ManifestPart, len: u32, objEnd: nat, end: nat)
    requires pos + 6 <= |data| && data[pos..pos + 6] == EncodeStart(2, 2, len)
    requires end == pos + 6 + len && end <= |data|
    requires ObjAt(data, pos + 6) == Success(Parsed(part.loc, objEnd))
    requires Holds(data, objEnd, EncodeU64(part.locOfs) + EncodeU64(part.size)) && objEnd + 16 == end
    ensures ManifestPartAt(data, pos) == Success(Parsed(part, end))
  {
    StartLegacyAtEncoded(data, pos, 2, 2, 2, 2, 2, len);
    U64Then(data, objEnd, part.locOfs, EncodeU64(part.size), objEnd + 8);
    U64Then(data, objEnd + 8, part.size, [], end);
  }

  // ---------------------------------------------------------------------------------
  // RGWObjManifest

  /** The key/entry table keeps every key it starts with, and adds at most one key per
      entry read: a repeated key replaces the entry instead of adding one. */
  lemma {:induction false} EntriesKeys<T>(data: seq<u8>, pos: nat, n: nat, acc: map<u64, T>,
                                          parse: (seq<u8>, nat) -> Result<Parsed<T>>)
    requires EntriesAt(data, pos, n, acc, parse).Success?
    ensures var t := EntriesAt(data, pos, n, acc, parse).value.value;
      acc.Keys <= t.Keys && |t| <= |acc| + n
  {
    if n > 0 {
      EntriesKeys(data, pos, n - 1, acc, parse);
      var prev := EntriesAt(data, pos, n - 1, acc, parse).value;
      var e := EntryAt(data, prev.next, parse).value.value;
      var t := prev.value[e.0 := e.1];
      assert t.Keys == prev.value.Keys + {e.0};
    }
  }

  /** When the part-0 repair fires, in terms of the part-0 key itself: with explicit
      objects, a head and some parts, exactly when part 0's key has a namespace and a
      name or an instance. It then makes part 0 the head object with the head size, and
      changes nothing else. */
  lemma RepairPartZeroWhen(m: Manifest)
    ensures var part0 := if 0 in m.objs then m.objs[0] else EmptyPart;
      var k := part0.loc.key;
      RepairPartZero(m) ==
        if m.explicitObjs && m.headSize > 0 && |m.objs| > 0 && k.ns != ""
           && (k.name != "" || NeedToEncodeInstance(k))
        then m.(objs := m.objs[0 := part0.(loc := m.obj, size := m.headSize)])
        else m
  {
    var part0 := if 0 in m.objs then m.objs[0] else EmptyPart;
    GetOidEmpty(part0.loc.key);
  }

  /** The tail bucket is the head object's bucket when the version-6 flag is 0; only the
      tail placement's bucket changes. */
  lemma TailPlacementDefault(data: seq<u8>, pos: nat, v: u8, m: Manifest)
    requires TailPlacementAt(data, pos, v, m).Success?
    ensures var t := TailPlacementAt(data, pos, v, m).value;
      && t.value == m.(tailPlacement := m.tailPlacement.(bucket := t.value.tailPlacement.bucket))
      && (v >= 6 && data[pos] == 0 ==> t.value.tailPlacement.bucket == m.obj.bucket && t.next == pos + 1)
  {}

  /** The tail instance is the head object's instance before version 5 and when the
      version-6 flag is 0; only the tail instance changes. */
  lemma TailInstanceDefault(data: seq<u8>, pos: nat, v: u8, m: Manifest)
    requires TailInstanceAt(data, pos, v, m).Success?
    ensures var t := TailInstanceAt(data, pos, v, m).value;
      && t.value == m.(tailInstance := t.value.tailInstance)
      && (v < 5 ==> t.value.tailInstance == m.obj.key.instance && t.next == pos)
      && (v >= 6 && data[pos] == 0 ==> t.value.tailInstance == m.obj.key.instance && t.next == pos + 1)
  {}

  /** The tail half never touches the rule table. */
  lemma TailHalfKeepsRules(data: seq<u8>, pos: nat, v: u8, m: Manifest)
    requires TailHalfAt(data, pos, v, m).Success?
    ensures TailHalfAt(data, pos, v, m).value.value.rules == m.rules
  {
    var m4 := if v >= 4 then TailPlacementAt(data, pos, v, m) else Success(Parsed(m, pos));
    if v >= 4 {
      TailPlacementDefault(data, pos, v, m);
    }
    TailInstanceDefault(data, m4.value.next, v, m4.value.value);
  }

  /** Rules are read only from version 4, and `updateIterators` refuses an empty rule
      table: so a manifest decodes only from version 4 on, and always with rules. */
  lemma ManifestNeedsRules(data: seq<u8>, pos: nat)
    requires ManifestAt(data, pos).Success?
    ensures data[pos] > 3 && |ManifestAt(data, pos).value.value.rules| > 0
  {
    var h := StartLegacyAt(data, pos, 7, 2, 2).value;
    var head := HeadHalfAt(data, h.next, h.value.version).value;
    TailHalfKeepsRules(data, head.next, h.value.version, head.value);
  }
}
