/** The manifest iterator of object.go as a state machine over values: `seek`,
    `iterate`, `updataLocation` and `getImplicitLocation` are functions from an iterator
    state to the next one. Go's fixed-width arithmetic is written out with Wrap64, Wrap32
    and ToI32, so these functions compute what the source computes on every input,
    including the ones where its arithmetic wraps. The class in module Manifests holds
    the same fields and is proved to update them exactly as these functions say. */
module Iteration {
  import opened Ints
  import opened Text
  import opened Objects
  import opened Rules

  const ShadowNS := "shadow"
  const MultipartNS := "multipart"

  /** The fields of `ObjIterator` other than its manifest reference. */
  datatype IterState = IterState(
    partOfs: u64,
    stripeOfs: u64,
    ofs: u64,
    stripeSize: u64,
    curPartId: i32,
    curStripe: i32,
    curOverridePrefix: string,
    location: ObjSelect,
    ruleIter: RulePair,
    nextRuleIter: RulePair)

  /** A freshly allocated iterator: every field at its Go zero value. */
  const Zero := IterState(0, 0, 0, 0, 0, 0, "", EmptyObjSelect, ZeroPair, ZeroPair)

  /** The object name suffix of a tail stripe. */
  function StripeSuffix(partId: i32, stripe: i32): string {
    if partId == 0 then SignedDecimal(stripe)
    else if stripe == 0 then "." + SignedDecimal(partId)
    else "." + SignedDecimal(partId) + "_" + SignedDecimal(stripe)
  }

  /** `getImplicitLocation`. Both branches assign the placement rule and then overwrite the
      whole selection with one that holds only the object, so the result's placement rule
      is always empty. Part 0 below the maximum head size is the head object itself. */
  function ImplicitLocation(m: Manifest, partId: i32, stripe: i32, ofs: u64, overridePrefix: string): ObjSelect {
    if partId == 0 && ofs < m.maxHeadSize then
      ObjSelect(EmptyPlacementRule, m.obj)
    else
      var base := if overridePrefix == "" then m.prefix else overridePrefix;
      var ns := if partId != 0 && stripe == 0 then MultipartNS else ShadowNS;
      var bucket := if m.tailPlacement.bucket.name != "" then m.tailPlacement.bucket else m.obj.bucket;
      ObjSelect(EmptyPlacementRule, Obj(bucket, ObjKey(base + StripeSuffix(partId, stripe), ns, m.tailInstance), false))
  }

  /** What `getImplicitLocation` selects: the head object for part 0 below the maximum
      head size, otherwise the tail object named by prefix, part and stripe, in the
      multipart namespace at the first stripe of a numbered part and the shadow namespace
      elsewhere; in every case with an empty placement rule. */
  lemma ImplicitLocationFacts(m: Manifest, partId: i32, stripe: i32, ofs: u64, overridePrefix: string)
    ensures var l := ImplicitLocation(m, partId, stripe, ofs, overridePrefix);
      && l.placementRule == EmptyPlacementRule
      && (partId == 0 && ofs < m.maxHeadSize ==> l.obj == m.obj)
      && (!(partId == 0 && ofs < m.maxHeadSize) ==>
        && l.obj.key.name == (if overridePrefix == "" then m.prefix else overridePrefix) + StripeSuffix(partId, stripe)
        && l.obj.key.ns == (if partId != 0 && stripe == 0 then MultipartNS else ShadowNS)
        && l.obj.key.instance == m.tailInstance
        && l.obj.bucket == (if m.tailPlacement.bucket.name != "" then m.tailPlacement.bucket else m.obj.bucket)
        && !l.obj.inExtraData)
  {
  }

  /** `updataLocation`: in the head region the head object with the head placement rule,
      elsewhere the implicit location of the current part and stripe. */
  function UpdateLocation(m: Manifest, s: IterState): (r: IterState)
    ensures r == s.(location := r.location)
    ensures s.ofs < m.headSize ==> r.location == ObjSelect(m.headPlacementRule, m.obj)
    ensures s.ofs >= m.headSize ==>
      r.location == ImplicitLocation(m, s.curPartId, s.curStripe, s.ofs, s.curOverridePrefix)
  {
    if s.ofs < m.headSize then s.(location := ObjSelect(m.headPlacementRule, m.obj))
    else s.(location := ImplicitLocation(m, s.curPartId, s.curStripe, s.ofs, s.curOverridePrefix))
  }

  /** The governing rule of an offset past the head: the entry before the upper bound,
      unless the upper bound is the first entry. */
  function GoverningRule(t: RuleTable, ofs: u64): (p: RulePair)
    requires |t| > 0
    ensures IsEntry(t, p)
    ensures (exists k :: k in t && k <= ofs) ==>
      p.first <= ofs && forall k :: k in t && k <= ofs ==> k <= p.first
    ensures (forall k :: k in t ==> ofs < k) ==> IsLeast(t.Keys, p.first)
  {
    var ub := UpperBound(t, ofs);
    var b := Begin(t);
    if !Equal(ub, b) then
      var p := Backward(t, ub);
      if ub.end then
        p
      else
        assert !IsLeast(t.Keys, ub.first) by {
          assert b.first != ub.first;
          assert b.first < ub.first;
        }
        p
    else
      assert ub.first == b.first;
      ub
  }

  /** `CurPartID` as `seek` computes it: the rule's first part plus the number of whole
      parts between the rule's start and the offset. */
  function SeekPartId(rule: ManifestRule, ofs: u64): i32 {
    if rule.partSize > 0 then ToI32(Wrap64(rule.startPartNum + Wrap64(ofs - rule.startOfs) / rule.partSize))
    else ToI32(rule.startPartNum)
  }

  /** `PartOfs` as `seek` computes it: the start of part `partId` of the rule. */
  function PartStart(rule: ManifestRule, partId: i32): u64 {
    Wrap64(rule.startOfs + Wrap32(Wrap32(partId) - rule.startPartNum) * rule.partSize)
  }

  /** The stripe of the offset within its part, before the head adjustment. */
  function StripeIndex(rule: ManifestRule, ofs: u64, partOfs: u64): i32 {
    if rule.stripeMaxSize > 0 then ToI32(Wrap64(ofs - partOfs) / rule.stripeMaxSize) else 0
  }

  /** `StripeOfs` as `seek` computes it: the start of stripe `index` of the part. */
  function StripeStart(rule: ManifestRule, partOfs: u64, index: i32): u64 {
    if rule.stripeMaxSize > 0 then Wrap64(partOfs + Wrap64(index) * rule.stripeMaxSize) else partOfs
  }

  /** `StripeSize` as `seek` computes it: up to the end of the object without parts, up
      to the next stripe or the end of the part with them. */
  function SeekStripeSize(m: Manifest, rule: ManifestRule, partOfs: u64, stripeOfs: u64): u64 {
    if rule.partSize == 0 then Min64(Wrap64(m.objSize - stripeOfs), rule.stripeMaxSize)
    else Wrap64(Min64(Wrap64(stripeOfs + rule.stripeMaxSize), Wrap64(partOfs + rule.partSize)) - stripeOfs)
  }

  /** The part and stripe arithmetic of `seek` for an offset governed by `rule`. The
      stripe number counts one more in part 0 when there is a head. */
  function SeekInRule(m: Manifest, s: IterState, rule: ManifestRule): (r: IterState)
    ensures r.ofs == s.ofs && r.ruleIter == s.ruleIter && r.nextRuleIter == s.nextRuleIter
    ensures r.curOverridePrefix == rule.overridePrefix
    ensures r.curPartId == SeekPartId(rule, s.ofs) && r.partOfs == PartStart(rule, r.curPartId)
    ensures r.stripeOfs == StripeStart(rule, r.partOfs, StripeIndex(rule, s.ofs, r.partOfs))
    ensures r.stripeSize == SeekStripeSize(m, rule, r.partOfs, r.stripeOfs)
    ensures var index := StripeIndex(rule, s.ofs, r.partOfs);
      r.curStripe == (if rule.stripeMaxSize > 0 && r.curPartId == 0 && m.headSize > 0 then ToI32(index + 1) else index)
  {
    var partId := SeekPartId(rule, s.ofs);
    var partOfs := PartStart(rule, partId);
    var index := StripeIndex(rule, s.ofs, partOfs);
    var stripeOfs := StripeStart(rule, partOfs, index);
    var stripe := if rule.stripeMaxSize > 0 && partId == 0 && m.headSize > 0 then ToI32(index + 1) else index;
    var s' := s.(curPartId := partId, partOfs := partOfs, curStripe := stripe, stripeOfs := stripeOfs,
                 stripeSize := SeekStripeSize(m, rule, partOfs, stripeOfs), curOverridePrefix := rule.overridePrefix);
    UpdateLocation(m, s')
  }

  /** `seek(ofs)`. The source calls `begin()` on every path, which panics on an empty
      rule table; here the table must not be empty. */
  function Seek(m: Manifest, s: IterState, ofs: u64): (r: IterState)
    requires |m.rules| > 0
    ensures r.ofs == ofs
    ensures ofs < m.headSize ==>
      && r.ruleIter == Begin(m.rules)
      && r.nextRuleIter == s.nextRuleIter
      && r.stripeOfs == 0 && r.stripeSize == m.headSize
      && r.curPartId == ToI32(r.ruleIter.second.startPartNum)
      && r.curOverridePrefix == r.ruleIter.second.overridePrefix
      && r.partOfs == s.partOfs && r.curStripe == s.curStripe
      && r.location == ObjSelect(m.headPlacementRule, m.obj)
    ensures ofs >= m.headSize ==>
      && r.ruleIter == GoverningRule(m.rules, ofs)
      && r.nextRuleIter == UpperBound(m.rules, ofs)
      && r == SeekInRule(m, s.(ofs := ofs, ruleIter := r.ruleIter, nextRuleIter := r.nextRuleIter), r.ruleIter.second)
  {
    var s := s.(ofs := ofs);
    if ofs < m.headSize then
      var ri := Begin(m.rules);
      var s := s.(ruleIter := ri, stripeOfs := 0, stripeSize := m.headSize);
      var s := if !Equal(ri, EndPair) then
          s.(curPartId := ToI32(ri.second.startPartNum), curOverridePrefix := ri.second.overridePrefix)
        else s;
      UpdateLocation(m, s)
    else
      var ub := UpperBound(m.rules, ofs);
      var ri := if !Equal(ub, Begin(m.rules)) then Backward(m.rules, ub) else ub;
      var s := s.(ruleIter := ri, nextRuleIter := ub);
      if Equal(ri, EndPair) then UpdateLocation(m, s)
      else SeekInRule(m, s, ri.second)
  }

  /** The part-size branch of `iterate`: crossing the end of the current part moves to
      the next part, switching to the next rule when the new part offset reaches its
      start; then the stripe size is cut to what is left of the part. */
  function NextPart(m: Manifest, s: IterState): (r: IterState)
    ensures r.ofs == s.ofs
  {
    var s' := NextPartStart(m, s);
    var rule' := s'.ruleIter.second;
    s'.(stripeSize := Min64(Wrap64(rule'.partSize - Wrap64(s'.stripeOfs - s'.partOfs)), rule'.stripeMaxSize))
  }

  /** The first half of NextPart: the move to the next part, if the stripe left it. */
  function NextPartStart(m: Manifest, s: IterState): (r: IterState)
    ensures r.ofs == s.ofs
  {
    var rule := s.ruleIter.second;
    if s.stripeOfs >= Wrap64(s.partOfs + rule.partSize) then
      var partOfs := Wrap64(s.partOfs + rule.partSize);
      var t := s.(curStripe := 0, partOfs := partOfs, stripeOfs := partOfs);
      var lastRule := Equal(t.nextRuleIter, EndPair);
      if !lastRule && t.stripeOfs >= t.nextRuleIter.second.startOfs then
        t.(ruleIter := t.nextRuleIter,
           nextRuleIter := Forward(m.rules, t.nextRuleIter),
           curPartId := ToI32(t.nextRuleIter.second.startPartNum))
      else
        t.(curPartId := ToI32(t.curPartId + 1))
    else s
  }

  /** `iterate`: one step to the next stripe. */
  function Iterate(m: Manifest, s: IterState): IterState {
    if m.objSize == s.ofs then s
    else if |m.rules| < 1 then s
    else if s.ofs < m.headSize then FirstStripe(m, s)
    else NextStripe(m, s)
  }

  /** The step out of the head: the first stripe of the first rule. */
  function FirstStripe(m: Manifest, s: IterState): IterState
    requires |m.rules| > 0
  {
    var ri := Begin(m.rules);
    var rule := ri.second;
    var ofs := Min64(m.headSize, m.objSize);
    var size := Min64(Wrap64(m.objSize - ofs), rule.stripeMaxSize);
    var size := if rule.partSize > 0 then Min64(size, rule.partSize) else size;
    UpdateLocation(m, s.(ruleIter := ri, ofs := ofs, stripeOfs := ofs, curStripe := 1, stripeSize := size))
  }

  /** The step from one stripe past the head to the next, capped at the object size. */
  function NextStripe(m: Manifest, s: IterState): IterState {
    UpdateLocation(m, StripeStep(m, s))
  }

  /** NextStripe before the location is updated. */
  function StripeStep(m: Manifest, s: IterState): IterState {
    var s1 := StripeAdvance(s);
    StripeSettle(m, if s.ruleIter.second.partSize > 0 then NextPart(m, s1) else s1)
  }

  /** The first statements of the tail branch: one stripe on, and one stripe number up. */
  function StripeAdvance(s: IterState): IterState {
    s.(stripeOfs := Wrap64(s.stripeOfs + s.ruleIter.second.stripeMaxSize), curStripe := ToI32(s.curStripe + 1))
  }

  /** The last statements of the tail branch: the rule's override prefix, the offset on
      the stripe offset, and the cap at the object size. */
  function StripeSettle(m: Manifest, s: IterState): IterState {
    var s3 := s.(curOverridePrefix := s.ruleIter.second.overridePrefix, ofs := s.stripeOfs);
    if s3.ofs > m.objSize then s3.(ofs := m.objSize, stripeOfs := m.objSize, stripeSize := 0) else s3
  }

  /** The begin iterator `updateIterators` builds: `initObjIterator` (seek(0) on a fresh
      iterator), then seek(0) again. */
  function BeginState(m: Manifest): (r: IterState)
    requires |m.rules| > 0
    ensures r.ofs == 0
  {
    Seek(m, Seek(m, Zero, 0), 0)
  }

  /** The end iterator `updateIterators` builds: `initObjIterator`, then seek(ObjSize). */
  function EndState(m: Manifest): (r: IterState)
    requires |m.rules| > 0
    ensures r.ofs == m.objSize
  {
    Seek(m, Seek(m, Zero, 0), m.objSize)
  }

  /** `iterate` as a function value. */
  function Step(m: Manifest): IterState -> IterState {
    s => Iterate(m, s)
  }

  /** n applications of a step function. */
  function Repeat(f: IterState -> IterState, s: IterState, n: nat): IterState {
    if n == 0 then s else f(Repeat(f, s, n - 1))
  }

  /** One more step of `iterate` after n steps. */
  lemma IterateNext(m: Manifest, s: IterState, n: nat)
    ensures Repeat(Step(m), s, n + 1) == Iterate(m, Repeat(Step(m), s, n))
  {
  }

  /** The state after n steps of `iterate`. */
  function IterateN(m: Manifest, s: IterState, n: nat): IterState {
    Repeat(Step(m), s, n)
  }

  /** The key `RadosObjectsKeys` emits for a location: the bucket marker, then the
      namespace (when there is one) and the object name. It uses the key's name, not its
      `getOID` form. */
  function KeyOf(l: ObjSelect): (key: string)
    ensures l.obj.key.ns != "" ==> key == l.obj.bucket.marker + "__" + l.obj.key.ns + "_" + l.obj.key.name
    ensures l.obj.key.ns == "" ==> key == l.obj.bucket.marker + "_" + l.obj.key.name
  {
    if l.obj.key.ns != "" then l.obj.bucket.marker + "__" + l.obj.key.ns + "_" + l.obj.key.name
    else l.obj.bucket.marker + "_" + l.obj.key.name
  }

  /** The keys of the first n positions reached from s. */
  function KeysFrom(m: Manifest, s: IterState, n: nat): (keys: seq<string>)
    ensures |keys| == n
  {
    if n == 0 then [] else KeysFrom(m, s, n - 1) + [KeyOf(IterateN(m, s, n - 1).location)]
  }

  /** The j-th key is the key of the position reached after j steps. */
  lemma {:induction false} KeysFromAt(m: Manifest, s: IterState, n: nat, j: nat)
    requires j < n
    ensures KeysFrom(m, s, n)[j] == KeyOf(IterateN(m, s, j).location)
  {
    if j < n - 1 {
      KeysFromAt(m, s, n - 1, j);
    }
  }

  /** One more key after n steps. */
  lemma KeysFromNext(m: Manifest, s: IterState, n: nat)
    ensures KeysFrom(m, s, n + 1) == KeysFrom(m, s, n) + [KeyOf(Repeat(Step(m), s, n).location)]
  {
  }

  /** Stepping with f from s reaches the offset `endOfs` after some number of steps. */
  ghost predicate Reaches(f: IterState -> IterState, s: IterState, endOfs: u64) {
    exists n: nat :: Repeat(f, s, n).ofs == endOfs
  }

  /** The number of steps after which stepping with f from s first stands at `endOfs`. */
  ghost function StepsTo(f: IterState -> IterState, s: IterState, endOfs: u64): (n: nat)
    requires Reaches(f, s, endOfs)
    ensures Repeat(f, s, n).ofs == endOfs
    ensures forall j: nat :: j < n ==> Repeat(f, s, j).ofs != endOfs
  {
    var k: nat :| Repeat(f, s, k).ofs == endOfs;
    FirstReach(f, s, endOfs, k)
  }

  /** Before StepsTo steps, a state not at `endOfs` has more steps to go. */
  lemma StepsToMore(f: IterState -> IterState, s: IterState, endOfs: u64, i: nat)
    requires Reaches(f, s, endOfs) && i <= StepsTo(f, s, endOfs)
    requires Repeat(f, s, i).ofs != endOfs
    ensures i < StepsTo(f, s, endOfs)
  {
  }

  /** Within StepsTo steps, the first state at `endOfs` is the one after StepsTo steps. */
  lemma StepsToAt(f: IterState -> IterState, s: IterState, endOfs: u64, i: nat)
    requires Reaches(f, s, endOfs) && i <= StepsTo(f, s, endOfs)
    requires Repeat(f, s, i).ofs == endOfs
    ensures StepsTo(f, s, endOfs) == i
  {
  }

  /** The least step count at most k at which stepping stands at `endOfs`. */
  ghost function FirstReach(f: IterState -> IterState, s: IterState, endOfs: u64, k: nat): (n: nat)
    requires Repeat(f, s, k).ofs == endOfs
    ensures n <= k && Repeat(f, s, n).ofs == endOfs
    ensures forall j: nat :: j < n ==> Repeat(f, s, j).ofs != endOfs
    decreases k
  {
    if k == 0 then 0
    else if exists j: nat :: j < k && Repeat(f, s, j).ofs == endOfs then
      var j: nat :| j < k && Repeat(f, s, j).ofs == endOfs;
      FirstReach(f, s, endOfs, j)
    else k
  }
}
