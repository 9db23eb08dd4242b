/** The manifest's iterators as the source keeps them: `ObjIterator` is an object whose
    methods update its fields in place, and `ObjManifest` holds the decoded manifest with
    its begin and end iterators. Every method is proved to leave the fields exactly as
    the matching function of module Iteration says, so the theorems proved there about
    `seek` and `iterate` hold for these objects. */
module Manifests {
  import opened Ints
  import opened Objects
  import opened Rules
  import opened Iteration

  /** The steps of `updataLocation`, `seek` and `iterate`, run on the iterator's fields
      taken as one value: each assignment to a field in the source is an update of that
      field of `s` here, in the same order. The class below stores the result back.
      There are three forms of each operation, with one role each: the function in
      module Iteration is the definition the theorems are about; the method here is the
      source's statement sequence, proved to compute that function; the `ObjIterator`
      method is the operation on the object's fields, which runs this method. */
  method UpdateLocationOn(m: Manifest, s: IterState) returns (r: IterState)
    ensures r == Iteration.UpdateLocation(m, s)
  {
    r := s;
    if r.ofs < m.headSize {
      r := r.(location := ObjSelect(EmptyPlacementRule, m.obj));
      r := r.(location := r.location.(placementRule := m.headPlacementRule));
      return;
    }
    r := r.(location := ImplicitLocation(m, r.curPartId, r.curStripe, r.ofs, r.curOverridePrefix));
  }

  /** `seek(ofs)` on the fields `s`. The rule-table steps (`begin`, `upperBound`,
      `backward`) are the functions of module Rules; the source's `backward(&p)` becomes
      an assignment of `Backward(t, p)`. */
  method SeekOn(m: Manifest, s: IterState, target: u64) returns (r: IterState)
    requires |m.rules| > 0
    ensures r == Iteration.Seek(m, s, target)
  {
    r := s.(ofs := target);
    if target < m.headSize {
      r := r.(ruleIter := Begin(m.rules));
      r := r.(stripeOfs := 0);
      r := r.(stripeSize := m.headSize);
      if !Rules.Equal(r.ruleIter, EndPair) {
        r := r.(curPartId := ToI32(r.ruleIter.second.startPartNum));
        r := r.(curOverridePrefix := r.ruleIter.second.overridePrefix);
      }
      r := UpdateLocationOn(m, r);
      return;
    }
    r := r.(ruleIter := UpperBound(m.rules, target));
    r := r.(nextRuleIter := r.ruleIter);
    if !Rules.Equal(r.ruleIter, Begin(m.rules)) {
      r := r.(ruleIter := Backward(m.rules, r.ruleIter));
    }
    if Rules.Equal(r.ruleIter, EndPair) {
      r := UpdateLocationOn(m, r);
      return;
    }
    r := SeekInRuleOn(m, r, r.ruleIter.second);
  }

  /** The part and stripe arithmetic at the end of `seek`, under the governing rule. */
  method SeekInRuleOn(m: Manifest, s: IterState, rule: ManifestRule) returns (r: IterState)
    ensures r == Iteration.SeekInRule(m, s, rule)
  {
    r := s.(curPartId := SeekPartId(rule, s.ofs));
    r := r.(partOfs := PartStart(rule, r.curPartId));
    if rule.stripeMaxSize > 0 {
      r := r.(curStripe := StripeIndex(rule, r.ofs, r.partOfs));
      r := r.(stripeOfs := StripeStart(rule, r.partOfs, r.curStripe));
      if r.curPartId == 0 && m.headSize > 0 {
        r := r.(curStripe := ToI32(r.curStripe + 1));
      }
    } else {
      r := r.(curStripe := 0);
      r := r.(stripeOfs := r.partOfs);
    }
    r := r.(stripeSize := SeekStripeSize(m, rule, r.partOfs, r.stripeOfs));
    r := r.(curOverridePrefix := rule.overridePrefix);
    r := UpdateLocationOn(m, r);
  }

  /** `iterate` on the fields `s`: move to the next stripe. */
  method IterateOn(m: Manifest, s: IterState) returns (r: IterState)
    ensures r == Iteration.Iterate(m, s)
  {
    r := s;
    var objSize := m.objSize;
    var headSize := m.headSize;
    if objSize == r.ofs {
      return;
    }
    if |m.rules| < 1 {
      return;
    }
    if r.ofs < headSize {
      r := FirstStripeOn(m, r);
      return;
    }
    r := NextStripeOn(m, r);
  }

  /** The branch of `iterate` that leaves the head. */
  method FirstStripeOn(m: Manifest, s: IterState) returns (r: IterState)
    requires |m.rules| > 0
    ensures r == Iteration.FirstStripe(m, s)
  {
    r := s;
    var objSize := m.objSize;
    var headSize := m.headSize;
    r := r.(ruleIter := Begin(m.rules));
    var rule := r.ruleIter.second;
    r := r.(ofs := Min64(headSize, objSize));
    r := r.(stripeOfs := r.ofs);
    r := r.(curStripe := 1);
    r := r.(stripeSize := Min64(Wrap64(objSize - r.ofs), rule.stripeMaxSize));
    if rule.partSize > 0 {
      r := r.(stripeSize := Min64(r.stripeSize, rule.partSize));
    }
    r := UpdateLocationOn(m, r);
  }

  /** The branch of `iterate` past the head: the next stripe, part and rule. */
  method NextStripeOn(m: Manifest, s: IterState) returns (r: IterState)
    ensures r == Iteration.NextStripe(m, s)
  {
    r := StripeStepOn(m, s);
    r := UpdateLocationOn(m, r);
  }

  /** The statements of that branch before `updataLocation`. */
  method StripeStepOn(m: Manifest, s: IterState) returns (r: IterState)
    ensures r == Iteration.StripeStep(m, s)
  {
    r := s;
    var objSize := m.objSize;
    var rule := r.ruleIter.second;
    r := r.(stripeOfs := Wrap64(r.stripeOfs + rule.stripeMaxSize));
    r := r.(curStripe := ToI32(r.curStripe + 1));
    assert r == StripeAdvance(s);
    if rule.partSize > 0 {
      r := NextPartOn(m, r);
    }
    ghost var s2 := r;
    r := r.(curOverridePrefix := r.ruleIter.second.overridePrefix);
    r := r.(ofs := r.stripeOfs);
    if r.ofs > objSize {
      r := r.(ofs := objSize);
      r := r.(stripeOfs := r.ofs);
      r := r.(stripeSize := 0);
    }
    assert r == StripeSettle(m, s2);
  }

  /** The part-size branch of `iterate`. The source's `forward(&p)` becomes an
      assignment of `Forward(t, p)`. */
  method NextPartOn(m: Manifest, s: IterState) returns (r: IterState)
    ensures r == Iteration.NextPart(m, s)
  {
    r := StartPartOn(m, s);
    var rule := r.ruleIter.second;
    r := r.(stripeSize := Min64(Wrap64(rule.partSize - Wrap64(r.stripeOfs - r.partOfs)), rule.stripeMaxSize));
  }

  /** The move to the next part, taken when the stripe has left the current one. */
  method StartPartOn(m: Manifest, s: IterState) returns (r: IterState)
    ensures r == Iteration.NextPartStart(m, s)
  {
    r := s;
    var rule := r.ruleIter.second;
    if r.stripeOfs >= Wrap64(r.partOfs + rule.partSize) {
      r := r.(curStripe := 0);
      r := r.(partOfs := Wrap64(r.partOfs + rule.partSize));
      r := r.(stripeOfs := r.partOfs);
      var lastRule := Rules.Equal(r.nextRuleIter, EndPair);
      if !lastRule && r.stripeOfs >= r.nextRuleIter.second.startOfs {
        r := r.(ruleIter := r.nextRuleIter);
        if !lastRule {
          r := r.(nextRuleIter := Forward(m.rules, r.nextRuleIter));
        }
        r := r.(curPartId := ToI32(r.ruleIter.second.startPartNum));
      } else {
        r := r.(curPartId := ToI32(r.curPartId + 1));
      }
    }
  }

  /** `ObjIterator`. The source's `manifest` field is only read through, so the
      iterator keeps the decoded manifest as a value. Each method reads the fields, runs
      the source's steps on them with the matching method above, and stores them back. */
  class ObjIterator {
    const manifest: Manifest
    var partOfs: u64
    var stripeOfs: u64
    var ofs: u64
    var stripeSize: u64
    var curPartId: i32
    var curStripe: i32
    var curOverridePrefix: string
    var location: ObjSelect
    var ruleIter: RulePair
    var nextRuleIter: RulePair

    /** The fields other than the manifest, as one value. */
    function State(): IterState
      reads this
    {
      IterState(partOfs, stripeOfs, ofs, stripeSize, curPartId, curStripe, curOverridePrefix,
                location, ruleIter, nextRuleIter)
    }

    /** Store the fields. */
    method SetState(r: IterState)
      modifies this
      ensures State() == r
    {
      partOfs, stripeOfs, ofs, stripeSize := r.partOfs, r.stripeOfs, r.ofs, r.stripeSize;
      curPartId, curStripe, curOverridePrefix := r.curPartId, r.curStripe, r.curOverridePrefix;
      location, ruleIter, nextRuleIter := r.location, r.ruleIter, r.nextRuleIter;
    }

    /** `initObjIterator`: a fresh iterator (every field at its zero value) on the
        manifest, sought to offset 0. */
    constructor (m: Manifest)
      requires |m.rules| > 0
      ensures manifest == m
      ensures State() == Iteration.Seek(m, Zero, 0)
    {
      manifest := m;
      partOfs, stripeOfs, ofs, stripeSize := 0, 0, 0, 0;
      curPartId, curStripe, curOverridePrefix := 0, 0, "";
      location, ruleIter, nextRuleIter := EmptyObjSelect, ZeroPair, ZeroPair;
      new;
      Seek(0);
    }

    /** `updataLocation`. */
    method UpdateLocation()
      modifies this
      ensures State() == Iteration.UpdateLocation(manifest, old(State()))
    {
      var r := UpdateLocationOn(manifest, State());
      SetState(r);
    }

    /** `seek(ofs)`. */
    method Seek(target: u64)
      requires |manifest.rules| > 0
      modifies this
      ensures State() == Iteration.Seek(manifest, old(State()), target)
    {
      var r := SeekOn(manifest, State(), target);
      SetState(r);
    }

    /** `equal`: iterators are equal when they stand at the same offset. */
    method Equal(other: ObjIterator) returns (b: bool)
      ensures b <==> ofs == other.ofs
    {
      b := ofs == other.ofs;
    }

    /** `iterate`: move to the next stripe. */
    method Iterate()
      modifies this
      ensures State() == Iteration.Iterate(manifest, old(State()))
    {
      var r := IterateOn(manifest, State());
      SetState(r);
    }
  }

  /** `RGWObjManifest`: the decoded fields and the two iterators `updateIterators` sets. */
  class ObjManifest {
    const manifest: Manifest
    const beginIter: ObjIterator
    const endIter: ObjIterator

    /** The iterators are two distinct objects over this manifest. */
    ghost predicate Valid()
      reads this
    {
      && beginIter != endIter
      && beginIter.manifest == manifest && endIter.manifest == manifest
      && |manifest.rules| > 0
    }

    /** The iterators as `updateIterators` leaves them: the begin iterator at offset 0,
        the end iterator at ObjSize. */
    ghost predicate IteratorsAtEnds()
      reads this, beginIter, endIter
    {
      && Valid()
      && beginIter.State() == BeginState(manifest)
      && endIter.State() == EndState(manifest)
    }

    /** `updateIterators`: the begin iterator at offset 0 and the end iterator at
        ObjSize, each made by `initObjIterator` and then sought. The source's `begin()`
        panics on an empty rule table, so the table must not be empty. */
    constructor (m: Manifest)
      requires |m.rules| > 0
      ensures Valid() && manifest == m
      ensures fresh(beginIter) && fresh(endIter)
      ensures IteratorsAtEnds()
    {
      var b := new ObjIterator(m);
      var e := new ObjIterator(m);
      b.Seek(0);
      e.Seek(m.objSize);
      manifest := m;
      beginIter := b;
      endIter := e;
    }

    /** `RadosObjectsKeys`: the key of every position from the begin iterator up to the
        end iterator's offset, advancing the begin iterator there. The source loops for
        ever when iteration never reaches that offset, so it must reach it. */
    method RadosObjectsKeys() returns (keys: seq<string>)
      requires Valid()
      requires Reaches(Step(manifest), beginIter.State(), endIter.ofs)
      modifies beginIter
      ensures Valid()
      ensures var n := StepsTo(Step(manifest), old(beginIter.State()), endIter.ofs);
        && keys == KeysFrom(manifest, old(beginIter.State()), n)
        && beginIter.State() == IterateN(manifest, old(beginIter.State()), n)
      ensures beginIter.ofs == endIter.ofs
    {
      ghost var s0 := beginIter.State();
      ghost var n := StepsTo(Step(manifest), s0, endIter.ofs);
      ghost var i := 0;
      keys := [];
      var atEnd := endIter.Equal(beginIter);
      while !atEnd
        invariant i <= n
        invariant beginIter.State() == Repeat(Step(manifest), s0, i)
        invariant keys == KeysFrom(manifest, s0, i)
        invariant atEnd <==> beginIter.ofs == endIter.ofs
        decreases n - i
      {
        StepsToMore(Step(manifest), s0, endIter.ofs, i);
        keys := EmitKey(keys, s0, i);
        i := i + 1;
        atEnd := endIter.Equal(beginIter);
      }
      StepsToAt(Step(manifest), s0, endIter.ofs, i);
    }

    /** One round of the loop of `RadosObjectsKeys`: append the key of the begin
        iterator's location and advance the iterator. */
    method EmitKey(keys: seq<string>, ghost s0: IterState, ghost i: nat) returns (keys': seq<string>)
      requires Valid()
      requires beginIter.State() == Repeat(Step(manifest), s0, i)
      requires keys == KeysFrom(manifest, s0, i)
      modifies beginIter
      ensures beginIter.State() == Repeat(Step(manifest), s0, i + 1)
      ensures keys' == KeysFrom(manifest, s0, i + 1)
    {
      var obj := beginIter.location.obj;
      var key;
      if obj.key.ns != "" {
        key := obj.bucket.marker + "__" + obj.key.ns + "_" + obj.key.name;
      } else {
        key := obj.bucket.marker + "_" + obj.key.name;
      }
      assert key == KeyOf(beginIter.location);
      KeysFromNext(manifest, s0, i);
      keys' := keys + [key];
      IterateNext(manifest, s0, i);
      beginIter.Iterate();
    }
  }
}
