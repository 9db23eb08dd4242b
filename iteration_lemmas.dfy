/** What the iterator of module Iteration computes, as theorems: where `seek` lands,
    what one step of `iterate` does, how many positions a plain striped object has, and that a zero stripe size stalls
    the iteration. Statements about arithmetic carry the hypothesis that the source's
    fixed-width arithmetic does not wrap on the inputs concerned. */
module IterationFacts {
  import opened Ints
  import opened Text
  import opened Objects
  import opened Rules
  import opened Iteration

  /** Euclidean division facts for a non-negative dividend. */
  lemma DivBounds(a: int, b: int)
    requires a >= 0 && b > 0
    ensures a / b >= 0
    ensures (a / b) * b <= a < (a / b) * b + b
  {
  }

  lemma DivOfZero(b: int)
    requires b > 0
    ensures 0 / b == 0
  {
  }

  /** The start of the part and of the stripe `seek` computes, when nothing wraps. */
  lemma {:induction false} PartStartNoWrap(rule: ManifestRule, part: nat)
    requires rule.startPartNum + part < TWO_31
    requires rule.startOfs + part * rule.partSize < TWO_64
    ensures PartStart(rule, rule.startPartNum + part) == rule.startOfs + part * rule.partSize
  {
    assert Wrap32(rule.startPartNum + part) == rule.startPartNum + part;
    assert Wrap32(Wrap32(rule.startPartNum + part) - rule.startPartNum) == part;
    assert part * rule.partSize >= 0;
  }

  lemma {:induction false} StripeNoWrap(rule: ManifestRule, ofs: u64, partOfs: u64)
    requires partOfs <= ofs && rule.stripeMaxSize > 0
    requires (ofs - partOfs) / rule.stripeMaxSize < TWO_31
    ensures var index := (ofs - partOfs) / rule.stripeMaxSize;
      && StripeIndex(rule, ofs, partOfs) == index
      && StripeStart(rule, partOfs, index) == partOfs + index * rule.stripeMaxSize
      && partOfs <= partOfs + index * rule.stripeMaxSize <= ofs < partOfs + index * rule.stripeMaxSize + rule.stripeMaxSize
  {
    var index := (ofs - partOfs) / rule.stripeMaxSize;
    DivBounds(ofs - partOfs, rule.stripeMaxSize);
    assert Wrap64(ofs - partOfs) == ofs - partOfs;
    assert Wrap64(index) == index;
  }

  /** The hypotheses under which `seek`'s arithmetic under a rule with parts does not wrap:
      the offset is past the rule's start, part and stripe numbers fit an int32, and the
      end of the part and of the stripe fit a uint64. */
  predicate PartedNoWrap(rule: ManifestRule, ofs: u64) {
    && rule.startOfs <= ofs && rule.partSize > 0 && rule.stripeMaxSize > 0
    && var part := (ofs - rule.startOfs) / rule.partSize;
       && rule.startPartNum + part < TWO_31
       && rule.startOfs + (part + 1) * rule.partSize < TWO_64
       && ofs + rule.stripeMaxSize < TWO_64
       && (ofs - rule.startOfs - part * rule.partSize) / rule.stripeMaxSize + 1 < TWO_31
  }

  /** Where `seek` puts an iterator under a rule with parts: in part
      StartPartNum + (ofs - StartOfs) / PartSize, at the stripe holding the offset, with a
      stripe size that neither exceeds the rule's nor runs past the part; the stripe
      number counts one more in part 0 when there is a head. */
  predicate PartedPosition(m: Manifest, rule: ManifestRule, ofs: u64, r: IterState)
    requires rule.partSize > 0 && rule.stripeMaxSize > 0 && rule.startOfs <= ofs
  {
    var part := (ofs - rule.startOfs) / rule.partSize;
    var partOfs := rule.startOfs + part * rule.partSize;
    var index := (ofs - partOfs) / rule.stripeMaxSize;
    && r.curPartId == rule.startPartNum + part
    && r.partOfs == partOfs
    && r.stripeOfs == partOfs + index * rule.stripeMaxSize
    && r.partOfs <= r.stripeOfs <= ofs < r.stripeOfs + r.stripeSize
    && r.stripeSize <= rule.stripeMaxSize
    && r.stripeOfs + r.stripeSize <= r.partOfs + rule.partSize
    && r.curStripe == (if r.curPartId == 0 && m.headSize > 0 then index + 1 else index)
  }

  lemma SeekInPartedRule(m: Manifest, s: IterState, rule: ManifestRule)
    requires PartedNoWrap(rule, s.ofs)
    ensures PartedPosition(m, rule, s.ofs, SeekInRule(m, s, rule))
  {
    var ofs := s.ofs;
    var r := SeekInRule(m, s, rule);
    var d := ofs - rule.startOfs;
    var part := d / rule.partSize;
    DivBounds(d, rule.partSize);
    assert Wrap64(d) == d;
    assert Wrap64(rule.startPartNum + part) == rule.startPartNum + part;
    assert r.curPartId == rule.startPartNum + part;
    var partOfs := rule.startOfs + part * rule.partSize;
    assert (part + 1) * rule.partSize == part * rule.partSize + rule.partSize;
    PartStartNoWrap(rule, part);
    assert r.partOfs == partOfs;
    assert ofs - partOfs < rule.partSize;
    StripeNoWrap(rule, ofs, partOfs);
    var index := (ofs - partOfs) / rule.stripeMaxSize;
    assert r.stripeOfs == partOfs + index * rule.stripeMaxSize;
  }

  /** `seek` past the head lands where PartedPosition says, under its governing rule. */
  lemma SeekParted(m: Manifest, s: IterState, ofs: u64)
    requires |m.rules| > 0 && ofs >= m.headSize
    requires PartedNoWrap(GoverningRule(m.rules, ofs).second, ofs)
    ensures PartedPosition(m, GoverningRule(m.rules, ofs).second, ofs, Seek(m, s, ofs))
  {
    var r := Seek(m, s, ofs);
    SeekInPartedRule(m, s.(ofs := ofs, ruleIter := r.ruleIter, nextRuleIter := r.nextRuleIter), r.ruleIter.second);
  }

  /** The hypotheses under which `seek`'s arithmetic under a rule without parts does not
      wrap, for an offset inside the object. */
  predicate UnpartedNoWrap(m: Manifest, rule: ManifestRule, ofs: u64) {
    && rule.startOfs <= ofs < m.objSize && rule.partSize == 0 && rule.stripeMaxSize > 0
    && rule.startPartNum < TWO_31
    && (ofs - rule.startOfs) / rule.stripeMaxSize + 1 < TWO_31
  }

  /** Where `seek` puts an iterator under a rule without parts: in the rule's first part,
      which starts at the rule's start, at the stripe holding the offset, with a stripe
      size that neither exceeds the rule's nor runs past the object. */
  predicate UnpartedPosition(m: Manifest, rule: ManifestRule, ofs: u64, r: IterState)
    requires rule.stripeMaxSize > 0 && rule.startOfs <= ofs
  {
    var index := (ofs - rule.startOfs) / rule.stripeMaxSize;
    && r.curPartId == rule.startPartNum
    && r.partOfs == rule.startOfs
    && r.stripeOfs == rule.startOfs + index * rule.stripeMaxSize
    && r.partOfs <= r.stripeOfs <= ofs < r.stripeOfs + r.stripeSize
    && r.stripeSize <= rule.stripeMaxSize
    && r.stripeOfs + r.stripeSize <= m.objSize
    && r.curStripe == (if r.curPartId == 0 && m.headSize > 0 then index + 1 else index)
  }

  lemma SeekInUnpartedRule(m: Manifest, s: IterState, rule: ManifestRule)
    requires UnpartedNoWrap(m, rule, s.ofs)
    ensures UnpartedPosition(m, rule, s.ofs, SeekInRule(m, s, rule))
  {
    var r := SeekInRule(m, s, rule);
    assert r.curPartId == rule.startPartNum;
    PartStartNoWrap(rule, 0);
    assert r.partOfs == rule.startOfs;
    StripeNoWrap(rule, s.ofs, rule.startOfs);
  }

  /** `seek` past the head lands where UnpartedPosition says, under its governing rule. */
  lemma SeekUnparted(m: Manifest, s: IterState, ofs: u64)
    requires |m.rules| > 0 && ofs >= m.headSize
    requires UnpartedNoWrap(m, GoverningRule(m.rules, ofs).second, ofs)
    ensures UnpartedPosition(m, GoverningRule(m.rules, ofs).second, ofs, Seek(m, s, ofs))
  {
    var r := Seek(m, s, ofs);
    SeekInUnpartedRule(m, s.(ofs := ofs, ruleIter := r.ruleIter, nextRuleIter := r.nextRuleIter), r.ruleIter.second);
  }

  /** What one step of `iterate` does on every input, wrap-around included. At the end of
      the object, or without rules, it changes nothing. Out of the head it moves to the
      first rule, at the end of the head (or of a shorter object) with stripe number 1 and
      a stripe no longer than the rule's stripe, its part, or the rest of the object.
      Past the head it moves the stripe offset on by a stripe (into the next part when
      the part is used up) and never past the end of the object: there it stops with an
      empty stripe. Every step leaves the location that of the new position. */
  lemma IterateFacts(m: Manifest, s: IterState)
    ensures m.objSize == s.ofs || |m.rules| < 1 ==> Iterate(m, s) == s
    ensures m.objSize != s.ofs && |m.rules| > 0 ==>
      var r := Iterate(m, s);
      && r.ofs <= m.objSize && r.stripeOfs == r.ofs
      && r.location == UpdateLocation(m, r).location
    ensures m.objSize != s.ofs && |m.rules| > 0 && s.ofs < m.headSize ==>
      var r := Iterate(m, s);
      var rule := Begin(m.rules).second;
      && r.ruleIter == Begin(m.rules) && r.nextRuleIter == s.nextRuleIter
      && r.ofs == Min64(m.headSize, m.objSize) && r.curStripe == 1
      && r.partOfs == s.partOfs && r.curPartId == s.curPartId
      && r.stripeSize <= rule.stripeMaxSize && r.stripeSize <= m.objSize - r.ofs
      && (rule.partSize > 0 ==> r.stripeSize <= rule.partSize)
    ensures m.objSize != s.ofs && |m.rules| > 0 && s.ofs >= m.headSize ==>
      var r := Iterate(m, s);
      var rule := s.ruleIter.second;
      var moved := s.(stripeOfs := Wrap64(s.stripeOfs + rule.stripeMaxSize));
      var next := if rule.partSize > 0 then NextPartStart(m, moved).stripeOfs else moved.stripeOfs;
      && r.ofs == Min64(next, m.objSize)
      && (next > m.objSize ==> r.stripeSize == 0)
      && r.curOverridePrefix == r.ruleIter.second.overridePrefix
      && (rule.partSize == 0 ==> r.ruleIter == s.ruleIter && r.nextRuleIter == s.nextRuleIter)
  {
    if m.objSize != s.ofs && |m.rules| > 0 {
      if s.ofs < m.headSize {
        FirstStripeFacts(m, s);
      } else {
        StripeStepFacts(m, s);
      }
    }
  }

  /** The head branch of IterateFacts. */
  lemma FirstStripeFacts(m: Manifest, s: IterState)
    requires |m.rules| > 0
    ensures var r := FirstStripe(m, s);
      var rule := Begin(m.rules).second;
      && r.ruleIter == Begin(m.rules) && r.nextRuleIter == s.nextRuleIter
      && r.ofs == Min64(m.headSize, m.objSize) && r.stripeOfs == r.ofs && r.curStripe == 1
      && r.partOfs == s.partOfs && r.curPartId == s.curPartId
      && r.stripeSize <= rule.stripeMaxSize && r.stripeSize <= m.objSize - r.ofs
      && (rule.partSize > 0 ==> r.stripeSize <= rule.partSize)
      && r.location == UpdateLocation(m, r).location
  {
  }

  /** The branch past the head of IterateFacts, before the location is updated. */
  lemma StripeStepFacts(m: Manifest, s: IterState)
    ensures var r := StripeStep(m, s);
      var rule := s.ruleIter.second;
      var moved := s.(stripeOfs := Wrap64(s.stripeOfs + rule.stripeMaxSize));
      var next := if rule.partSize > 0 then NextPartStart(m, moved).stripeOfs else moved.stripeOfs;
      && r.ofs == Min64(next, m.objSize) && r.stripeOfs == r.ofs
      && (next > m.objSize ==> r.stripeSize == 0)
      && r.curOverridePrefix == r.ruleIter.second.overridePrefix
      && (rule.partSize == 0 ==> r.ruleIter == s.ruleIter && r.nextRuleIter == s.nextRuleIter)
  {
    var rule := s.ruleIter.second;
    var s1 := StripeAdvance(s);
    var moved := s.(stripeOfs := Wrap64(s.stripeOfs + rule.stripeMaxSize));
    var s2 := if rule.partSize > 0 then NextPart(m, s1) else s1;
    if rule.partSize > 0 {
      assert s1 == moved.(curStripe := s1.curStripe);
      NextPartStartStripeOfs(m, moved, s1.curStripe);
      assert s2.stripeOfs == NextPartStart(m, moved).stripeOfs;
    }
    SettleFacts(m, s2);
  }

  /** The cap at the end of the tail branch: the offset and stripe offset become the
      stripe offset, or the object size past it, with an empty stripe there. */
  lemma SettleFacts(m: Manifest, s: IterState)
    ensures var r := StripeSettle(m, s);
      && r.ofs == Min64(s.stripeOfs, m.objSize) && r.stripeOfs == r.ofs
      && (s.stripeOfs > m.objSize ==> r.stripeSize == 0)
      && r.curOverridePrefix == r.ruleIter.second.overridePrefix
      && r.ruleIter == s.ruleIter && r.nextRuleIter == s.nextRuleIter
  {
  }

  /** Where the move to the next part leaves the stripe offset does not depend on the
      stripe number. */
  lemma NextPartStartStripeOfs(m: Manifest, s: IterState, stripe: i32)
    ensures NextPartStart(m, s.(curStripe := stripe)).stripeOfs == NextPartStart(m, s).stripeOfs
  {
  }

  /** One step of `iterate` inside a part (or under a rule without parts): the stripe
      offset moves on by the stripe size, the stripe number by one, and the offset follows
      it up to the end of the object. The part, its number and the rule stay. */
  lemma IterateWithinPart(m: Manifest, s: IterState)
    requires |m.rules| > 0 && s.ofs != m.objSize && s.ofs >= m.headSize
    requires
      var rule := s.ruleIter.second;
      && s.stripeOfs + rule.stripeMaxSize < TWO_64
      && s.curStripe + 1 < TWO_31
      && (rule.partSize > 0 ==> s.stripeOfs + rule.stripeMaxSize < s.partOfs + rule.partSize < TWO_64)
    ensures
      var rule := s.ruleIter.second;
      var r := Iterate(m, s);
      && r.ofs == Min64(s.stripeOfs + rule.stripeMaxSize, m.objSize)
      && r.curStripe == s.curStripe + 1
      && r.partOfs == s.partOfs && r.curPartId == s.curPartId
      && r.ruleIter == s.ruleIter && r.nextRuleIter == s.nextRuleIter
  {
  }

  /** One step of `iterate` that leaves the current part: the stripe number restarts at
      0, the part offset moves on by the part size, and the part number is either the
      next rule's first part (when the new part offset reaches that rule's start, which
      then governs) or the current one plus one. */
  lemma IterateAcrossParts(m: Manifest, s: IterState)
    requires |m.rules| > 0 && s.ofs != m.objSize && s.ofs >= m.headSize
    requires
      var rule := s.ruleIter.second;
      && rule.partSize > 0
      && s.stripeOfs + rule.stripeMaxSize < TWO_64
      && s.partOfs + rule.partSize <= s.stripeOfs + rule.stripeMaxSize
      && s.curPartId + 1 < TWO_31
    ensures
      var rule := s.ruleIter.second;
      var r := Iterate(m, s);
      var newPartOfs := s.partOfs + rule.partSize;
      var switch := !s.nextRuleIter.end && newPartOfs >= s.nextRuleIter.second.startOfs;
      && r.curStripe == 0
      && r.partOfs == newPartOfs
      && r.ofs == Min64(newPartOfs, m.objSize)
      && (switch ==> r.ruleIter == s.nextRuleIter
                     && r.nextRuleIter == Forward(m.rules, s.nextRuleIter)
                     && r.curPartId == ToI32(s.nextRuleIter.second.startPartNum))
      && (!switch ==> r.ruleIter == s.ruleIter && r.nextRuleIter == s.nextRuleIter
                      && r.curPartId == s.curPartId + 1)
  {
  }

  /** Repeating a step n times after one step is repeating it n + 1 times. */
  lemma {:induction false} RepeatShift(f: IterState -> IterState, s: IterState, n: nat)
    ensures Repeat(f, f(s), n) == Repeat(f, s, n + 1)
  {
    if n > 0 {
      RepeatShift(f, s, n - 1);
    }
  }

  lemma {:induction false} RepeatAdd(f: IterState -> IterState, s: IterState, a: nat, b: nat)
    ensures Repeat(f, Repeat(f, s, a), b) == Repeat(f, s, a + b)
  {
    if b > 0 {
      RepeatAdd(f, s, a, b - 1);
    }
  }

  // ---------------------------------------------------------------------------------
  // Plain striped objects

  /** A manifest of the kind written for a plain (non-multipart) object: one rule, at
      the head size, starting there, without parts, with a non-zero stripe size. */
  predicate Striped(m: Manifest) {
    && m.headSize in m.rules
    && m.rules == map[m.headSize := m.rules[m.headSize]]
    && m.rules[m.headSize].startOfs == m.headSize
    && m.rules[m.headSize].partSize == 0
    && m.rules[m.headSize].stripeMaxSize > 0
    && m.objSize + m.rules[m.headSize].stripeMaxSize < TWO_64
  }

  /** The tail phase of a plain striped object: the single rule governs and the offset
      is the stripe offset. */
  predicate InTail(m: Manifest, s: IterState)
    requires Striped(m)
  {
    s.ruleIter.second == m.rules[m.headSize] && m.headSize <= s.ofs <= m.objSize && s.stripeOfs == s.ofs
  }

  function CeilDiv(a: nat, b: nat): nat
    requires b > 0
  {
    (a + b - 1) / b
  }

  lemma CeilDivBounds(a: nat, b: nat)
    requires b > 0
    ensures CeilDiv(a, b) * b >= a
    ensures forall j: nat :: j < CeilDiv(a, b) ==> j * b < a
  {
    var c := CeilDiv(a, b);
    DivBounds(a + b - 1, b);
    forall j: nat | j < c ensures j * b < a {
      assert j + 1 <= c;
      assert (j + 1) * b <= c * b;
    }
  }

  /** In the tail, each step advances the offset by one stripe, up to the end of the
      object. */
  lemma TailStep(m: Manifest, s: IterState)
    requires Striped(m) && InTail(m, s) && s.ofs != m.objSize
    ensures InTail(m, Iterate(m, s))
    ensures Iterate(m, s).ofs == Min64(s.ofs + m.rules[m.headSize].stripeMaxSize, m.objSize)
  {
  }

  lemma MulSucc(n: nat, b: int)
    requires n > 0
    ensures n * b == (n - 1) * b + b
  {
  }

  /** The tail behaviour of a step function: inside the object it advances the offset by
      one stripe, up to the end of the object, and at the end it stays. */
  ghost predicate TailSteps(m: Manifest, f: IterState -> IterState)
    requires Striped(m)
  {
    && (forall x {:trigger f(x)} :: InTail(m, x) && x.ofs != m.objSize ==>
          InTail(m, f(x)) && f(x).ofs == Min64(x.ofs + m.rules[m.headSize].stripeMaxSize, m.objSize))
    && (forall x {:trigger f(x)} :: InTail(m, x) && x.ofs == m.objSize ==> f(x) == x)
  }

  /** n tail steps of any step function that behaves like `iterate` in the tail. */
  lemma {:induction false} RepeatTail(m: Manifest, f: IterState -> IterState, s: IterState, n: nat)
    requires Striped(m) && InTail(m, s) && TailSteps(m, f)
    ensures InTail(m, Repeat(f, s, n))
    ensures var reach := s.ofs + n * m.rules[m.headSize].stripeMaxSize;
      Repeat(f, s, n).ofs == if reach < m.objSize then reach else m.objSize
  {
    if n > 0 {
      var sms := m.rules[m.headSize].stripeMaxSize;
      RepeatTail(m, f, s, n - 1);
      var p := Repeat(f, s, n - 1);
      assert Repeat(f, s, n) == f(p);
      MulSucc(n, sms);
      if p.ofs == m.objSize {
        assert f(p) == p;
      } else {
        assert f(p).ofs == Min64(p.ofs + sms, m.objSize);
      }
    }
  }

  /** `iterate` behaves in the tail as TailSteps says. */
  lemma StepInTail(m: Manifest)
    requires Striped(m)
    ensures TailSteps(m, Step(m))
  {
    forall x | InTail(m, x) && x.ofs != m.objSize
      ensures InTail(m, Step(m)(x)) && Step(m)(x).ofs == Min64(x.ofs + m.rules[m.headSize].stripeMaxSize, m.objSize)
    {
      TailStep(m, x);
    }
  }

  /** From a tail position, a tail step function reaches the end of the object after
      exactly ceil((objSize - ofs) / stripeMaxSize) steps. */
  lemma TailCountOf(m: Manifest, f: IterState -> IterState, s: IterState)
    requires Striped(m) && InTail(m, s) && TailSteps(m, f)
    ensures
      var n := CeilDiv(m.objSize - s.ofs, m.rules[m.headSize].stripeMaxSize);
      && Repeat(f, s, n).ofs == m.objSize
      && forall j: nat :: j < n ==> Repeat(f, s, j).ofs != m.objSize
  {
    var sms := m.rules[m.headSize].stripeMaxSize;
    var n := CeilDiv(m.objSize - s.ofs, sms);
    CeilDivBounds(m.objSize - s.ofs, sms);
    RepeatTail(m, f, s, n);
    forall j: nat | j < n ensures Repeat(f, s, j).ofs != m.objSize {
      RepeatTail(m, f, s, j);
    }
  }

  /** The number of keys of a plain striped object: one for the head when there is a
      head and the object is not empty, then one per stripe of the rest. */
  function StripedKeyCount(m: Manifest): nat
    requires Striped(m)
  {
    var tail := m.objSize - Min64(m.headSize, m.objSize);
    (if m.headSize > 0 && m.objSize > 0 then 1 else 0) + CeilDiv(tail, m.rules[m.headSize].stripeMaxSize)
  }

  /** Without a head the begin iterator is already in the tail, at offset 0. */
  lemma BeginWithoutHead(m: Manifest)
    requires Striped(m) && m.headSize == 0
    ensures InTail(m, BeginState(m)) && BeginState(m).ofs == 0
  {
    SeekZeroWithoutHead(m, Seek(m, Zero, 0));
  }

  /** Without a head, seek(0) on a plain striped object selects its rule, at offset 0. */
  lemma SeekZeroWithoutHead(m: Manifest, s: IterState)
    requires Striped(m) && m.headSize == 0
    ensures InTail(m, Seek(m, s, 0)) && Seek(m, s, 0).ofs == 0
  {
    var g := GoverningRule(m.rules, 0);
    assert g.first == 0;
    var r := Seek(m, s, 0);
    SeekInRuleAtZero(m, s.(ofs := 0, ruleIter := r.ruleIter, nextRuleIter := r.nextRuleIter), m.rules[0]);
  }

  /** Offset 0 under a rule that starts at 0 without parts is the start of its first
      stripe. */
  lemma SeekInRuleAtZero(m: Manifest, s: IterState, rule: ManifestRule)
    requires s.ofs == 0 && rule.startOfs == 0 && rule.partSize == 0 && rule.stripeMaxSize > 0
    ensures SeekInRule(m, s, rule).stripeOfs == 0
  {
    var partId := SeekPartId(rule, 0);
    assert PartStart(rule, partId) == 0;
    DivOfZero(rule.stripeMaxSize);
    assert StripeIndex(rule, 0, 0) == 0;
  }

  /** With a head the begin iterator is at 0, in the head, and one step takes it to the
      tail (or to the end of an object no longer than the head). */
  lemma BeginWithHead(m: Manifest)
    requires Striped(m) && m.headSize > 0
    ensures BeginState(m).ofs == 0
    ensures m.objSize > 0 ==> Iterate(m, BeginState(m)).ofs == Min64(m.headSize, m.objSize)
    ensures m.objSize > m.headSize ==> InTail(m, Iterate(m, BeginState(m)))
  {
  }

  /** A first arrival one step later: if the states after the first step reach `target`
      first after k steps, the states from s (which is not at `target`) reach it first
      after k + 1. */
  lemma FirstArrivalAfterStep(f: IterState -> IterState, s: IterState, target: u64, k: nat)
    requires s.ofs != target
    requires Repeat(f, f(s), k).ofs == target
    requires forall j: nat :: j < k ==> Repeat(f, f(s), j).ofs != target
    ensures Repeat(f, s, k + 1).ofs == target
    ensures forall j: nat :: j < k + 1 ==> Repeat(f, s, j).ofs != target
  {
    RepeatShift(f, s, k);
    forall j: nat | j < k + 1 ensures Repeat(f, s, j).ofs != target {
      if j > 0 {
        RepeatShift(f, s, j - 1);
      }
    }
  }

  /** The first arrival at `target` is what StepsTo counts. */
  lemma StepsToIs(f: IterState -> IterState, s: IterState, target: u64, n: nat)
    requires Repeat(f, s, n).ofs == target
    requires forall j: nat :: j < n ==> Repeat(f, s, j).ofs != target
    ensures Reaches(f, s, target) && StepsTo(f, s, target) == n
  {
    var k := StepsTo(f, s, target);
    assert k == n;
  }

  /** A state already at `target` reaches it after no step. */
  lemma StepsToNone(f: IterState -> IterState, s: IterState, target: u64)
    requires s.ofs == target
    ensures Reaches(f, s, target) && StepsTo(f, s, target) == 0
  {
    StepsToIs(f, s, target, 0);
  }

  /** From a tail position, a tail step function reaches the end of the object after
      the number of steps TailCountOf gives. */
  lemma StepsFromTail(m: Manifest, f: IterState -> IterState, s: IterState)
    requires Striped(m) && InTail(m, s) && TailSteps(m, f)
    ensures Reaches(f, s, m.objSize)
    ensures StepsTo(f, s, m.objSize) == CeilDiv(m.objSize - s.ofs, m.rules[m.headSize].stripeMaxSize)
  {
    TailCountOf(m, f, s);
    StepsToIs(f, s, m.objSize, CeilDiv(m.objSize - s.ofs, m.rules[m.headSize].stripeMaxSize));
  }

  /** A state that is not at `target` and whose successor reaches it first after k
      steps reaches it first after k + 1 steps. */
  lemma StepsAfterStep(f: IterState -> IterState, s: IterState, target: u64)
    requires s.ofs != target && Reaches(f, f(s), target)
    ensures Reaches(f, s, target) && StepsTo(f, s, target) == StepsTo(f, f(s), target) + 1
  {
    var k := StepsTo(f, f(s), target);
    FirstArrivalAfterStep(f, s, target, k);
    StepsToIs(f, s, target, k + 1);
  }

  /** For a plain striped object, iteration from the begin iterator reaches the end of
      the object, after StripedKeyCount steps and not before. */
  lemma StripedKeys(m: Manifest)
    requires Striped(m)
    ensures Reaches(Step(m), BeginState(m), m.objSize)
    ensures StepsTo(Step(m), BeginState(m), m.objSize) == StripedKeyCount(m)
  {
    if m.headSize == 0 {
      StripedWithoutHead(m);
    } else if m.objSize == 0 {
      StripedEmpty(m);
    } else if m.objSize <= m.headSize {
      StripedHeadOnly(m);
    } else {
      StripedHeadAndTail(m);
    }
  }

  lemma StripedWithoutHead(m: Manifest)
    requires Striped(m) && m.headSize == 0
    ensures Reaches(Step(m), BeginState(m), m.objSize)
    ensures StepsTo(Step(m), BeginState(m), m.objSize) == StripedKeyCount(m)
  {
    BeginWithoutHead(m);
    StepInTail(m);
    TailOnlyBy(m, Step(m), BeginState(m));
  }

  lemma TailOnlyBy(m: Manifest, f: IterState -> IterState, b: IterState)
    requires Striped(m) && m.headSize == 0 && TailSteps(m, f)
    requires InTail(m, b) && b.ofs == 0
    ensures Reaches(f, b, m.objSize) && StepsTo(f, b, m.objSize) == StripedKeyCount(m)
  {
    StepsFromTail(m, f, b);
  }

  lemma StripedEmpty(m: Manifest)
    requires Striped(m) && m.headSize > 0 && m.objSize == 0
    ensures Reaches(Step(m), BeginState(m), m.objSize)
    ensures StepsTo(Step(m), BeginState(m), m.objSize) == StripedKeyCount(m)
  {
    BeginWithHead(m);
    StepsToNone(Step(m), BeginState(m), m.objSize);
  }

  lemma StripedHeadOnly(m: Manifest)
    requires Striped(m) && 0 < m.objSize <= m.headSize
    ensures Reaches(Step(m), BeginState(m), m.objSize)
    ensures StepsTo(Step(m), BeginState(m), m.objSize) == StripedKeyCount(m)
  {
    BeginWithHead(m);
    HeadOnlyBy(m, Step(m), BeginState(m));
  }

  lemma HeadOnlyBy(m: Manifest, f: IterState -> IterState, b: IterState)
    requires Striped(m) && 0 < m.objSize <= m.headSize
    requires b.ofs == 0 && f(b).ofs == m.objSize
    ensures Reaches(f, b, m.objSize) && StepsTo(f, b, m.objSize) == StripedKeyCount(m)
  {
    StepsToNone(f, f(b), m.objSize);
    StepsAfterStep(f, b, m.objSize);
  }

  lemma StripedHeadAndTail(m: Manifest)
    requires Striped(m) && 0 < m.headSize < m.objSize
    ensures Reaches(Step(m), BeginState(m), m.objSize)
    ensures StepsTo(Step(m), BeginState(m), m.objSize) == StripedKeyCount(m)
  {
    BeginWithHead(m);
    StepInTail(m);
    HeadAndTailBy(m, Step(m), BeginState(m));
  }

  lemma HeadAndTailBy(m: Manifest, f: IterState -> IterState, b: IterState)
    requires Striped(m) && 0 < m.headSize < m.objSize && TailSteps(m, f)
    requires b.ofs == 0 && InTail(m, f(b)) && f(b).ofs == m.headSize
    ensures Reaches(f, b, m.objSize) && StepsTo(f, b, m.objSize) == StripedKeyCount(m)
  {
    var c := f(b);
    StepsFromTail(m, f, c);
    assert StepsTo(f, c, m.objSize) + 1 == StripedKeyCount(m);
    StepsAfterStep(f, b, m.objSize);
  }

  // ---------------------------------------------------------------------------------
  // A zero stripe size stalls the iteration

  /** A position under a rule with neither a part size nor a stripe size, past the head
      and before the end of the object. */
  predicate Stalled(m: Manifest, s: IterState) {
    && s.ruleIter.second.stripeMaxSize == 0 && s.ruleIter.second.partSize == 0
    && m.headSize <= s.ofs < m.objSize && s.stripeOfs == s.ofs
  }

  /** `iterate` adds the stripe size without checking it for zero: from a stalled
      position one step leaves the offset where it is. */
  lemma StalledStep(m: Manifest, s: IterState)
    requires Stalled(m, s)
    ensures Stalled(m, Iterate(m, s)) && Iterate(m, s).ofs == s.ofs
  {
  }

  lemma {:induction false} RepeatStalled(m: Manifest, f: IterState -> IterState, s: IterState, n: nat)
    requires Stalled(m, s)
    requires forall x :: Stalled(m, x) ==> Stalled(m, f(x)) && f(x).ofs == x.ofs
    ensures Stalled(m, Repeat(f, s, n)) && Repeat(f, s, n).ofs == s.ofs
  {
    if n > 0 {
      RepeatStalled(m, f, s, n - 1);
    }
  }

  /** From a stalled position the end of the object is never reached. */
  lemma StalledForever(m: Manifest, s: IterState, n: nat)
    requires Stalled(m, s)
    ensures Repeat(Step(m), s, n).ofs == s.ofs && s.ofs != m.objSize
  {
    var f := Step(m);
    forall x | Stalled(m, x) ensures Stalled(m, f(x)) && f(x).ofs == x.ofs {
      StalledStep(m, x);
    }
    RepeatStalled(m, f, s, n);
  }

  /** A head followed by a parted rule: one byte of head, three bytes of object, and a
      rule at 0 with parts of two bytes and one-byte stripes. */
  const HeadThenParts := Manifest(
    false, 3, 1, 1, "p", "", map[],
    map[0 := ManifestRule(1, 0, 2, 1, "")],
    BucketPlacement(EmptyPlacementRule, EmptyBucket), EmptyObj, EmptyPlacementRule)

  lemma HeadThenPartsBegin()
    ensures BeginState(HeadThenParts).ofs == 0
    ensures BeginState(HeadThenParts).partOfs == 0
    ensures BeginState(HeadThenParts).nextRuleIter == ZeroPair
  {
  }

  lemma HeadThenPartsFirstStep(s: IterState)
    requires s.ofs == 0 && s.partOfs == 0 && s.nextRuleIter == ZeroPair
    ensures var r := Iterate(HeadThenParts, s);
      r.ofs == 1 && r.stripeOfs == 1 && r.partOfs == 0 && r.nextRuleIter == ZeroPair
      && r.ruleIter == PairAt(HeadThenParts.rules, 0)
  {
  }

  lemma HeadThenPartsSecondStep(s: IterState)
    requires s.ofs == 1 && s.stripeOfs == 1 && s.partOfs == 0 && s.nextRuleIter == ZeroPair
    requires s.ruleIter == PairAt(HeadThenParts.rules, 0)
    ensures Stalled(HeadThenParts, Iterate(HeadThenParts, s))
  {
  }

  /** The begin iterator of HeadThenParts is at 0, then at 1, then stalled at 2. */
  lemma HeadThenPartsFirstSteps()
    ensures Repeat(Step(HeadThenParts), BeginState(HeadThenParts), 0).ofs == 0
    ensures Repeat(Step(HeadThenParts), BeginState(HeadThenParts), 1).ofs == 1
    ensures Stalled(HeadThenParts, Repeat(Step(HeadThenParts), BeginState(HeadThenParts), 2))
  {
    var m := HeadThenParts;
    var f := Step(m);
    var b := BeginState(m);
    HeadThenPartsBegin();
    HeadThenPartsFirstStep(b);
    HeadThenPartsSecondStep(f(b));
    RepeatShift(f, b, 0);
    RepeatShift(f, b, 1);
    RepeatShift(f, f(b), 0);
  }

  /** A state that is stalled two steps on, and not at the end before, never reaches
      the end of the object. */
  lemma StalledAfterTwo(m: Manifest, b: IterState)
    requires Repeat(Step(m), b, 0).ofs != m.objSize && Repeat(Step(m), b, 1).ofs != m.objSize
    requires Stalled(m, Repeat(Step(m), b, 2))
    ensures !Reaches(Step(m), b, m.objSize)
  {
    var f := Step(m);
    if Reaches(f, b, m.objSize) {
      var n: nat :| Repeat(f, b, n).ofs == m.objSize;
      if n >= 2 {
        StalledForever(m, Repeat(f, b, 2), n - 2);
        RepeatAdd(f, b, 2, n - 2);
      }
    }
  }

  /** For HeadThenParts the begin iterator never reaches the end of the object: the head
      branches of `seek` leave the next-rule position at its zero value (key 0, zero
      rule, not the end), and at the first part boundary `iterate` switches to that zero
      rule, whose stripe size is 0. So `RadosObjectsKeys` does not return for it. */
  lemma HeadThenPartsStalls()
    ensures !Reaches(Step(HeadThenParts), BeginState(HeadThenParts), HeadThenParts.objSize)
  {
    HeadThenPartsFirstSteps();
    StalledAfterTwo(HeadThenParts, BeginState(HeadThenParts));
  }
}
