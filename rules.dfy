/** Navigation over a manifest's rule table (object.go, `ruleIterator` and `rulePair`).
    The table is a map keyed by start offset; every navigation step first lists the keys
    in increasing order and then walks that list by index, as the source does. The
    contracts say what each step finds in terms of the keys themselves. */
module Rules {
  import opened Ints
  import opened Objects

  type RuleTable = map<u64, ManifestRule>

  /** A position in the table: an entry (key and a copy of its rule), or the end. */
  datatype RulePair = RulePair(end: bool, first: u64, second: ManifestRule)

  const EndPair := RulePair(true, 0, EmptyRule)

  /** The Go zero value of a rulePair: not the end, key 0, the zero rule. */
  const ZeroPair := RulePair(false, 0, EmptyRule)

  predicate StrictlyIncreasing(ks: seq<u64>) {
    forall i, j :: 0 <= i < j < |ks| ==> ks[i] < ks[j]
  }

  /** k is the least key of s. */
  predicate IsLeast(s: set<u64>, k: u64) {
    k in s && forall j :: j in s ==> k <= j
  }

  /** k is the greatest key of s. */
  predicate IsGreatest(s: set<u64>, k: u64) {
    k in s && forall j :: j in s ==> j <= k
  }

  /** b is the least key of s above a. */
  predicate IsNextAbove(s: set<u64>, a: u64, b: u64) {
    b in s && a < b && forall k :: k in s && a < k ==> b <= k
  }

  /** b is the greatest key of s below a. */
  predicate IsNextBelow(s: set<u64>, a: u64, b: u64) {
    b in s && b < a && forall k :: k in s && k < a ==> k <= b
  }

  lemma {:induction false} MinExists(s: set<u64>)
    requires s != {}
    ensures exists k :: IsLeast(s, k)
  {
    var x :| x in s;
    if s != {x} {
      var rest := s - {x};
      assert s == rest + {x};
      MinExists(rest);
      var m :| IsLeast(rest, m);
      if x < m {
        assert IsLeast(s, x);
      } else {
        assert IsLeast(s, m);
      }
    } else {
      assert IsLeast(s, x);
    }
  }

  function MinKey(s: set<u64>): (k: u64)
    requires s != {}
    ensures IsLeast(s, k)
  {
    MinExists(s);
    var k :| IsLeast(s, k);
    k
  }

  /** The keys of a set in increasing order (the source's `sort.Slice` of the map keys). */
  function SortSet(s: set<u64>): seq<u64>
    decreases |s|
  {
    if s == {} then []
    else
      var k := MinKey(s);
      [k] + SortSet(s - {k})
  }

  /** SortSet lists every key of the set, once. */
  lemma {:induction false} SortSetMembers(s: set<u64>)
    ensures |SortSet(s)| == |s| && forall k :: k in s <==> k in SortSet(s)
    decreases |s|
  {
    if s != {} {
      var k := MinKey(s);
      var smaller := s - {k};
      SortSetMembers(smaller);
      assert |s| == |smaller| + 1;
      forall x ensures x in s <==> x in SortSet(s) {
        assert x in SortSet(s) <==> x == k || x in SortSet(smaller);
      }
    }
  }

  /** SortSet lists the keys in strictly increasing order. */
  lemma {:induction false} SortSetIncreasing(s: set<u64>)
    ensures StrictlyIncreasing(SortSet(s))
    decreases |s|
  {
    if s != {} {
      var k := MinKey(s);
      var smaller := s - {k};
      var rest := SortSet(smaller);
      SortSetIncreasing(smaller);
      SortSetMembers(smaller);
      forall x | x in rest ensures k < x {
        assert x in smaller;
      }
      ConsIncreasing(k, rest);
    }
  }

  /** SortSet lists every key of the set once, in increasing order. */
  lemma SortSetFacts(s: set<u64>)
    ensures var ks := SortSet(s);
      StrictlyIncreasing(ks) && |ks| == |s| && forall k :: k in s <==> k in ks
  {
    SortSetMembers(s);
    SortSetIncreasing(s);
  }

  lemma ConsIncreasing(k: u64, rest: seq<u64>)
    requires StrictlyIncreasing(rest) && forall x :: x in rest ==> k < x
    ensures StrictlyIncreasing([k] + rest)
  {
    var ks := [k] + rest;
    forall i, j | 0 <= i < j < |ks| ensures ks[i] < ks[j] {
      assert ks[j] == rest[j - 1] && rest[j - 1] in rest;
      if i > 0 {
        assert ks[i] == rest[i - 1];
      }
    }
  }

  function SortedKeys(t: RuleTable): seq<u64> {
    SortSet(t.Keys)
  }

  lemma SortedKeysFacts(t: RuleTable)
    ensures var ks := SortedKeys(t);
      StrictlyIncreasing(ks) && |ks| == |t| && forall k :: k in t <==> k in ks
  {
    SortSetFacts(t.Keys);
  }

  /** The index of key k in a list of keys, or -1. */
  function IndexOfKey(ks: seq<u64>, k: u64): (i: int)
    ensures -1 <= i < |ks|
    ensures i >= 0 ==> ks[i] == k
    ensures i == -1 <==> k !in ks
  {
    if ks == [] then -1
    else if ks[0] == k then 0
    else
      var j := IndexOfKey(ks[1..], k);
      if j < 0 then -1 else j + 1
  }

  /** The index of the first key greater than `key`, or |ks|. */
  function FirstAbove(ks: seq<u64>, key: u64): (i: nat)
    ensures i <= |ks|
    ensures forall j :: 0 <= j < i ==> ks[j] <= key
    ensures i < |ks| ==> key < ks[i]
  {
    if ks == [] then 0
    else if key < ks[0] then 0
    else 1 + FirstAbove(ks[1..], key)
  }

  /** In the sorted key list of a table, each key is the next one above its predecessor. */
  lemma NextAboveAt(t: RuleTable, ks: seq<u64>, i: int)
    requires ks == SortedKeys(t) && 0 <= i && i + 1 < |ks|
    ensures IsNextAbove(t.Keys, ks[i], ks[i + 1])
  {
    SortedKeysFacts(t);
    assert ks[i + 1] in ks;
    forall k | k in t.Keys && ks[i] < k ensures ks[i + 1] <= k {
      var j :| 0 <= j < |ks| && ks[j] == k;
      assert i < j;
    }
  }

  /** In the sorted key list of a table, each key is the next one below its successor. */
  lemma NextBelowAt(t: RuleTable, ks: seq<u64>, i: int)
    requires ks == SortedKeys(t) && 0 < i < |ks|
    ensures IsNextBelow(t.Keys, ks[i], ks[i - 1])
  {
    SortedKeysFacts(t);
    assert ks[i - 1] in ks;
    forall k | k in t.Keys && k < ks[i] ensures k <= ks[i - 1] {
      var j :| 0 <= j < |ks| && ks[j] == k;
      assert j < i;
    }
  }

  /** The first key of the sorted list is the least, the last the greatest. */
  lemma Extremes(t: RuleTable, ks: seq<u64>)
    requires ks == SortedKeys(t) && |ks| > 0
    ensures IsLeast(t.Keys, ks[0]) && IsGreatest(t.Keys, ks[|ks| - 1])
  {
    SortedKeysFacts(t);
    assert ks[0] in ks && ks[|ks| - 1] in ks;
    forall k | k in t.Keys ensures ks[0] <= k <= ks[|ks| - 1] {
      var j :| 0 <= j < |ks| && ks[j] == k;
    }
  }

  /** Only the last key of the sorted list is the greatest. */
  lemma GreatestIsLast(t: RuleTable, ks: seq<u64>, i: int)
    requires ks == SortedKeys(t) && 0 <= i < |ks|
    ensures IsGreatest(t.Keys, ks[i]) <==> i == |ks| - 1
  {
    SortedKeysFacts(t);
    Extremes(t, ks);
    if i < |ks| - 1 {
      assert ks[i + 1] in ks;
    }
  }

  /** Only the first key of the sorted list is the least. */
  lemma LeastIsFirst(t: RuleTable, ks: seq<u64>, i: int)
    requires ks == SortedKeys(t) && 0 <= i < |ks|
    ensures IsLeast(t.Keys, ks[i]) <==> i == 0
  {
    SortedKeysFacts(t);
    Extremes(t, ks);
    if i > 0 {
      assert ks[0] in ks;
    }
  }

  /** Everything at or after the first key above `key` is above it; everything before is not. */
  lemma AboveFrom(t: RuleTable, ks: seq<u64>, key: u64, i: nat)
    requires ks == SortedKeys(t) && i <= |ks|
    requires forall j :: 0 <= j < i ==> ks[j] <= key
    requires i < |ks| ==> key < ks[i]
    ensures i == |ks| <==> forall k :: k in t ==> k <= key
    ensures i < |ks| ==> IsNextAbove(t.Keys, key, ks[i])
  {
    SortedKeysFacts(t);
    if i < |ks| {
      assert ks[i] in ks;
    }
    forall k | k in t && key < k ensures i < |ks| && ks[i] <= k {
      var j :| 0 <= j < |ks| && ks[j] == k;
      assert i <= j;
    }
  }

  /** p is an entry of the table: not the end, a key of the table and that key's rule. */
  predicate IsEntry(t: RuleTable, p: RulePair) {
    !p.end && p.first in t && p.second == t[p.first]
  }

  function PairAt(t: RuleTable, k: u64): RulePair
    requires k in t
  {
    RulePair(false, k, t[k])
  }

  /** `rulePair.equal`: entries are equal when their keys are; the end equals only the end. */
  predicate Equal(a: RulePair, b: RulePair) {
    if a.end then b.end
    else if b.end then false
    else a.first == b.first
  }

  /** On the positions navigation produces (entries of one table, or the end), `equal`
      is equality: two entries with the same key carry the same rule. */
  lemma EqualIsIdentity(t: RuleTable, a: RulePair, b: RulePair)
    requires a == EndPair || IsEntry(t, a)
    requires b == EndPair || IsEntry(t, b)
    ensures Equal(a, b) <==> a == b
  {
    if Equal(a, b) && !a.end {
      assert a.second == t[a.first] == b.second;
    }
  }

  /** `begin`: the entry with the smallest key. The source indexes `keys[0]`, so it panics
      on an empty table; here the table must not be empty. */
  function Begin(t: RuleTable): (p: RulePair)
    requires |t| > 0
    ensures IsEntry(t, p) && IsLeast(t.Keys, p.first)
  {
    var ks := SortedKeys(t);
    SortedKeysFacts(t);
    Extremes(t, ks);
    PairAt(t, ks[0])
  }

  /** `upperBound(key)`: the entry with the smallest key greater than `key`, or the end
      when no key is greater. */
  function UpperBound(t: RuleTable, key: u64): (p: RulePair)
    ensures p == EndPair || IsEntry(t, p)
    ensures p.end <==> forall k :: k in t ==> k <= key
    ensures !p.end ==> IsNextAbove(t.Keys, key, p.first)
  {
    var ks := SortedKeys(t);
    SortedKeysFacts(t);
    var i := FirstAbove(ks, key);
    AboveFrom(t, ks, key, i);
    if i < |ks| then PairAt(t, ks[i]) else EndPair
  }

  /** `forward`: the entry after p in key order; the end after the last entry, after the
      end, and for an empty table. A position whose key is not in the table (the source
      finds no index and uses 0) moves to the first entry. */
  function Forward(t: RuleTable, p: RulePair): (q: RulePair)
    ensures q == EndPair || IsEntry(t, q)
    ensures p.end ==> q.end
    ensures !p.end && p.first in t ==> (q.end <==> IsGreatest(t.Keys, p.first))
    ensures !p.end && p.first in t && !q.end ==> IsNextAbove(t.Keys, p.first, q.first)
    ensures !p.end && p.first !in t ==> (q.end <==> |t| == 0)
    ensures !p.end && p.first !in t && !q.end ==> IsLeast(t.Keys, q.first)
  {
    var ks := SortedKeys(t);
    SortedKeysFacts(t);
    var i := IndexOfKey(ks, p.first);
    var pos := if i >= 0 then i + 1 else 0;
    if p.end then EndPair
    else if i >= 0 then
      GreatestIsLast(t, ks, i);
      if pos < |ks| then
        NextAboveAt(t, ks, i);
        PairAt(t, ks[pos])
      else EndPair
    else if pos < |ks| then
      Extremes(t, ks);
      PairAt(t, ks[pos])
    else EndPair
  }

  /** The index `backward` moves to: the last one from the end or from the first entry,
      the one before a found key, and 0 (the source's initial `pos`) for a key not found. */
  function BackwardIndex(n: nat, i: int, atEnd: bool): (j: nat)
    requires n > 0 && -1 <= i < n
    ensures j < n
  {
    var pos := if i >= 0 then i - 1 else 0;
    if pos < 0 || atEnd then n - 1 else pos
  }

  /** From the end, or from the least key, `backward` lands on the greatest key. */
  lemma BackwardFromEdge(t: RuleTable, p: RulePair, ks: seq<u64>, i: int, j: nat)
    requires ks == SortedKeys(t) && |ks| > 0
    requires i == IndexOfKey(ks, p.first) && j == BackwardIndex(|ks|, i, p.end)
    ensures p.end || IsLeast(t.Keys, p.first) ==> IsGreatest(t.Keys, ks[j])
  {
    Extremes(t, ks);
    if !p.end && IsLeast(t.Keys, p.first) {
      SortedKeysFacts(t);
      LeastIsFirst(t, ks, i);
    }
  }

  /** From any other key of the table, `backward` lands on the next key below. */
  lemma BackwardFromKey(t: RuleTable, p: RulePair, ks: seq<u64>, i: int, j: nat)
    requires ks == SortedKeys(t) && |ks| > 0
    requires i == IndexOfKey(ks, p.first) && j == BackwardIndex(|ks|, i, p.end)
    ensures !p.end && p.first in t ==> IsLeast(t.Keys, p.first) || IsNextBelow(t.Keys, p.first, ks[j])
  {
    if !p.end && p.first in t {
      SortedKeysFacts(t);
      LeastIsFirst(t, ks, i);
      if i > 0 {
        NextBelowAt(t, ks, i);
      }
    }
  }

  /** From a key not in the table, `backward` lands on the least key. */
  lemma BackwardFromMissing(t: RuleTable, p: RulePair, ks: seq<u64>, i: int, j: nat)
    requires ks == SortedKeys(t) && |ks| > 0
    requires i == IndexOfKey(ks, p.first) && j == BackwardIndex(|ks|, i, p.end)
    ensures !p.end && p.first !in t ==> IsLeast(t.Keys, ks[j])
  {
    if !p.end && p.first !in t {
      SortedKeysFacts(t);
      Extremes(t, ks);
    }
  }

  /** `backward`: the entry before p in key order. From the first entry and from the end it
      wraps to the last entry; a position whose key is not in the table (index 0 in the
      source) moves to the first entry. The source indexes the key list, so the table must
      not be empty. */
  function Backward(t: RuleTable, p: RulePair): (q: RulePair)
    requires |t| > 0
    ensures IsEntry(t, q)
    ensures p.end || IsLeast(t.Keys, p.first) ==> IsGreatest(t.Keys, q.first)
    ensures !p.end && p.first in t ==> IsLeast(t.Keys, p.first) || IsNextBelow(t.Keys, p.first, q.first)
    ensures !p.end && p.first !in t ==> IsLeast(t.Keys, q.first)
  {
    var ks := SortedKeys(t);
    SortedKeysFacts(t);
    var i := IndexOfKey(ks, p.first);
    var j := BackwardIndex(|ks|, i, p.end);
    BackwardFromEdge(t, p, ks, i, j);
    BackwardFromKey(t, p, ks, i, j);
    BackwardFromMissing(t, p, ks, i, j);
    assert ks[j] in ks;
    PairAt(t, ks[j])
  }
}
