/** The exchange-rate cache: a JavaScript Map kept in recency order, with a time-to-live and a size limit. */
module RateCache {
  import opened Common

  datatype CachedRate = CachedRate(from: string, to: string, rate: real, cachedAt: int)

  /** One binding of the Map. A Map is a sequence of bindings in insertion order, with distinct keys. */
  datatype Entry = Entry(key: string, rate: CachedRate)

  /** One call on the cache, with the clock reading it takes (`rate.cachedAt` for a Set). */
  datatype Op =
    | Get(key: string, now: int)
    | Set(key: string, rate: CachedRate)
    | Invalidate(key: string)
    | Clear

  // ---------------------------------------------------------------- keys

  function BuildKey(from: string, to: string): string {
    Upper(from) + ":" + Upper(to)
  }

  /** The first colon of a key ends the source code, when that code holds none. */
  lemma KeySplit(from: string, to: string)
    requires ':' !in from
    ensures |from| < |BuildKey(from, to)| && BuildKey(from, to)[|from|] == ':'
    ensures forall i :: 0 <= i < |from| ==> BuildKey(from, to)[i] != ':'
    ensures BuildKey(from, to)[..|from|] == Upper(from) && BuildKey(from, to)[|from| + 1..] == Upper(to)
  {
    forall i | 0 <= i < |from| ensures BuildKey(from, to)[i] != ':' {
      assert BuildKey(from, to)[i] == UpperChar(from[i]) && from[i] in from;
    }
  }

  /** Two currency pairs share a key exactly when they agree up to case, provided no source code holds a colon. */
  lemma KeyIdentifiesPair(from1: string, to1: string, from2: string, to2: string)
    requires ':' !in from1 && ':' !in from2
    ensures BuildKey(from1, to1) == BuildKey(from2, to2) <==> Upper(from1) == Upper(from2) && Upper(to1) == Upper(to2)
  {
    KeySplit(from1, to1);
    KeySplit(from2, to2);
  }

  /** Without that proviso different pairs can collide. */
  lemma KeyCollision()
    ensures BuildKey("A:B", "C") == BuildKey("A", "B:C") && Upper("A:B") != Upper("A")
  {
    assert BuildKey("A:B", "C") == "A:B:C";
    assert BuildKey("A", "B:C") == "A:B:C";
    assert |Upper("A:B")| != |Upper("A")|;
  }

  // ---------------------------------------------------------------- the Map operations

  function Lookup(c: seq<Entry>, k: string): Option<CachedRate> {
    if c == [] then None else if c[0].key == k then Some(c[0].rate) else Lookup(c[1..], k)
  }

  function Delete(c: seq<Entry>, k: string): seq<Entry> {
    if c == [] then [] else if c[0].key == k then Delete(c[1..], k) else [c[0]] + Delete(c[1..], k)
  }

  ghost function Keys(c: seq<Entry>): set<string> {
    set i | 0 <= i < |c| :: c[i].key
  }

  ghost predicate DistinctKeys(c: seq<Entry>) {
    forall i, j :: 0 <= i < j < |c| ==> c[i].key != c[j].key
  }

  predicate Expired(r: CachedRate, ttl: int, now: int) {
    now - r.cachedAt > ttl
  }

  // ---------------------------------------------------------------- specification of one call and of a run

  function Answer(ttl: int, c: seq<Entry>, op: Op): Option<CachedRate> {
    match op
    case Get(k, now) =>
      (match Lookup(c, k)
       case None => None
       case Some(r) => if Expired(r, ttl, now) then None else Some(r))
    case _ => None
  }

  function Evict(max: int, c: seq<Entry>): seq<Entry> {
    if |c| >= max && c != [] then c[1..] else c
  }

  function Step(max: int, ttl: int, c: seq<Entry>, op: Op): seq<Entry> {
    match op
    case Get(k, now) =>
      (match Lookup(c, k)
       case None => c
       case Some(r) => if Expired(r, ttl, now) then Delete(c, k) else Delete(c, k) + [Entry(k, r)])
    case Set(k, r) => Evict(max, Delete(c, k)) + [Entry(k, r)]
    case Invalidate(k) => Delete(c, k)
    case Clear => []
  }

  function Run(max: int, ttl: int, ops: seq<Op>): seq<Entry> {
    if ops == [] then [] else Step(max, ttl, Run(max, ttl, ops[..|ops| - 1]), ops[|ops| - 1])
  }

  /** The number of entries the cache can really hold: a limit below one still keeps the entry just set. */
  function Capacity(max: int): int {
    Max(1, max)
  }

  // ---------------------------------------------------------------- facts about Lookup and Delete

  lemma {:induction false} LookupFinds(c: seq<Entry>, k: string)
    ensures Lookup(c, k).Some? <==> k in Keys(c)
    ensures Lookup(c, k).Some? ==> Entry(k, Lookup(c, k).value) in c
  {
    if c != [] {
      LookupFinds(c[1..], k);
      assert Keys(c) == {c[0].key} + Keys(c[1..]) by { KeysOfCons(c); }
    }
  }

  lemma KeysOfCons(c: seq<Entry>)
    requires c != []
    ensures Keys(c) == {c[0].key} + Keys(c[1..])
  {
    forall k | k in Keys(c) ensures k in {c[0].key} + Keys(c[1..]) {
      var i :| 0 <= i < |c| && c[i].key == k;
      if i > 0 { assert c[1..][i - 1].key == k; }
    }
    forall k | k in Keys(c[1..]) ensures k in Keys(c) {
      var i :| 0 <= i < |c[1..]| && c[1..][i].key == k;
      assert c[i + 1].key == k;
    }
  }

  lemma KeysOfSnoc(c: seq<Entry>, e: Entry)
    ensures Keys(c + [e]) == Keys(c) + {e.key}
  {
    var d := c + [e];
    assert forall i :: 0 <= i < |c| ==> d[i] == c[i];
    assert d[|c|] == e;
  }

  lemma {:induction false} DeleteKeys(c: seq<Entry>, k: string)
    ensures Keys(Delete(c, k)) == Keys(c) - {k}
    ensures forall e :: e in Delete(c, k) <==> e in c && e.key != k
  {
    if c != [] {
      DeleteKeys(c[1..], k);
      KeysOfCons(c);
      var d := Delete(c, k);
      if c[0].key != k {
        KeysOfCons(d);
        assert d[1..] == Delete(c[1..], k);
      }
    }
  }

  lemma {:induction false} DistinctLookup(c: seq<Entry>, e: Entry)
    requires DistinctKeys(c) && e in c
    ensures Lookup(c, e.key) == Some(e.rate)
  {
    if c[0] != e {
      var i :| 0 < i < |c| && c[i] == e;
      assert c[1..][i - 1] == e;
      DistinctLookup(c[1..], e);
    }
  }

  // ---------------------------------------------------------------- subsequences

  /** s can be obtained from l by dropping elements and keeping the order. */
  ghost predicate Subseq(s: seq<Entry>, l: seq<Entry>) {
    s == [] || (l != [] && ((s[0] == l[0] && Subseq(s[1..], l[1..])) || Subseq(s, l[1..])))
  }

  lemma {:induction false} SubseqFacts(s: seq<Entry>, l: seq<Entry>)
    requires Subseq(s, l)
    ensures |s| <= |l|
    ensures forall e :: e in s ==> e in l
  {
    if s != [] {
      if s[0] == l[0] && Subseq(s[1..], l[1..]) {
        SubseqFacts(s[1..], l[1..]);
        assert s == [s[0]] + s[1..];
      } else {
        SubseqFacts(s, l[1..]);
      }
    }
  }

  lemma {:induction false} SubseqSelf(s: seq<Entry>)
    ensures Subseq(s, s)
  {
    if s != [] { SubseqSelf(s[1..]); }
  }

  lemma {:induction false} SubseqTail(s: seq<Entry>, l: seq<Entry>)
    requires Subseq(s, l) && s != []
    ensures Subseq(s[1..], l)
    ensures Subseq(s[1..], l[1..])
  {
    if !(s[0] == l[0] && Subseq(s[1..], l[1..])) {
      SubseqTail(s, l[1..]);
    }
    assert Subseq(s[1..], l[1..]);
  }

  lemma {:induction false} SubseqAppend(s: seq<Entry>, l: seq<Entry>, e: Entry)
    requires Subseq(s, l)
    ensures Subseq(s + [e], l + [e])
  {
    if l == [] {
      SubseqSelf([e]);
    } else {
      assert (l + [e])[1..] == l[1..] + [e];
      if s != [] && s[0] == l[0] && Subseq(s[1..], l[1..]) {
        SubseqAppend(s[1..], l[1..], e);
        assert (s + [e])[1..] == s[1..] + [e];
      } else {
        SubseqAppend(s, l[1..], e);
      }
    }
  }

  lemma {:induction false} SubseqDelete(s: seq<Entry>, l: seq<Entry>, k: string)
    requires Subseq(s, l)
    ensures Subseq(Delete(s, k), Delete(l, k))
  {
    if s != [] {
      var dl := Delete(l, k);
      if s[0] == l[0] && Subseq(s[1..], l[1..]) {
        SubseqDelete(s[1..], l[1..], k);
        if s[0].key != k {
          assert Delete(s, k)[1..] == Delete(s[1..], k) && dl[1..] == Delete(l[1..], k);
        }
      } else {
        SubseqDelete(s, l[1..], k);
        if l[0].key != k { assert dl[1..] == Delete(l[1..], k); }
      }
    }
  }

  lemma {:induction false} DeleteIsSubseq(c: seq<Entry>, k: string)
    ensures Subseq(Delete(c, k), c)
  {
    if c != [] {
      DeleteIsSubseq(c[1..], k);
      if c[0].key != k { assert Delete(c, k)[1..] == Delete(c[1..], k); }
    }
  }

  lemma {:induction false} DeleteAbsent(c: seq<Entry>, k: string)
    requires k !in Keys(c)
    ensures Delete(c, k) == c
  {
    if c != [] {
      KeysOfCons(c);
      DeleteAbsent(c[1..], k);
    }
  }

  /** Two positions of a subsequence come from two positions of the whole, in the same order. */
  lemma {:induction false} SubseqPair(s: seq<Entry>, l: seq<Entry>, i: nat, j: nat)
    requires Subseq(s, l) && i < j < |s|
    ensures exists i', j' :: 0 <= i' < j' < |l| && l[i'] == s[i] && l[j'] == s[j]
  {
    if s[0] == l[0] && Subseq(s[1..], l[1..]) {
      if i == 0 {
        SubseqFacts(s[1..], l[1..]);
        assert s[1..][j - 1] in s[1..];
        var j' :| 0 <= j' < |l[1..]| && l[1..][j'] == s[j];
        assert l[0] == s[i] && l[j' + 1] == s[j];
      } else {
        SubseqPair(s[1..], l[1..], i - 1, j - 1);
        var i', j' :| 0 <= i' < j' < |l[1..]| && l[1..][i'] == s[i] && l[1..][j'] == s[j];
        assert l[i' + 1] == s[i] && l[j' + 1] == s[j];
      }
    } else {
      SubseqPair(s, l[1..], i, j);
      var i', j' :| 0 <= i' < j' < |l[1..]| && l[1..][i'] == s[i] && l[1..][j'] == s[j];
      assert l[i' + 1] == s[i] && l[j' + 1] == s[j];
    }
  }

  lemma SubseqDistinct(s: seq<Entry>, l: seq<Entry>)
    requires Subseq(s, l) && DistinctKeys(l)
    ensures DistinctKeys(s)
  {
    forall i, j | 0 <= i < j < |s| ensures s[i].key != s[j].key {
      SubseqPair(s, l, i, j);
    }
  }

  /** What Set leaves of the other entries: the deletion, less the first entry when full. */
  lemma EvictIsSubseq(max: int, c: seq<Entry>)
    ensures Subseq(Evict(max, c), c)
  {
    SubseqSelf(c);
    if c != [] { SubseqTail(c, c); }
  }

  /** Every call leaves a subsequence of the old entries, plus the touched key last. */
  lemma StepShape(max: int, ttl: int, c: seq<Entry>, op: Op) returns (d: seq<Entry>)
    ensures Subseq(d, c)
    ensures Touches(ttl, c, op).None? ==> Step(max, ttl, c, op) == d
    ensures Touches(ttl, c, op).Some? ==>
              var k := Touches(ttl, c, op).value;
              k !in Keys(d) && |Step(max, ttl, c, op)| == |d| + 1 &&
              Step(max, ttl, c, op)[..|d|] == d && Step(max, ttl, c, op)[|d|].key == k
  {
    SubseqSelf(c);
    match op
    case Get(k, now) =>
      DeleteIsSubseq(c, k);
      DeleteKeys(c, k);
      d := if Lookup(c, k).None? then c else Delete(c, k);
    case Set(k, r) =>
      var e := Delete(c, k);
      d := Evict(max, e);
      SubseqDelete(c, c, k);
      DeleteIsSubseq(c, k);
      DeleteKeys(c, k);
      if e != [] { SubseqTail(e, c); KeysOfCons(e); }
    case Invalidate(k) =>
      DeleteIsSubseq(c, k);
      d := Delete(c, k);
    case Clear =>
      d := [];
  }

  // ---------------------------------------------------------------- every reachable cache

  /** The key a call moves to the most-recently-used end: a set, or a get that answers. */
  function Touches(ttl: int, c: seq<Entry>, op: Op): Option<string> {
    match op
    case Set(k, _) => Some(k)
    case Get(k, _) => if Answer(ttl, c, op).Some? then Some(k) else None
    case _ => None
  }

  lemma StepKeepsDistinct(max: int, ttl: int, c: seq<Entry>, op: Op)
    requires DistinctKeys(c)
    ensures DistinctKeys(Step(max, ttl, c, op))
  {
    var d := StepShape(max, ttl, c, op);
    SubseqDistinct(d, c);
    var c' := Step(max, ttl, c, op);
    if Touches(ttl, c, op).Some? {
      assert forall i :: 0 <= i < |d| ==> c'[i] == d[i] && d[i].key in Keys(d);
    }
  }

  lemma {:induction false} RunDistinct(max: int, ttl: int, ops: seq<Op>)
    ensures DistinctKeys(Run(max, ttl, ops))
  {
    if ops != [] {
      var before := ops[..|ops| - 1];
      RunDistinct(max, ttl, before);
      StepKeepsDistinct(max, ttl, Run(max, ttl, before), ops[|ops| - 1]);
    }
  }

  lemma {:induction false} DeleteSize(c: seq<Entry>, k: string)
    requires DistinctKeys(c)
    ensures |Delete(c, k)| == |c| - (if k in Keys(c) then 1 else 0)
  {
    if c != [] {
      KeysOfCons(c);
      if c[0].key == k {
        assert k !in Keys(c[1..]);
        DeleteAbsent(c[1..], k);
      } else {
        DeleteSize(c[1..], k);
      }
    }
  }

  /** The cache never holds more than its capacity. */
  lemma {:induction false} SizeBound(max: int, ttl: int, ops: seq<Op>)
    ensures |Run(max, ttl, ops)| <= Capacity(max)
  {
    if ops != [] {
      var before := ops[..|ops| - 1];
      var op := ops[|ops| - 1];
      var c := Run(max, ttl, before);
      SizeBound(max, ttl, before);
      RunDistinct(max, ttl, before);
      match op
      case Get(k, now) => DeleteSize(c, k); LookupFinds(c, k);
      case Set(k, r) => DeleteSize(c, k);
      case Invalidate(k) => DeleteSize(c, k);
      case Clear =>
    }
  }

  // ---------------------------------------------------------------- stack inclusion

  /** The small cache is a subsequence of the large one, and the large one is ahead by at most the extra capacity. */
  ghost predicate Included(n: int, m: int, small: seq<Entry>, large: seq<Entry>) {
    Subseq(small, large) && DistinctKeys(large) && |large| <= Capacity(m)
    && |large| - |small| <= Capacity(m) - Capacity(n)
  }

  lemma IncludedLookup(n: int, m: int, small: seq<Entry>, large: seq<Entry>, k: string)
    requires Included(n, m, small, large)
    ensures Lookup(small, k).Some? ==> Lookup(large, k) == Lookup(small, k)
  {
    if Lookup(small, k).Some? {
      LookupFinds(small, k);
      SubseqFacts(small, large);
      DistinctLookup(large, Entry(k, Lookup(small, k).value));
    }
  }

  /** Deleting one key from both keeps the inclusion, with the same bound on the gap. */
  lemma IncludedDelete(n: int, m: int, small: seq<Entry>, large: seq<Entry>, k: string)
    requires Included(n, m, small, large)
    ensures Included(n, m, Delete(small, k), Delete(large, k))
    ensures Lookup(small, k).None? && Lookup(large, k).Some? ==>
              |Delete(large, k)| - |Delete(small, k)| < Capacity(m) - Capacity(n)
  {
    SubseqDelete(small, large, k);
    DeleteIsSubseq(large, k);
    SubseqDistinct(small, large);
    SubseqDistinct(Delete(large, k), large);
    DeleteSize(small, k);
    DeleteSize(large, k);
    LookupFinds(small, k);
    LookupFinds(large, k);
    SubseqFacts(Delete(small, k), Delete(large, k));
    IncludedLookup(n, m, small, large, k);
  }

  lemma IncludedSet(n: int, m: int, small: seq<Entry>, large: seq<Entry>, e: Entry)
    requires n <= m && Included(n, m, small, large) && e.key !in Keys(large)
    ensures Included(n, m, Evict(n, small) + [e], Evict(m, large) + [e])
  {
    var s, l := Evict(n, small), Evict(m, large);
    SubseqFacts(small, large);
    if small != [] { SubseqTail(small, large); }
    assert Subseq(s, l);
    SubseqAppend(s, l, e);
    EvictIsSubseq(m, large);
    SubseqDistinct(l, large);
    assert forall i :: 0 <= i < |l| ==> l[i].key != e.key by {
      SubseqFacts(l, large);
      forall i | 0 <= i < |l| ensures l[i].key != e.key {
        assert l[i] in large;
        var j :| 0 <= j < |large| && large[j] == l[i];
        assert large[j].key in Keys(large);
      }
    }
  }

  lemma StepKeepsInclusion(n: int, m: int, ttl: int, small: seq<Entry>, large: seq<Entry>, op: Op)
    requires n <= m && Included(n, m, small, large)
    ensures Included(n, m, Step(n, ttl, small, op), Step(m, ttl, large, op))
  {
    match op
    case Get(k, now) =>
      IncludedLookup(n, m, small, large, k);
      IncludedDelete(n, m, small, large, k);
      match Lookup(large, k) {
        case None =>
        case Some(r) =>
          LookupFinds(small, k);
          LookupFinds(large, k);
          DeleteKeys(large, k);
          DeleteSize(large, k);
          var l := Delete(large, k);
          if Lookup(small, k).None? { DeleteAbsent(small, k); }
          if !Expired(r, ttl, now) {
            StepKeepsDistinct(m, ttl, large, op);
            if Lookup(small, k).None? {
              SubseqExtendRight(small, l, Entry(k, r));
            } else {
              SubseqAppend(Delete(small, k), l, Entry(k, r));
            }
          }
      }
    case Set(k, r) =>
      IncludedDelete(n, m, small, large, k);
      DeleteKeys(large, k);
      IncludedSet(n, m, Delete(small, k), Delete(large, k), Entry(k, r));
    case Invalidate(k) => IncludedDelete(n, m, small, large, k);
    case Clear =>
  }

  lemma {:induction false} SubseqExtendRight(s: seq<Entry>, l: seq<Entry>, e: Entry)
    requires Subseq(s, l)
    ensures Subseq(s, l + [e])
  {
    if s != [] {
      assert (l + [e])[1..] == l[1..] + [e];
      if s[0] == l[0] && Subseq(s[1..], l[1..]) {
        SubseqExtendRight(s[1..], l[1..], e);
      } else {
        SubseqExtendRight(s, l[1..], e);
      }
    }
  }

  /** Stack inclusion: the same calls at the same clock readings keep the smaller cache inside the larger one. */
  lemma {:induction false} StackInclusion(n: int, m: int, ttl: int, ops: seq<Op>)
    requires n <= m
    ensures Included(n, m, Run(n, ttl, ops), Run(m, ttl, ops))
  {
    if ops != [] {
      var before := ops[..|ops| - 1];
      StackInclusion(n, m, ttl, before);
      StepKeepsInclusion(n, m, ttl, Run(n, ttl, before), Run(m, ttl, before), ops[|ops| - 1]);
    }
  }

  /** Hence a hit in the small cache is a hit with the same value in the large one. */
  lemma SmallHitIsLargeHit(n: int, m: int, ttl: int, ops: seq<Op>, op: Op)
    requires n <= m && Answer(ttl, Run(n, ttl, ops), op).Some?
    ensures Answer(ttl, Run(m, ttl, ops), op) == Answer(ttl, Run(n, ttl, ops), op)
  {
    StackInclusion(n, m, ttl, ops);
    IncludedLookup(n, m, Run(n, ttl, ops), Run(m, ttl, ops), op.key);
  }

  // ---------------------------------------------------------------- refinement of the unbounded map

  /** The unbounded map: the last rate written for each key since it was last invalidated. */
  function LastWrite(ops: seq<Op>): map<string, CachedRate> {
    if ops == [] then map[] else
      var w := LastWrite(ops[..|ops| - 1]);
      match ops[|ops| - 1]
      case Get(_, _) => w
      case Set(k, r) => w[k := r]
      case Invalidate(k) => w - {k}
      case Clear => map[]
  }

  /** The distinct keys other than k touched since k was last touched. */
  ghost function TouchedSince(max: int, ttl: int, ops: seq<Op>, k: string): set<string> {
    if ops == [] then {} else
      var before := ops[..|ops| - 1];
      var older := TouchedSince(max, ttl, before, k);
      match Touches(ttl, Run(max, ttl, before), ops[|ops| - 1])
      case None => older
      case Some(j) => if j == k then {} else older + {j}
  }

  /** Clock readings never go back along ops, and none is later than now. */
  ghost predicate ClockedUpTo(ops: seq<Op>, now: int) {
    ops == [] ||
    var before := ops[..|ops| - 1];
    match ops[|ops| - 1]
    case Get(_, t) => t <= now && ClockedUpTo(before, t)
    case Set(_, r) => r.cachedAt <= now && ClockedUpTo(before, r.cachedAt)
    case _ => ClockedUpTo(before, now)
  }

  /** Whatever the cache holds is what was last written. */
  lemma {:induction false} HoldsLastWrite(max: int, ttl: int, ops: seq<Op>)
    ensures forall e :: e in Run(max, ttl, ops) ==> e.key in LastWrite(ops) && LastWrite(ops)[e.key] == e.rate
  {
    if ops != [] {
      var before := ops[..|ops| - 1];
      var op := ops[|ops| - 1];
      var c := Run(max, ttl, before);
      HoldsLastWrite(max, ttl, before);
      match op
      case Get(k, now) => DeleteKeys(c, k); LookupFinds(c, k);
      case Set(k, r) => DeleteKeys(c, k);
      case Invalidate(k) => DeleteKeys(c, k);
      case Clear =>
    }
  }

  /** Every hit returns the value of the last set of that key, still within its time-to-live. */
  lemma HitIsLastWrite(max: int, ttl: int, ops: seq<Op>, k: string, now: int)
    requires Answer(ttl, Run(max, ttl, ops), Get(k, now)).Some?
    ensures k in LastWrite(ops) && Answer(ttl, Run(max, ttl, ops), Get(k, now)) == Some(LastWrite(ops)[k])
    ensures now - LastWrite(ops)[k].cachedAt <= ttl
  {
    HoldsLastWrite(max, ttl, ops);
    LookupFinds(Run(max, ttl, ops), k);
  }

  /** Map order is recency order: of two held keys, the later one was touched since the earlier one and not conversely. */
  lemma {:induction false} OrderIsRecency(max: int, ttl: int, ops: seq<Op>, i: nat, j: nat)
    requires i < j < |Run(max, ttl, ops)|
    ensures Run(max, ttl, ops)[j].key in TouchedSince(max, ttl, ops, Run(max, ttl, ops)[i].key)
    ensures Run(max, ttl, ops)[i].key !in TouchedSince(max, ttl, ops, Run(max, ttl, ops)[j].key)
  {
    var before := ops[..|ops| - 1];
    var op := ops[|ops| - 1];
    var c, c' := Run(max, ttl, before), Run(max, ttl, ops);
    var d := StepShape(max, ttl, c, op);
    if j < |d| {
      assert c'[i] == d[i] && c'[j] == d[j];
      SubseqPair(d, c, i, j);
      var i', j' :| 0 <= i' < j' < |c| && c[i'] == d[i] && c[j'] == d[j];
      OrderIsRecency(max, ttl, before, i', j');
      assert d[i].key in Keys(d) && d[j].key in Keys(d);
    } else {
      assert c'[i] == d[i] && d[i].key in Keys(d);
    }
  }

  lemma {:induction false} KeysCardinality(c: seq<Entry>)
    requires DistinctKeys(c)
    ensures |Keys(c)| == |c|
  {
    if c != [] {
      KeysCardinality(c[1..]);
      KeysOfCons(c);
      assert c[0].key !in Keys(c[1..]);
    }
  }

  /** A Set that drops k dropped the first entry of a full Map. */
  lemma EvictedIsFirst(max: int, ttl: int, c: seq<Entry>, j: string, r: CachedRate, k: string)
    requires k in Keys(c) && k !in Keys(Step(max, ttl, c, Set(j, r)))
    ensures k != j
    ensures var e := Delete(c, j); e != [] && |e| >= max && e[0].key == k
  {
    var e := Delete(c, j);
    DeleteKeys(c, j);
    KeysOfSnoc(Evict(max, e), Entry(j, r));
    if e != [] { KeysOfCons(e); }
  }

  /** Every key behind the first of a subsequence of the cache was touched since that first key. */
  lemma LaterKeysTouched(max: int, ttl: int, ops: seq<Op>, e: seq<Entry>)
    requires e != [] && Subseq(e, Run(max, ttl, ops))
    ensures Keys(e[1..]) <= TouchedSince(max, ttl, ops, e[0].key)
  {
    var c := Run(max, ttl, ops);
    forall x | x in Keys(e[1..]) ensures x in TouchedSince(max, ttl, ops, e[0].key) {
      var p :| 0 <= p < |e[1..]| && e[1..][p].key == x;
      SubseqPair(e, c, 0, p + 1);
      var i', j' :| 0 <= i' < j' < |c| && c[i'] == e[0] && c[j'] == e[p + 1];
      OrderIsRecency(max, ttl, ops, i', j');
    }
  }

  /** A Set that evicts k does so only after Capacity(max) other keys have been touched since k. */
  lemma EvictionNeedsTouches(max: int, ttl: int, before: seq<Op>, j: string, r: CachedRate, k: string)
    requires k in Keys(Run(max, ttl, before)) && k !in Keys(Step(max, ttl, Run(max, ttl, before), Set(j, r)))
    ensures k != j && |TouchedSince(max, ttl, before, k) + {j}| >= Capacity(max)
  {
    var c := Run(max, ttl, before);
    EvictedIsFirst(max, ttl, c, j, r, k);
    var e := Delete(c, j);
    RunDistinct(max, ttl, before);
    DeleteKeys(c, j);
    DeleteIsSubseq(c, j);
    SubseqDistinct(e, c);
    KeysOfCons(e);
    KeysCardinality(e[1..]);
    LaterKeysTouched(max, ttl, before, e);
    SubsetCardinality(Keys(e[1..]) + {j}, TouchedSince(max, ttl, before, k) + {j});
  }

  /** A miss that the unbounded map would have answered happens only after Capacity(max) distinct other keys were touched. */
  lemma {:induction false} MissMeansEvicted(max: int, ttl: int, ops: seq<Op>, k: string, now: int)
    requires ClockedUpTo(ops, now)
    requires k in LastWrite(ops) && !Expired(LastWrite(ops)[k], ttl, now)
    requires Answer(ttl, Run(max, ttl, ops), Get(k, now)).None?
    ensures |TouchedSince(max, ttl, ops, k)| >= Capacity(max)
  {
    var before := ops[..|ops| - 1];
    var op := ops[|ops| - 1];
    var c, c' := Run(max, ttl, before), Run(max, ttl, ops);
    var older := TouchedSince(max, ttl, before, k);
    LookupFinds(c', k);
    HoldsLastWrite(max, ttl, ops);
    assert k !in Keys(c');
    LookupFinds(c, k);
    HoldsLastWrite(max, ttl, before);
    var t := match op case Get(_, t) => t case Set(_, r) => r.cachedAt case _ => now;
    match op
    case Get(j, _) =>
      DeleteKeys(c, j);
      if j != k && k in Keys(c) { StepKeepsOthers(max, ttl, c, op, k); }
      MissMeansEvicted(max, ttl, before, k, t);
      SubsetCardinality(older, TouchedSince(max, ttl, ops, k));
    case Set(j, r) =>
      assert c'[|c'| - 1].key in Keys(c');
      if k in Keys(c) {
        EvictionNeedsTouches(max, ttl, before, j, r, k);
      } else {
        MissMeansEvicted(max, ttl, before, k, t);
        SubsetCardinality(older, TouchedSince(max, ttl, ops, k));
      }
    case Invalidate(j) =>
      DeleteKeys(c, j);
      MissMeansEvicted(max, ttl, before, k, t);
    case Clear =>
  }

  lemma StepKeepsOthers(max: int, ttl: int, c: seq<Entry>, op: Op, k: string)
    requires op.Get? && op.key != k && k in Keys(c)
    ensures k in Keys(Step(max, ttl, c, op))
  {
    DeleteKeys(c, op.key);
    var d := Delete(c, op.key);
    var x :| 0 <= x < |d| && d[x].key == k;
    if Lookup(c, op.key).Some? { assert Step(max, ttl, c, op)[x].key == k; }
  }

  // ---------------------------------------------------------------- what one call leaves

  lemma RunAppend(max: int, ttl: int, ops: seq<Op>, op: Op)
    ensures Run(max, ttl, ops + [op]) == Step(max, ttl, Run(max, ttl, ops), op)
  {
    assert (ops + [op])[..|ops|] == ops;
  }

  lemma SnocMembers(d: seq<Entry>, e: Entry)
    ensures forall x :: x in d + [e] <==> x in d || x == e
  {
  }

  /** In any run, a get answers with the entry of its key if that is no older than the time to live. It leaves every other entry as it
      was; its own it keeps, as the last one, when it answers, and drops when it is too old. Nothing else is gained or lost. */
  lemma GetExactly(max: int, ttl: int, ops: seq<Op>, k: string, now: int)
    ensures var (c, c') := (Run(max, ttl, ops), Run(max, ttl, ops + [Get(k, now)]));
            && (forall r :: Answer(ttl, c, Get(k, now)) == Some(r) <==> Entry(k, r) in c && now - r.cachedAt <= ttl)
            && (forall e :: e in c' <==> e in c && (e.key == k ==> now - e.rate.cachedAt <= ttl))
            && |c'| == |c| - (if exists e :: e in c && e.key == k && now - e.rate.cachedAt > ttl then 1 else 0)
            && (forall r :: Entry(k, r) in c' ==> c'[|c'| - 1] == Entry(k, r))
  {
    var c := Run(max, ttl, ops);
    RunAppend(max, ttl, ops, Get(k, now));
    RunDistinct(max, ttl, ops);
    LookupFinds(c, k);
    DeleteKeys(c, k);
    DeleteSize(c, k);
    forall e | e in c && e.key == k ensures Lookup(c, k) == Some(e.rate) { DistinctLookup(c, e); }
    if Lookup(c, k).Some? { SnocMembers(Delete(c, k), Entry(k, Lookup(c, k).value)); }
  }

  /** So in any run every other key keeps what is held for it, and a get right after one that found an entry too old finds none. */
  lemma GetKeepsOthers(max: int, ttl: int, ops: seq<Op>, k: string, j: string, now: int, later: int)
    ensures var (c, c') := (Run(max, ttl, ops), Run(max, ttl, ops + [Get(k, now)]));
            && (j != k ==> Answer(ttl, c', Get(j, later)) == Answer(ttl, c, Get(j, later)))
            && ((exists e :: e in c && e.key == k && now - e.rate.cachedAt > ttl) ==> forall e :: e in c' ==> e.key != k)
  {
    var c, c' := Run(max, ttl, ops), Run(max, ttl, ops + [Get(k, now)]);
    GetExactly(max, ttl, ops, k, now);
    RunDistinct(max, ttl, ops);
    RunDistinct(max, ttl, ops + [Get(k, now)]);
    LookupFinds(c, j);
    LookupFinds(c', j);
    if j != k && Lookup(c, j).Some? { DistinctLookup(c', Entry(j, Lookup(c, j).value)); }
    if j != k && Lookup(c', j).Some? { DistinctLookup(c, Entry(j, Lookup(c', j).value)); }
    forall e, x | e in c && x in c && e.key == x.key ensures e == x {
      DistinctLookup(c, e);
      DistinctLookup(c, x);
    }
  }

  /** In any run, a set ends the map with its entry and leaves of the other keys all, unless at least max of them are held: then all
      but the one that comes first. */
  lemma SetExactly(max: int, ttl: int, ops: seq<Op>, k: string, r: CachedRate)
    ensures var (c, c') := (Run(max, ttl, ops), Run(max, ttl, ops + [Set(k, r)]));
            var others := |Keys(c) - {k}|;
            && c' != [] && c'[|c'| - 1] == Entry(k, r)
            && |c'| == (if others >= max && others > 0 then others else others + 1)
            && (forall i :: 0 <= i < |c| && c[i].key != k ==>
                  (c[i] in c' <==> others < max || exists j :: 0 <= j < i && c[j].key != k))
  {
    var c := Run(max, ttl, ops);
    var d := Delete(c, k);
    RunAppend(max, ttl, ops, Set(k, r));
    RunDistinct(max, ttl, ops);
    DeleteKeys(c, k);
    DeleteIsSubseq(c, k);
    SubseqDistinct(d, c);
    KeysCardinality(d);
    forall i | 0 <= i < |c| && c[i].key != k
      ensures c[i] in Evict(max, d) + [Entry(k, r)] <==> |d| < max || exists j :: 0 <= j < i && c[j].key != k
    {
      FirstOther(c, k, i);
    }
  }

  /** Without key k the map starts with the first entry of another key. */
  lemma FirstOther(c: seq<Entry>, k: string, i: nat)
    requires DistinctKeys(c) && i < |c| && c[i].key != k
    ensures var d := Delete(c, k);
            && d != [] && c[i] in d && (d[0] == c[i] <==> forall j :: 0 <= j < i ==> c[j].key == k)
            && (c[i] in d[1..] <==> d[0] != c[i])
  {
    var d := Delete(c, k);
    DeleteKeys(c, k);
    assert c[i] in c;
    DeleteFirst(c, k);
    if d[0] == c[i] {
      DeleteIsSubseq(c, k);
      SubseqDistinct(d, c);
    }
  }

  lemma {:induction false} DeleteFirst(c: seq<Entry>, k: string)
    ensures var d := Delete(c, k);
            d != [] ==> exists m :: 0 <= m < |c| && d[0] == c[m] && c[m].key != k && forall j :: 0 <= j < m ==> c[j].key == k
  {
    if c != [] {
      if c[0].key == k {
        DeleteFirst(c[1..], k);
        if Delete(c[1..], k) != [] {
          var m :| 0 <= m < |c[1..]| && Delete(c[1..], k)[0] == c[1..][m] && c[1..][m].key != k
                   && forall j :: 0 <= j < m ==> c[1..][j].key == k;
          assert forall j :: 1 <= j < m + 1 ==> c[j] == c[1..][j - 1];
          assert c[m + 1] == c[1..][m];
        }
      } else {
        assert Delete(c, k)[0] == c[0];
      }
    }
  }

  /** In any run, an invalidation drops the entry of its key and no other, and a clear drops everything. */
  lemma InvalidateExactly(max: int, ttl: int, ops: seq<Op>, k: string)
    ensures var c := Run(max, ttl, ops);
            && (forall e :: e in Run(max, ttl, ops + [Invalidate(k)]) <==> e in c && e.key != k)
            && Run(max, ttl, ops + [Clear]) == []
  {
    RunAppend(max, ttl, ops, Invalidate(k));
    RunAppend(max, ttl, ops, Clear);
    DeleteKeys(Run(max, ttl, ops), k);
  }

  // ---------------------------------------------------------------- the class

  class ExchangeRatesCache {
    const maxSize: int
    const ttlMs: int
    var cache: seq<Entry>

    constructor (maxSize: int, ttlMs: int)
      ensures this.maxSize == maxSize && this.ttlMs == ttlMs
      ensures cache == Run(maxSize, ttlMs, [])
    {
      this.maxSize, this.ttlMs := maxSize, ttlMs;
      cache := [];
    }

    method Get(from: string, to: string, now: int) returns (r: Option<CachedRate>)
      modifies this
      ensures r == Answer(ttlMs, old(cache), Op.Get(BuildKey(from, to), now))
      ensures cache == Step(maxSize, ttlMs, old(cache), Op.Get(BuildKey(from, to), now))
    {
      var key := BuildKey(from, to);
      var entry := Lookup(cache, key);
      if entry.None? { return None; }
      if now - entry.value.cachedAt > ttlMs {
        cache := Delete(cache, key);
        return None;
      }
      cache := Delete(cache, key);
      cache := cache + [Entry(key, entry.value)];
      return entry;
    }

    method Set(from: string, to: string, rate: real, now: int)
      modifies this
      ensures cache == Step(maxSize, ttlMs, old(cache), Op.Set(BuildKey(from, to), CachedRate(from, to, rate, now)))
    {
      var key := BuildKey(from, to);
      cache := Delete(cache, key);
      if |cache| >= maxSize {
        // keys are distinct, so deleting the first key is dropping the first entry
        if cache != [] { cache := cache[1..]; }
      }
      cache := cache + [Entry(key, CachedRate(from, to, rate, now))];
    }

    method Invalidate(from: string, to: string)
      modifies this
      ensures cache == Step(maxSize, ttlMs, old(cache), Op.Invalidate(BuildKey(from, to)))
    {
      cache := Delete(cache, BuildKey(from, to));
    }

    method Clear()
      modifies this
      ensures cache == Step(maxSize, ttlMs, old(cache), Op.Clear)
    {
      cache := [];
    }
  }
}
