/**
 * The attenuated Bloom filter: level k summarises what is subscribed k hops away. Merging a
 * neighbour's filter shifts its levels up by one.
 */
module Attenuated {
  import opened Words
  import opened ElasticFilter
  import opened ElasticImpl

  type Levels = seq<Filter>

  predicate WfLevels(ls: Levels) {
    forall i :: 0 <= i < |ls| ==> Wf(ls[i])
  }

  /** The lowest level that reports the topic from level `from` on, or |ls|. */
  function FirstHit(hash: Hasher, ls: Levels, topic: seq<Byte>, from: nat): (k: nat)
    requires WfLevels(ls) && from <= |ls|
    ensures from <= k <= |ls|
    ensures k < |ls| ==> Contains(hash, ls[k], topic)
    ensures forall i :: from <= i < k ==> !Contains(hash, ls[i], topic)
    decreases |ls| - from
  {
    if from == |ls| || Contains(hash, ls[from], topic) then from else FirstHit(hash, ls, topic, from + 1)
  }

  predicate Reports(hash: Hasher, ls: Levels, topic: seq<Byte>)
    requires WfLevels(ls)
  {
    FirstHit(hash, ls, topic, 0) < |ls|
  }

  /** Levels 1 to n of dest take in levels 0 to n - 1 of src. */
  function MergedUpTo(dest: Levels, src: Levels, n: nat): (r: Levels)
    requires WfLevels(dest) && WfLevels(src) && n <= |src|
    ensures |r| == |dest| && WfLevels(r)
  {
    seq(|dest|, i requires 0 <= i < |dest| => if 0 < i <= n then Merged(dest[i], src[i - 1]) else dest[i])
  }

  lemma MergedUpToNext(dest: Levels, src: Levels, n: nat)
    requires WfLevels(dest) && WfLevels(src) && n < |src| && n + 1 < |dest|
    ensures MergedUpTo(dest, src, n)[n + 1] == dest[n + 1]
    ensures MergedUpTo(dest, src, n + 1) == MergedUpTo(dest, src, n)[n + 1 := Merged(dest[n + 1], src[n])]
  {
  }

  /** Level i + 1 of dest takes in level i of src, as far as both go. */
  function MergedLevels(dest: Levels, src: Levels): (r: Levels)
    requires |dest| > 0 && WfLevels(dest) && WfLevels(src)
    ensures |r| == |dest| && WfLevels(r)
  {
    MergedUpTo(dest, src, if |src| < |dest| - 1 then |src| else |dest| - 1)
  }

  /** Filters that place elements alike. */
  predicate Alike(f: Filter, g: Filter) {
    f.size == g.size && f.hashCount == g.hashCount && f.seedA == g.seedA && f.seedB == g.seedB
  }

  /** A merge reports whatever either filter reported; dest keeps its own whatever src is. */
  lemma MergeReportsBoth(hash: Hasher, dest: Filter, src: Filter, data: seq<Byte>)
    requires Wf(dest) && Wf(src)
    ensures Contains(hash, dest, data) ==> Contains(hash, Merged(dest, src), data)
    ensures Alike(dest, src) && Contains(hash, src, data) ==> Contains(hash, Merged(dest, src), data)
  {
    var m := Merged(dest, src);
    if dest.size == src.size {
      forall i | 0 <= i < m.hashCount
        ensures Contains(hash, dest, data) ==> m.buckets[HashAt(hash, m, data, i) % m.size] != []
        ensures Alike(dest, src) && Contains(hash, src, data) ==> m.buckets[HashAt(hash, m, data, i) % m.size] != []
      {
        var b := HashAt(hash, m, data, i) % m.size;
        assert HashAt(hash, m, data, i) == HashAt(hash, dest, data, i);
        MergeNonempty(dest.buckets[b], src.buckets[b]);
        if Alike(dest, src) {
          assert HashAt(hash, m, data, i) == HashAt(hash, src, data, i);
        }
      }
    }
  }

  /** No level of dest loses a topic it reported. */
  lemma MergeKeepsLevels(hash: Hasher, dest: Levels, src: Levels, topic: seq<Byte>, i: nat)
    requires |dest| > 0 && WfLevels(dest) && WfLevels(src) && i < |dest|
    requires Contains(hash, dest[i], topic)
    ensures Contains(hash, MergedLevels(dest, src)[i], topic)
  {
    if 0 < i && i - 1 < |src| {
      MergeReportsBoth(hash, dest[i], src[i - 1], topic);
    }
  }

  lemma FirstHitAtMost(hash: Hasher, ls: Levels, topic: seq<Byte>, k: nat)
    requires WfLevels(ls) && k < |ls| && Contains(hash, ls[k], topic)
    ensures FirstHit(hash, ls, topic, 0) <= k
  {
  }

  /** What src reports at level k, dest reports at level k + 1 or below, if those levels are alike. */
  lemma MergeRoutes(hash: Hasher, dest: Levels, src: Levels, topic: seq<Byte>)
    requires |dest| > 0 && WfLevels(dest) && WfLevels(src)
    requires Reports(hash, src, topic) && FirstHit(hash, src, topic, 0) + 1 < |dest|
    requires Alike(dest[FirstHit(hash, src, topic, 0) + 1], src[FirstHit(hash, src, topic, 0)])
    ensures Reports(hash, MergedLevels(dest, src), topic)
    ensures FirstHit(hash, MergedLevels(dest, src), topic, 0) <= FirstHit(hash, src, topic, 0) + 1
  {
    var k := FirstHit(hash, src, topic, 0);
    MergeReportsBoth(hash, dest[k + 1], src[k], topic);
    FirstHitAtMost(hash, MergedLevels(dest, src), topic, k + 1);
  }

  // ---------------------------------------------------------------------------
  // Along a path of nodes
  // ---------------------------------------------------------------------------

  /** A filter merged into itself: level 1 takes in level 0, level 2 what level 1 has become, and so on to level n. */
  function Cascaded(ls: Levels, n: nat): (r: Levels)
    requires WfLevels(ls) && n < |ls|
    ensures |r| == |ls| && WfLevels(r)
  {
    if n == 0 then ls
    else
      var r := Cascaded(ls, n - 1);
      r[n := Merged(r[n], r[n - 1])]
  }

  lemma CascadedNext(ls: Levels, i: nat)
    requires WfLevels(ls) && i + 1 < |ls|
    ensures Cascaded(ls, i + 1) == Cascaded(ls, i)[i + 1 := Merged(Cascaded(ls, i)[i + 1], Cascaded(ls, i)[i])]
  {
  }

  /** So every level up to n reports what any level up to it reported. */
  lemma {:induction false} CascadeSpreads(hash: Hasher, ls: Levels, n: nat, j: nat, k: nat, topic: seq<Byte>)
    requires WfLevels(ls) && j <= k < |ls| && n < |ls| && (k <= n || j == k)
    requires forall i :: 0 <= i < |ls| ==> Alike(ls[i], ls[0])
    requires Contains(hash, ls[j], topic)
    ensures Contains(hash, Cascaded(ls, n)[k], topic) && Alike(Cascaded(ls, n)[k], ls[0])
    decreases n
  {
    if n > 0 {
      var r := Cascaded(ls, n - 1);
      CascadeShape(ls, n - 1);
      if k < n || j == k {
        CascadeSpreads(hash, ls, n - 1, j, k, topic);
        if k == n { MergeReportsBoth(hash, r[n], r[n - 1], topic); }
      } else {
        CascadeSpreads(hash, ls, n - 1, j, n - 1, topic);
        MergeReportsBoth(hash, r[n], r[n - 1], topic);
      }
    }
  }

  lemma {:induction false} CascadeShape(ls: Levels, n: nat)
    requires WfLevels(ls) && n < |ls| && forall i :: 0 <= i < |ls| ==> Alike(ls[i], ls[0])
    ensures forall i :: 0 <= i < |ls| ==> Alike(Cascaded(ls, n)[i], ls[0])
  {
    if n > 0 { CascadeShape(ls, n - 1); }
  }

  /** What the last node of a path holds when each node, from the second on, has merged the one before. */
  function Arrived(path: seq<Levels>): (r: Levels)
    requires |path| > 0 && forall i :: 0 <= i < |path| ==> |path[i]| > 0 && WfLevels(path[i])
    ensures |r| == |path[|path| - 1]| && WfLevels(r)
  {
    var n := |path| - 1;
    if n == 0 then path[0] else MergedLevels(path[n], Arrived(path[..n]))
  }

  predicate AllAlike(ls: Levels, f: Filter) {
    forall k :: 0 <= k < |ls| ==> Alike(ls[k], f)
  }

  lemma MergedAlike(dest: Levels, src: Levels, f: Filter)
    requires |dest| > 0 && WfLevels(dest) && WfLevels(src) && AllAlike(dest, f)
    ensures AllAlike(MergedLevels(dest, src), f)
  {
  }

  /** Filters of one shape all along the path, each with at least this many levels. */
  predicate Chain(path: seq<Levels>, f: Filter, least: nat) {
    forall i :: 0 <= i < |path| ==> |path[i]| >= least && WfLevels(path[i]) && AllAlike(path[i], f)
  }

  /** Filters keep their shape along the path. */
  lemma {:induction false} ArrivedAlike(path: seq<Levels>, f: Filter)
    requires |path| > 0 && Chain(path, f, 1)
    ensures AllAlike(Arrived(path), f)
  {
    var n := |path| - 1;
    if n > 0 { MergedAlike(path[n], Arrived(path[..n]), f); }
  }

  /** One hop: what level k of src contains, level k + 1 of dest contains after the merge. */
  lemma NextHop(hash: Hasher, dest: Levels, src: Levels, k: nat, topic: seq<Byte>)
    requires WfLevels(dest) && WfLevels(src) && k < |src| && k + 1 < |dest|
    requires Alike(dest[k + 1], src[k]) && Contains(hash, src[k], topic)
    ensures Contains(hash, MergedLevels(dest, src)[k + 1], topic)
  {
    MergeReportsBoth(hash, dest[k + 1], src[k], topic);
  }

  /** One more node on the path: the topic arrives one level further. */
  lemma FloodStep(hash: Hasher, path: seq<Levels>, f: Filter, k: nat, topic: seq<Byte>)
    requires |path| > 1 && Chain(path, f, |path|)
    requires var before := Arrived(path[..|path| - 1]);
             k < |path| - 1 && k < |before| && Contains(hash, before[k], topic)
    ensures |path| <= |Arrived(path)| && Contains(hash, Arrived(path)[k + 1], topic)
  {
    var n := |path| - 1;
    ArrivedAlike(path[..n], f);
    NextHop(hash, path[n], Arrived(path[..n]), k, topic);
  }

  /** The level at which a topic of the first node arrives. */
  lemma {:induction false} FloodHits(hash: Hasher, path: seq<Levels>, f: Filter, topic: seq<Byte>) returns (k: nat)
    requires |path| > 0 && Chain(path, f, |path|)
    requires Wf(path[0][0]) && Contains(hash, path[0][0], topic)
    ensures k < |path| <= |Arrived(path)| && Contains(hash, Arrived(path)[k], topic)
  {
    var n := |path| - 1;
    k := 0;
    if n > 0 {
      assert Chain(path[..n], f, n);
      k := FloodHits(hash, path[..n], f, topic);
      FloodStep(hash, path, f, k, topic);
      k := k + 1;
    }
  }

  /** A topic the first node reports at level 0 is reported n hops down the path at level n or below. */
  lemma FloodRoutes(hash: Hasher, path: seq<Levels>, f: Filter, topic: seq<Byte>)
    requires |path| > 0 && Chain(path, f, |path|)
    requires Wf(path[0][0]) && Contains(hash, path[0][0], topic)
    ensures Reports(hash, Arrived(path), topic) && FirstHit(hash, Arrived(path), topic, 0) <= |path| - 1
  {
    var k := FloodHits(hash, path, f, topic);
    FirstHitAtMost(hash, Arrived(path), topic, k);
  }

  // ---------------------------------------------------------------------------
  // In place
  // ---------------------------------------------------------------------------

  ghost function StatesOf(es: seq<Elastic>): (r: Levels)
    reads es
    ensures |r| == |es|
  {
    seq(|es|, i requires 0 <= i < |es| reads es => es[i].State())
  }

  class AttenuatedFilter {
    const hash: Hasher
    var levels: seq<Elastic>

    /** Distinct levels, each valid and each with bits of its own. */
    ghost predicate Valid()
      reads this, levels, set e | e in levels :: e.bits
    {
      && (forall i :: 0 <= i < |levels| ==> levels[i].Valid() && levels[i].hash == hash)
      && (forall i, j :: 0 <= i < j < |levels| ==> levels[i] != levels[j] && levels[i].bits != levels[j].bits)
    }

    ghost function State(): (r: Levels)
      reads this, levels
    {
      StatesOf(levels)
    }

    constructor (count: nat, size: nat, hashCount: nat, omega: real, fpBits: nat, hash: Hasher)
      requires size > 0 && fpBits < 64
      ensures Valid() && State() == seq(count, i => Empty(size, hashCount, fpBits))
    {
      this.hash := hash;
      var ls: seq<Elastic> := [];
      var i := 0;
      while i < count
        invariant 0 <= i <= count && |ls| == i
        invariant forall k :: 0 <= k < i ==> fresh(ls[k]) && fresh(ls[k].bits) && ls[k].Valid() && ls[k].hash == hash
        invariant forall k :: 0 <= k < i ==> ls[k].State() == Empty(size, hashCount, fpBits)
        invariant forall k, l :: 0 <= k < l < i ==> ls[k] != ls[l] && ls[k].bits != ls[l].bits
      {
        var e := new Elastic(size, hashCount, omega, fpBits, hash);
        ls := ls + [e];
        i := i + 1;
      }
      levels := ls;
    }

    method Subscribe(topic: seq<Byte>)
      requires Valid() && |levels| > 0
      modifies levels, set e | e in levels :: e.bits
      ensures Valid() && levels == old(levels)
      ensures State() == old(State())[0 := Add(hash, old(State())[0], topic, levels[0].omega)]
    {
      levels[0].AddData(topic);
    }

    method Check(topic: seq<Byte>) returns (found: bool, hops: nat)
      requires Valid()
      ensures WfLevels(State())
      ensures found == Reports(hash, State(), topic)
      ensures found ==> hops == FirstHit(hash, State(), topic, 0)
    {
      var level := 0;
      while level < |levels|
        invariant 0 <= level <= |levels|
        invariant FirstHit(hash, State(), topic, 0) == FirstHit(hash, State(), topic, level)
      {
        var here := levels[level].ContainsData(topic);
        if here { return true, level; }
        level := level + 1;
      }
      return false, 0;
    }

    /** Level i + 1 takes in level i of src. */
    method MergeLevel(src: AttenuatedFilter, i: nat)
      requires Valid() && src.Valid() && i + 1 < |levels| && i < |src.levels| && Apart(src)
      modifies levels[i + 1]
      ensures Valid() && src.Valid() && src.State() == old(src.State())
      ensures State() == old(State())[i + 1 := Merged(old(State())[i + 1], src.State()[i])]
    {
      var _ := levels[i + 1].Merge(src.levels[i]);
    }

    method MergeOwnLevel(i: nat)
      requires Valid() && i + 1 < |levels|
      modifies levels[i + 1]
      ensures Valid() && State() == old(State())[i + 1 := Merged(old(State())[i + 1], old(State())[i])]
    {
      var _ := levels[i + 1].Merge(levels[i]);
    }

    /** Filters own their levels: two different ones share none. */
    ghost predicate Apart(src: AttenuatedFilter)
      reads this, src
    {
      forall i, j :: 0 <= i < |levels| && 0 <= j < |src.levels| ==> levels[i] != src.levels[j]
    }

    method MergeFrom(src: AttenuatedFilter)
      requires Valid() && src.Valid() && (|levels| > 0 || |src.levels| == 0) && (src == this || Apart(src))
      modifies levels
      ensures Valid()
      ensures State() == if |levels| == 0 then []
                         else if src == this then Cascaded(old(State()), |levels| - 1)
                         else MergedLevels(old(State()), old(src.State()))
    {
      if |levels| == 0 {
        return;
      }
      if src == this {
        MergeIntoItself();
      } else {
        MergeOther(src);
      }
    }

    method MergeNext(src: AttenuatedFilter, i: nat, ghost dest: Levels, ghost from: Levels)
      requires Valid() && src.Valid() && i + 1 < |levels| && i < |src.levels| && Apart(src)
      requires WfLevels(dest) && WfLevels(from) && src.State() == from && State() == MergedUpTo(dest, from, i)
      modifies levels[i + 1]
      ensures Valid() && src.Valid() && src.State() == from && State() == MergedUpTo(dest, from, i + 1)
    {
      MergedUpToNext(dest, from, i);
      MergeLevel(src, i);
    }

    /** The merge loop on another filter. */
    method MergeOther(src: AttenuatedFilter)
      requires Valid() && src.Valid() && |levels| > 0 && src != this && Apart(src)
      modifies levels
      ensures Valid() && State() == MergedLevels(old(State()), old(src.State()))
    {
      ghost var dest, from := State(), src.State();
      assert MergedUpTo(dest, from, 0) == dest;
      var max := if |src.levels| < |levels| - 1 then |src.levels| else |levels| - 1;
      var i := 0;
      while i < max
        invariant 0 <= i <= max && Valid() && src.Valid()
        invariant src.State() == from && State() == MergedUpTo(dest, from, i)
      {
        MergeNext(src, i, dest, from);
        i := i + 1;
      }
    }

    /** The merge loop on the filter itself: each level takes in the one below as it has just become. */
    method MergeIntoItself()
      requires Valid() && |levels| > 0
      modifies levels
      ensures Valid() && State() == Cascaded(old(State()), |levels| - 1)
    {
      ghost var dest := State();
      assert WfLevels(dest);
      var i := 0;
      while i < |levels| - 1
        invariant 0 <= i <= |levels| - 1 && Valid() && State() == Cascaded(dest, i)
      {
        CascadedNext(dest, i);
        MergeOwnLevel(i);
        i := i + 1;
      }
    }
  }
}
