/** Where a merged level has its codes from: a neighbour's level k goes to level k + 1 and nowhere else. */
module AttenuatedOrigin {
  import opened Words
  import opened ElasticFilter
  import opened ElasticCodes
  import opened ElasticAnswers
  import opened Attenuated

  // ---------------------------------------------------------------------------
  // One merge
  // ---------------------------------------------------------------------------

  /** Level 0, and every level above the last of src moved up by one, stays as it was. */
  lemma MergeElsewhere(dest: Levels, src: Levels, i: nat)
    requires |dest| > 0 && WfLevels(dest) && WfLevels(src) && i < |dest|
    requires i == 0 || i > |src|
    ensures MergedLevels(dest, src)[i] == dest[i]
  {
  }

  /** A code of level i + 1 was stored in level i + 1 of dest or, if the sizes agree, in level i of src. */
  lemma MergeOrigin(dest: Levels, src: Levels, i: nat, c: nat)
    requires WfLevels(dest) && WfLevels(src) && i < |src| && i + 1 < |dest|
    ensures Stored(MergedLevels(dest, src)[i + 1], c) <==>
            Stored(dest[i + 1], c) || (dest[i + 1].size == src[i].size && Stored(src[i], c))
  {
    if dest[i + 1].size == src[i].size {
      MergeCodes(dest[i + 1], src[i], c);
    }
  }

  /** Hence a topic is reported as local after a merge exactly when it was before. */
  lemma MergeLocalIff(hash: Hasher, dest: Levels, src: Levels, topic: seq<Byte>)
    requires |dest| > 0 && WfLevels(dest) && WfLevels(src)
    ensures FirstHit(hash, MergedLevels(dest, src), topic, 0) == 0 <==> FirstHit(hash, dest, topic, 0) == 0
  {
    MergeElsewhere(dest, src, 0);
  }

  lemma MergeHits(dest: Filter, src: Filter, h: U64)
    requires Wf(dest) && Wf(src) && dest.size == src.size
    ensures Hit(Merged(dest, src), h) <==> Hit(dest, h) || Hit(src, h)
  {
    var m := Merged(dest, src);
    if Hit(m, h) {
      var c: nat :| Stored(m, c) && c % m.size == h % m.size;
      MergeCodes(dest, src, c);
    }
    if Hit(dest, h) {
      var c: nat :| Stored(dest, c) && c % dest.size == h % dest.size;
      MergeCodes(dest, src, c);
    }
    if Hit(src, h) {
      var c: nat :| Stored(src, c) && c % src.size == h % src.size;
      MergeCodes(dest, src, c);
    }
  }

  /** Level i + 1 reports a topic exactly when each round hits level i + 1 of dest or level i of src. */
  lemma MergeAnswer(hash: Hasher, dest: Levels, src: Levels, i: nat, topic: seq<Byte>)
    requires WfLevels(dest) && WfLevels(src) && i < |src| && i + 1 < |dest| && Alike(dest[i + 1], src[i])
    ensures Contains(hash, MergedLevels(dest, src)[i + 1], topic) <==>
            forall r :: 0 <= r < src[i].hashCount ==>
              var h := RoundHash(hash, src[i].seedA, src[i].seedB, topic, r);
              Hit(dest[i + 1], h) || Hit(src[i], h)
  {
    var m := Merged(dest[i + 1], src[i]);
    ContainsSpelled(hash, m, topic);
    forall r | 0 <= r < m.hashCount
      ensures var h := RoundHash(hash, m.seedA, m.seedB, topic, r);
              Hit(m, h) <==> Hit(dest[i + 1], h) || Hit(src[i], h)
    {
      MergeHits(dest[i + 1], src[i], RoundHash(hash, m.seedA, m.seedB, topic, r));
    }
  }

  /** With one hash round a level reports exactly what the two levels reported. */
  lemma OneRoundAnswer(hash: Hasher, dest: Levels, src: Levels, i: nat, topic: seq<Byte>)
    requires WfLevels(dest) && WfLevels(src) && i < |src| && i + 1 < |dest|
    requires Alike(dest[i + 1], src[i]) && src[i].hashCount == 1
    ensures Contains(hash, MergedLevels(dest, src)[i + 1], topic)
            <==> Contains(hash, dest[i + 1], topic) || Contains(hash, src[i], topic)
  {
    MergeAnswer(hash, dest, src, i, topic);
    ContainsSpelled(hash, dest[i + 1], topic);
    ContainsSpelled(hash, src[i], topic);
    var h := RoundHash(hash, src[i].seedA, src[i].seedB, topic, 0);
    assert Contains(hash, dest[i + 1], topic) <==> Hit(dest[i + 1], h);
    assert Contains(hash, src[i], topic) <==> Hit(src[i], h);
  }

  /** Then the hops reported are the smaller of the own hops and one more than the neighbour's. */
  lemma MergeHops(hash: Hasher, dest: Levels, src: Levels, f: Filter, topic: seq<Byte>)
    requires |dest| > 0 && WfLevels(dest) && WfLevels(src) && AllAlike(dest, f) && AllAlike(src, f)
    requires f.hashCount == 1
    ensures var own := FirstHit(hash, dest, topic, 0);
            var next := if Reports(hash, src, topic) then FirstHit(hash, src, topic, 0) + 1 else |dest|;
            FirstHit(hash, MergedLevels(dest, src), topic, 0) == if own <= next then own else next
  {
    var m := MergedLevels(dest, src);
    var own := FirstHit(hash, dest, topic, 0);
    var next := if Reports(hash, src, topic) then FirstHit(hash, src, topic, 0) + 1 else |dest|;
    forall i | 0 <= i < |dest|
      ensures Contains(hash, m[i], topic)
              <==> Contains(hash, dest[i], topic) || (0 < i <= |src| && Contains(hash, src[i - 1], topic))
    {
      if 0 < i <= |src| { OneRoundAnswer(hash, dest, src, i - 1, topic); } else { MergeElsewhere(dest, src, i); }
    }
    FirstIs(hash, m, topic, if own <= next then own else next);
  }

  /** FirstHit is the only index that is a first. */
  lemma FirstIs(hash: Hasher, ls: Levels, topic: seq<Byte>, k: nat)
    requires WfLevels(ls) && k <= |ls| && (k < |ls| ==> Contains(hash, ls[k], topic))
    requires forall i :: 0 <= i < k ==> !Contains(hash, ls[i], topic)
    ensures FirstHit(hash, ls, topic, 0) == k
  {
  }

  // ---------------------------------------------------------------------------
  // A filter merged into itself
  // ---------------------------------------------------------------------------

  /** Level 0, and every level above n, stays as it was. */
  lemma {:induction false} CascadeElsewhere(ls: Levels, n: nat, k: nat)
    requires WfLevels(ls) && n < |ls| && k < |ls| && (k == 0 || k > n)
    ensures Cascaded(ls, n)[k] == ls[k]
  {
    if n > 0 { CascadeElsewhere(ls, n - 1, k); }
  }

  lemma CascadeLocalIff(hash: Hasher, ls: Levels, n: nat, topic: seq<Byte>)
    requires WfLevels(ls) && n < |ls|
    ensures FirstHit(hash, Cascaded(ls, n), topic, 0) == 0 <==> FirstHit(hash, ls, topic, 0) == 0
  {
    CascadeElsewhere(ls, n, 0);
  }

  ghost predicate HitUpTo(ls: Levels, k: nat, h: U64)
    requires WfLevels(ls) && k < |ls|
  {
    exists j :: 0 <= j <= k && Hit(ls[j], h)
  }

  /** Level k up to n is hit exactly when some level up to k was. */
  lemma {:induction false} CascadeHits(ls: Levels, n: nat, k: nat, h: U64)
    requires WfLevels(ls) && k <= n < |ls| && forall i :: 0 <= i < |ls| ==> Alike(ls[i], ls[0])
    ensures Hit(Cascaded(ls, n)[k], h) <==> HitUpTo(ls, k, h)
    decreases n
  {
    if n > 0 {
      var r := Cascaded(ls, n - 1);
      CascadeShape(ls, n - 1);
      if k < n {
        CascadeHits(ls, n - 1, k, h);
      } else {
        CascadeHits(ls, n - 1, n - 1, h);
        CascadeElsewhere(ls, n - 1, n);
        MergeHits(r[n], r[n - 1], h);
      }
    }
  }

  // ---------------------------------------------------------------------------
  // A path of nodes
  // ---------------------------------------------------------------------------

  /** Filters of one shape all along the path, each with this many levels. */
  predicate Uniform(path: seq<Levels>, f: Filter, levels: nat) {
    Chain(path, f, 1) && forall i :: 0 <= i < |path| ==> |path[i]| == levels
  }

  /** The node j hops before the end of the path is hit at level k - j. */
  ghost predicate HitBack(path: seq<Levels>, k: nat, j: nat, h: U64) {
    && j < |path| && j <= k && k - j < |path[|path| - 1 - j]|
    && Wf(path[|path| - 1 - j][k - j]) && Hit(path[|path| - 1 - j][k - j], h)
  }

  ghost predicate HitOnPath(path: seq<Levels>, k: nat, h: U64) {
    exists j: nat :: HitBack(path, k, j, h)
  }

  lemma HitBackNext(path: seq<Levels>, k: nat, j: nat, h: U64)
    requires |path| > 1 && j > 0
    ensures HitBack(path, k, j, h) <==> k > 0 && HitBack(path[..|path| - 1], k - 1, j - 1, h)
  {
    if j < |path| {
      assert path[..|path| - 1][|path| - 2 - (j - 1)] == path[|path| - 1 - j];
    }
  }

  lemma HitOnPathNext(path: seq<Levels>, k: nat, h: U64)
    requires |path| > 1
    ensures HitOnPath(path, k, h) <==>
            HitBack(path, k, 0, h) || (k > 0 && HitOnPath(path[..|path| - 1], k - 1, h))
  {
    var rest := path[..|path| - 1];
    if HitOnPath(path, k, h) && !HitBack(path, k, 0, h) {
      var j: nat :| HitBack(path, k, j, h);
      HitBackNext(path, k, j, h);
    }
    if k > 0 && HitOnPath(rest, k - 1, h) {
      var j: nat :| HitBack(rest, k - 1, j, h);
      HitBackNext(path, k, j + 1, h);
    }
  }

  /**
   * Level k at the end of a path is hit exactly when some node j hops back is hit at its own level k - j: what
   * is known k hops away comes from there and from nowhere else.
   */
  lemma {:induction false} FloodExact(path: seq<Levels>, f: Filter, levels: nat, k: nat, h: U64)
    requires |path| > 0 && Uniform(path, f, levels) && k < levels
    ensures Hit(Arrived(path)[k], h) <==> HitOnPath(path, k, h)
  {
    var n := |path| - 1;
    assert HitBack(path, k, 0, h) <==> Hit(path[n][k], h);
    if n > 0 {
      var before := Arrived(path[..n]);
      HitOnPathNext(path, k, h);
      if k == 0 {
        MergeElsewhere(path[n], before, 0);
      } else {
        FloodExact(path[..n], f, levels, k - 1, h);
        ArrivedAlike(path[..n], f);
        MergeHits(path[n][k], before[k - 1], h);
      }
    }
  }
}
