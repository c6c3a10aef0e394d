/** When a topic gets to the neighbour: levels grow one by one, and a merge of unequal sizes does nothing. */
module AttenuatedGrowth {
  // A subscription grows level 0 alone. Merging into a level of another size is refused, the refusal is
  // ignored, and the topic does not arrive. So routing works exactly while the sizes agree.

  import opened Words
  import opened ElasticFilter
  import opened ElasticCodes
  import opened ElasticRuns
  import opened ElasticImpl
  import opened Attenuated

  /** Unequal sizes: the level stays as it is, whatever it held. */
  lemma UnequalIsRefused(dest: Levels, src: Levels, k: nat)
    requires |dest| > 0 && WfLevels(dest) && WfLevels(src) && k < |src| && k + 1 < |dest|
    requires dest[k + 1].size != src[k].size
    ensures MergedLevels(dest, src)[k + 1] == dest[k + 1]
  {
  }

  /** Merged into an empty level alike, a filter is reported exactly as it was. */
  lemma IntoEmpty(hash: Hasher, dest: Filter, src: Filter, topic: seq<Byte>)
    requires Wf(dest) && Wf(src) && Alike(dest, src) && dest.buckets == EmptyTable(dest.size)
    ensures Contains(hash, Merged(dest, src), topic) <==> Contains(hash, src, topic)
  {
    var m := Merged(dest, src);
    forall i | 0 <= i < m.hashCount
      ensures m.buckets[HashAt(hash, m, topic, i) % m.size] != []
              <==> src.buckets[HashAt(hash, src, topic, i) % src.size] != []
    {
      var b := HashAt(hash, m, topic, i) % m.size;
      assert HashAt(hash, m, topic, i) == HashAt(hash, src, topic, i);
      MergeNonempty(dest.buckets[b], src.buckets[b]);
    }
  }

  lemma EmptyReportsNothing(hash: Hasher, f: Filter, topic: seq<Byte>)
    requires Wf(f) && f.hashCount > 0 && f.buckets == EmptyTable(f.size)
    ensures !Contains(hash, f, topic)
  {
    assert f.buckets[HashAt(hash, f, topic, 0) % f.size] == [];
  }

  /** The filters of a node whose level 0 took in the topic and was then resized. */
  function Sender(hash: Hasher, size: nat, rounds: nat, fpBits: nat, topic: seq<Byte>, steps: seq<Step>): (r: Levels)
    requires size > 0 && fpBits < 64
    ensures |r| == 1 && WfLevels(r)
  {
    [Run(hash, Single(hash, size, rounds, fpBits, topic), steps)]
  }

  /**
   * A new neighbour with levels of any size merges the sender. For no hash function does the topic arrive if
   * the sender's level 0 has ended at another size; at the same size it arrives for every hash function if
   * and only if the resizes have left enough bits.
   */
  lemma ArrivesIff(size: nat, rounds: nat, fpBits: nat, topic: seq<Byte>, steps: seq<Step>, at: nat, levels: nat)
    requires size > 0 && rounds > 0 && fpBits < 64 && Keeping(size, steps) && ResizesOnly(steps)
    requires FinalSize(size, steps) <= TWO64 && at > 0 && levels > 1
    ensures var dest := seq(levels, i => Empty(at, rounds, fpBits));
            && (at != FinalSize(size, steps) ==> forall hash: Hasher ::
                  !Contains(hash, MergedLevels(dest, Sender(hash, size, rounds, fpBits, topic, steps))[1], topic))
            && ((forall hash: Hasher ::
                   Contains(hash, MergedLevels(dest, Sender(hash, size, rounds, fpBits, topic, steps))[1], topic))
                <==> at == FinalSize(size, steps) && ReliableAfter(size, steps, Width(fpBits)) >= 0)
  {
    var dest: Levels := seq(levels, i => Empty(at, rounds, fpBits));
    var any: Hasher := (d, seed) => 0;
    if at != FinalSize(size, steps) {
      forall hash: Hasher
        ensures !Contains(hash, MergedLevels(dest, Sender(hash, size, rounds, fpBits, topic, steps))[1], topic)
      {
        SenderArrives(hash, size, rounds, fpBits, topic, steps, at, dest);
      }
      assert !Contains(any, MergedLevels(dest, Sender(any, size, rounds, fpBits, topic, steps))[1], topic);
    } else if ReliableAfter(size, steps, Width(fpBits)) >= 0 {
      forall hash: Hasher
        ensures Contains(hash, MergedLevels(dest, Sender(hash, size, rounds, fpBits, topic, steps))[1], topic)
      {
        NoFalseNegatives(hash, Empty(size, rounds, fpBits), topic, steps);
        SenderArrives(hash, size, rounds, fpBits, topic, steps, at, dest);
      }
    } else {
      var hash := SomeHashLoses(size, rounds, fpBits, topic, steps);
      SenderArrives(hash, size, rounds, fpBits, topic, steps, at, dest);
    }
  }

  lemma SenderArrives(hash: Hasher, size: nat, rounds: nat, fpBits: nat, topic: seq<Byte>, steps: seq<Step>, at: nat,
                      dest: Levels)
    requires size > 0 && rounds > 0 && fpBits < 64 && at > 0 && |dest| > 1 && WfLevels(dest)
    requires dest[1] == Empty(at, rounds, fpBits)
    ensures var sent := Sender(hash, size, rounds, fpBits, topic, steps);
            Contains(hash, MergedLevels(dest, sent)[1], topic)
            <==> at == FinalSize(size, steps) && Contains(hash, sent[0], topic)
  {
    RunShape(hash, Single(hash, size, rounds, fpBits, topic), steps);
    ArrivesFrom(hash, dest, Sender(hash, size, rounds, fpBits, topic, steps), topic);
  }

  lemma ArrivesFrom(hash: Hasher, dest: Levels, src: Levels, topic: seq<Byte>)
    requires |dest| > 1 && |src| > 0 && WfLevels(dest) && WfLevels(src)
    requires dest[1].buckets == EmptyTable(dest[1].size) && dest[1].hashCount == src[0].hashCount > 0
    requires dest[1].seedA == src[0].seedA && dest[1].seedB == src[0].seedB
    ensures Contains(hash, MergedLevels(dest, src)[1], topic)
            <==> dest[1].size == src[0].size && Contains(hash, src[0], topic)
  {
    if dest[1].size == src[0].size {
      IntoEmpty(hash, dest[1], src[0], topic);
    } else {
      UnequalIsRefused(dest, src, 0);
      EmptyReportsNothing(hash, dest[1], topic);
    }
  }

  // ---------------------------------------------------------------------------
  // Subscribe, then merge
  // ---------------------------------------------------------------------------

  /** The filters of a node after attenuated_bloom_filter_subscribe. */
  function Subscribed(hash: Hasher, ls: Levels, topic: seq<Byte>, omega: real): (r: Levels)
    requires |ls| > 0 && WfLevels(ls)
    ensures |r| == |ls| && WfLevels(r)
  {
    ls[0 := Add(hash, ls[0], topic, omega)]
  }

  /**
   * From levels alike, a subscription that is then merged by a neighbour that did not report the topic
   * arrives there if and only if it did not make level 0 grow.
   */
  lemma SubscriptionArrivesIff(hash: Hasher, dest: Levels, src: Levels, topic: seq<Byte>, omega: real)
    requires |dest| > 1 && |src| > 0 && WfLevels(dest) && WfLevels(src) && Alike(dest[1], src[0])
    requires !Contains(hash, dest[1], topic)
    ensures Contains(hash, MergedLevels(dest, Subscribed(hash, src, topic, omega))[1], topic)
            <==> Ratio(Insert(hash, src[0], topic)) <= omega
  {
    var g := Insert(hash, src[0], topic);
    if Ratio(g) <= omega {
      NoFalseNegatives(hash, src[0], topic, []);
      MergeReportsBoth(hash, dest[1], g, topic);
    } else {
      UnequalIsRefused(dest, Subscribed(hash, src, topic, omega), 0);
    }
  }

  /** New filters of one bucket and the share 3/4: the first subscription grows and is lost to the neighbour. */
  lemma FirstSubscriptionLost(hash: Hasher, fpBits: nat, topic: seq<Byte>)
    requires 0 < fpBits < 64
    ensures var ls := [Empty(1, 1, fpBits), Empty(1, 1, fpBits)];
            var sent := Subscribed(hash, ls, topic, 0.75);
            Contains(hash, sent[0], topic) && !Contains(hash, MergedLevels(ls, sent)[1], topic)
  {
    var f := Empty(1, 1, fpBits);
    var ls := [f, f];
    OneBucket(hash, fpBits, topic);
    EmptyReportsNothing(hash, f, topic);
    SubscriptionArrivesIff(hash, ls, ls, topic, 0.75);
    var grow := [DoExpand];
    NoFalseNegatives(hash, f, topic, grow);
    assert Run(hash, Apply(hash, Insert(hash, f, topic), DoExpand), grow[1..]) == Expanded(Insert(hash, f, topic));
  }

  lemma OneBucket(hash: Hasher, fpBits: nat, topic: seq<Byte>)
    requires fpBits < 64
    ensures Ratio(Insert(hash, Empty(1, 1, fpBits), topic)) == 1.0
  {
    var f := Empty(1, 1, fpBits);
    var g := Insert(hash, f, topic);
    NoFalseNegatives(hash, f, topic, []);
    assert g.buckets[HashAt(hash, g, topic, 0) % 1] != [];
    assert g.buckets[..0] == [];
    assert Occupied(g.buckets) == 1;
  }
}
