/** The channel manager's table of tombstones: one per deleted topic, the newest notice winning. */
module Tombstones {
  import opened Options

  const MAX_TOMBSTONES: nat := 64

  /** A delete or modify notice; what is signed besides topic and times is carried along. */
  datatype Tombstone = Tombstone(topic: string, timestamp: nat, expires: nat, notice: string)

  predicate Distinct(t: seq<Tombstone>) {
    forall i, j :: 0 <= i < j < |t| ==> t[i].topic != t[j].topic
  }

  /** The first entry of the topic, or the size of the table. */
  function Index(t: seq<Tombstone>, topic: string): (i: nat)
    ensures i <= |t| && (i < |t| ==> t[i].topic == topic)
    ensures forall j :: 0 <= j < i ==> t[j].topic != topic
  {
    if t == [] then 0
    else if t[0].topic == topic then 0
    else 1 + Index(t[1..], topic)
  }

  function Lookup(t: seq<Tombstone>, topic: string): Option<Tombstone> {
    var i := Index(t, topic);
    if i < |t| then Some(t[i]) else None
  }

  function Add(t: seq<Tombstone>, x: Tombstone): seq<Tombstone> {
    var i := Index(t, x.topic);
    if i < |t| then if x.timestamp > t[i].timestamp then t[i := x] else t
    else if |t| >= MAX_TOMBSTONES then t
    else t + [x]
  }

  /** All notices in order, from an empty table. */
  function AddAll(xs: seq<Tombstone>): seq<Tombstone> {
    if xs == [] then [] else Add(AddAll(xs[..|xs| - 1]), xs[|xs| - 1])
  }

  // ---------------------------------------------------------------------------
  // The newest notice of every topic
  // ---------------------------------------------------------------------------

  function Topics(xs: seq<Tombstone>): set<string> {
    set x | x in xs :: x.topic
  }

  /** A topic's notices with the same timestamp are the same notice. */
  predicate Consistent(xs: seq<Tombstone>) {
    forall x, y :: x in xs && y in xs && x.topic == y.topic && x.timestamp == y.timestamp ==> x == y
  }

  predicate Newest(xs: seq<Tombstone>, x: Tombstone) {
    x in xs && forall y :: y in xs && y.topic == x.topic ==> y.timestamp <= x.timestamp
  }

  /** The table never overflows and never lists a topic twice. */
  lemma {:induction false} AddAllDistinct(xs: seq<Tombstone>)
    ensures Distinct(AddAll(xs)) && |AddAll(xs)| <= MAX_TOMBSTONES
    ensures forall x :: x in AddAll(xs) ==> x in xs
  {
    if xs != [] {
      var n := |xs| - 1;
      AddAllDistinct(xs[..n]);
      assert xs == xs[..n] + [xs[n]];
    }
  }

  lemma {:induction false} DistinctCount(t: seq<Tombstone>)
    requires Distinct(t)
    ensures |Topics(t)| == |t|
  {
    if t != [] {
      var n := |t| - 1;
      DistinctCount(t[..n]);
      LastIsNew(t);
    }
  }

  lemma LastIsNew(t: seq<Tombstone>)
    requires Distinct(t) && t != []
    ensures var n := |t| - 1; t[n].topic !in Topics(t[..n]) && Topics(t) == Topics(t[..n]) + {t[n].topic}
  {
    var n := |t| - 1;
    TopicsStep(t[..n], t[n]);
    assert t == t[..n] + [t[n]];
  }

  lemma TopicsStep(xs: seq<Tombstone>, x: Tombstone)
    ensures Topics(xs + [x]) == Topics(xs) + {x.topic}
  {
    assert forall y :: y in xs + [x] <==> y in xs || y == x;
    assert x in xs + [x];
  }

  lemma InTopics(t: seq<Tombstone>, topic: string)
    ensures topic in Topics(t) <==> Index(t, topic) < |t|
  {
    var i := Index(t, topic);
    if i < |t| { assert t[i] in t; }
  }

  lemma CountMonotone(a: set<string>, b: set<string>)
    requires a <= b
    ensures |a| <= |b|
  {
    assert b == a + (b - a);
  }

  /** One notice, as a change of the set of listed topics. */
  lemma AddTopics(t: seq<Tombstone>, x: Tombstone)
    ensures x.topic in Topics(t) || |t| < MAX_TOMBSTONES ==> Topics(Add(t, x)) == Topics(t) + {x.topic}
  {
    var i := Index(t, x.topic);
    InTopics(t, x.topic);
    if i == |t| {
      TopicsStep(t, x);
    } else {
      var r := t[i := x];
      forall k ensures k in Topics(r) <==> k in Topics(t) {
        if k in Topics(r) {
          var j :| 0 <= j < |r| && r[j].topic == k;
          assert t[j] in t && t[j].topic == k;
        }
        if k in Topics(t) {
          var j :| 0 <= j < |t| && t[j].topic == k;
          assert r[j] in r && r[j].topic == k;
        }
      }
    }
  }

  /** Every topic is remembered exactly when there are no more topics than places. */
  lemma {:induction false} AllRememberedIff(xs: seq<Tombstone>)
    ensures Topics(AddAll(xs)) == Topics(xs) <==> |Topics(xs)| <= 64
  {
    AddAllDistinct(xs);
    DistinctCount(AddAll(xs));
    if |Topics(xs)| <= MAX_TOMBSTONES && xs != [] {
      var n := |xs| - 1;
      var t, x := AddAll(xs[..n]), xs[n];
      assert xs == xs[..n] + [x];
      TopicsStep(xs[..n], x);
      CountMonotone(Topics(xs[..n]), Topics(xs));
      AllRememberedIff(xs[..n]);
      AddAllDistinct(xs[..n]);
      DistinctCount(t);
      AddTopics(t, x);
    }
  }

  lemma IndexIs(t: seq<Tombstone>, topic: string, i: nat)
    requires i < |t| && t[i].topic == topic && forall j :: 0 <= j < i ==> t[j].topic != topic
    ensures Index(t, topic) == i
  {
    var k := Index(t, topic);
    assert k < |t| ==> t[k].topic == topic;
  }

  /** One notice, as a change of the answers. */
  lemma AddLookup(t: seq<Tombstone>, x: Tombstone, topic: string)
    ensures topic != x.topic ==> Lookup(Add(t, x), topic) == Lookup(t, topic)
    ensures Lookup(t, x.topic).None? && |t| < MAX_TOMBSTONES ==> Lookup(Add(t, x), x.topic) == Some(x)
    ensures Lookup(t, x.topic).Some? ==>
              var e := Lookup(t, x.topic).value;
              Lookup(Add(t, x), x.topic) == Some(if x.timestamp > e.timestamp then x else e)
  {
    var i, k := Index(t, x.topic), Index(t, topic);
    var r := Add(t, x);
    if i < |r| { IndexIs(r, x.topic, i); }
    if topic != x.topic && k < |t| { IndexIs(r, topic, k); }
  }

  /** Adding z, the newest of its topic changes from e to the later of the two. */
  lemma NewestStep(ys: seq<Tombstone>, e: Tombstone, z: Tombstone, x: Tombstone)
    requires Consistent(ys + [z]) && Newest(ys, e) && e.topic == z.topic == x.topic
    ensures Newest(ys + [z], x) <==> x == if z.timestamp > e.timestamp then z else e
  {
    var xs := ys + [z];
    assert z in xs && e in xs;
    assert forall y :: y in xs <==> y in ys || y == z;
  }

  lemma NewestOther(ys: seq<Tombstone>, z: Tombstone, x: Tombstone)
    ensures x.topic != z.topic ==> (Newest(ys + [z], x) <==> Newest(ys, x))
    ensures x.topic == z.topic && z.topic !in Topics(ys) ==> (Newest(ys + [z], x) <==> x == z)
  {
    assert forall y :: y in ys + [z] <==> y in ys || y == z;
  }

  /** With room for every topic, the table holds exactly the newest notice of each. */
  lemma {:induction false} HoldsNewest(xs: seq<Tombstone>, x: Tombstone)
    requires Consistent(xs) && |Topics(xs)| <= 64
    ensures Lookup(AddAll(xs), x.topic) == Some(x) <==> Newest(xs, x)
    decreases |xs|
  {
    if xs != [] {
      var n := |xs| - 1;
      var ys, z := xs[..n], xs[n];
      var t := AddAll(ys);
      assert xs == ys + [z];
      FewerTopics(ys, z);
      if x.topic != z.topic {
        HoldsNewest(ys, x);
        AddLookup(t, z, x.topic);
        NewestOther(ys, z, x);
      } else if Lookup(t, z.topic).Some? {
        HoldsNewest(ys, Lookup(t, z.topic).value);
        HeldTopic(ys, z, x);
      } else {
        NewTopic(ys, z, x);
      }
    }
  }

  lemma FewerTopics(ys: seq<Tombstone>, z: Tombstone)
    ensures |Topics(ys)| <= |Topics(ys + [z])|
  {
    TopicsStep(ys, z);
    CountMonotone(Topics(ys), Topics(ys + [z]));
  }

  /** A notice of a topic that is held. */
  lemma HeldTopic(ys: seq<Tombstone>, z: Tombstone, x: Tombstone)
    requires Consistent(ys + [z]) && x.topic == z.topic && Lookup(AddAll(ys), z.topic).Some?
    requires Newest(ys, Lookup(AddAll(ys), z.topic).value)
    ensures Lookup(Add(AddAll(ys), z), x.topic) == Some(x) <==> Newest(ys + [z], x)
  {
    AddLookup(AddAll(ys), z, x.topic);
    NewestStep(ys, Lookup(AddAll(ys), z.topic).value, z, x);
  }

  lemma NewTopic(ys: seq<Tombstone>, z: Tombstone, x: Tombstone)
    requires |Topics(ys + [z])| <= MAX_TOMBSTONES && x.topic == z.topic && Lookup(AddAll(ys), z.topic).None?
    ensures Lookup(Add(AddAll(ys), z), x.topic) == Some(x) <==> Newest(ys + [z], x)
  {
    RoomLeft(ys, z);
    AddLookup(AddAll(ys), z, x.topic);
    NewestOther(ys, z, x);
  }

  /** A topic not found, among no more topics than places, has not been noticed and has a place. */
  lemma RoomLeft(ys: seq<Tombstone>, z: Tombstone)
    requires |Topics(ys + [z])| <= MAX_TOMBSTONES && Lookup(AddAll(ys), z.topic).None?
    ensures z.topic !in Topics(ys) && |AddAll(ys)| < MAX_TOMBSTONES
  {
    TopicsStep(ys, z);
    CountMonotone(Topics(ys), Topics(ys + [z]));
    AllRememberedIff(ys);
    AddAllDistinct(ys);
    DistinctCount(AddAll(ys));
    InTopics(AddAll(ys), z.topic);
  }

  predicate SameNotices(xs: seq<Tombstone>, ys: seq<Tombstone>) {
    (forall x :: x in xs ==> x in ys) && (forall y :: y in ys ==> y in xs)
  }

  /** The same tombstones in any order and any number of times each leave the same answer for every topic. */
  lemma SameAnswers(xs: seq<Tombstone>, ys: seq<Tombstone>, topic: string)
    requires Consistent(xs) && |Topics(xs)| <= MAX_TOMBSTONES && SameNotices(xs, ys)
    ensures Lookup(AddAll(xs), topic) == Lookup(AddAll(ys), topic)
  {
    assert Topics(xs) == Topics(ys);
    var a, b := AddAll(xs), AddAll(ys);
    forall x: Tombstone ensures Lookup(a, x.topic) == Some(x) <==> Lookup(b, x.topic) == Some(x) {
      HoldsNewest(xs, x);
      HoldsNewest(ys, x);
    }
    assert Lookup(a, topic).Some? ==> Lookup(a, topic).value.topic == topic;
    assert Lookup(b, topic).Some? ==> Lookup(b, topic).value.topic == topic;
  }

  // ---------------------------------------------------------------------------
  // Repeated notices
  // ---------------------------------------------------------------------------

  // The expiry time is set when a notice is received, so the same notice received twice gives two
  // tombstones that differ in it.

  /** The notice behind a tombstone: all but the time of receipt. */
  function Notice(x: Tombstone): Tombstone {
    x.(expires := 0)
  }

  function Notices(t: seq<Tombstone>): (r: seq<Tombstone>)
    ensures |r| == |t| && forall i :: 0 <= i < |t| ==> r[i] == Notice(t[i])
  {
    if t == [] then [] else Notices(t[..|t| - 1]) + [Notice(t[|t| - 1])]
  }

  function NoticeOf(o: Option<Tombstone>): Option<Tombstone> {
    if o.None? then None else Some(Notice(o.value))
  }

  lemma NoticesIndex(t: seq<Tombstone>, topic: string)
    ensures Index(Notices(t), topic) == Index(t, topic)
    ensures Lookup(Notices(t), topic) == NoticeOf(Lookup(t, topic))
  {
    var i, r := Index(t, topic), Notices(t);
    var k := Index(r, topic);
    assert k < |r| ==> t[k].topic == r[k].topic;
    if i < |t| { IndexIs(r, topic, i); }
  }

  lemma NoticesAdd(t: seq<Tombstone>, x: Tombstone)
    ensures Notices(Add(t, x)) == Add(Notices(t), Notice(x))
  {
    NoticesIndex(t, x.topic);
    var i := Index(t, x.topic);
    if i < |t| {
      assert Notices(t[i := x]) == Notices(t)[i := Notice(x)];
    } else {
      assert Notices(t + [x]) == Notices(t) + [Notice(x)];
    }
  }

  lemma {:induction false} NoticesAddAll(xs: seq<Tombstone>)
    ensures Notices(AddAll(xs)) == AddAll(Notices(xs))
  {
    if xs != [] {
      var n := |xs| - 1;
      NoticesAddAll(xs[..n]);
      NoticesAdd(AddAll(xs[..n]), xs[n]);
      assert Notices(xs)[..n] == Notices(xs[..n]);
    }
  }

  lemma NoticesTopics(xs: seq<Tombstone>)
    ensures Topics(Notices(xs)) == Topics(xs)
  {
    forall k ensures k in Topics(Notices(xs)) <==> k in Topics(xs) {
      if k in Topics(xs) {
        var i :| 0 <= i < |xs| && xs[i].topic == k;
        assert Notices(xs)[i] in Notices(xs);
      }
      if k in Topics(Notices(xs)) {
        var i :| 0 <= i < |xs| && Notices(xs)[i].topic == k;
        assert xs[i] in xs;
      }
    }
  }

  /**
   * Order and repetition of notices do not matter: the same notices, received in any order, any number of
   * times each and at any times, leave the same notice for every topic.
   */
  lemma OrderIndependent(xs: seq<Tombstone>, ys: seq<Tombstone>, topic: string)
    requires Consistent(Notices(xs)) && |Topics(xs)| <= MAX_TOMBSTONES && SameNotices(Notices(xs), Notices(ys))
    ensures NoticeOf(Lookup(AddAll(xs), topic)) == NoticeOf(Lookup(AddAll(ys), topic))
  {
    NoticesTopics(xs);
    SameAnswers(Notices(xs), Notices(ys), topic);
    NoticesAddAll(xs);
    NoticesAddAll(ys);
    NoticesIndex(AddAll(xs), topic);
    NoticesIndex(AddAll(ys), topic);
  }

  /** In particular any permutation of tombstones. */
  lemma PermutationIndependent(xs: seq<Tombstone>, ys: seq<Tombstone>, topic: string)
    requires Consistent(xs) && |Topics(xs)| <= MAX_TOMBSTONES && multiset(xs) == multiset(ys)
    ensures Lookup(AddAll(xs), topic) == Lookup(AddAll(ys), topic)
  {
    forall x | x in xs ensures x in ys { assert x in multiset(ys); }
    forall y | y in ys ensures y in xs { assert y in multiset(xs); }
    SameAnswers(xs, ys, topic);
  }

  /** Whatever the table holds, a notice of the same topic that is no later changes nothing, whenever it is received. */
  lemma AddTwice(t: seq<Tombstone>, x: Tombstone, y: Tombstone)
    requires y.topic == x.topic && y.timestamp <= x.timestamp
    ensures Add(Add(t, x), y) == Add(t, x)
  {
    var i := Index(t, x.topic);
    var r := Add(t, x);
    if i < |r| { IndexIs(r, x.topic, i); }
  }

  // ---------------------------------------------------------------------------
  // Expiry
  // ---------------------------------------------------------------------------

  function Live(t: seq<Tombstone>, now: nat): (r: seq<Tombstone>)
    ensures |r| <= |t|
  {
    if t == [] then []
    else Live(t[..|t| - 1], now) + (if t[|t| - 1].expires > now then [t[|t| - 1]] else [])
  }

  predicate Increasing(pos: seq<nat>, bound: nat) {
    && (forall i :: 0 <= i < |pos| ==> pos[i] < bound)
    && (forall i, j :: 0 <= i < j < |pos| ==> pos[i] < pos[j])
  }

  /** pos lists, in order, the places of the unexpired entries, which make up r. */
  ghost predicate Selects(t: seq<Tombstone>, now: nat, pos: seq<nat>, r: seq<Tombstone>) {
    && |pos| == |r| && Increasing(pos, |t|)
    && (forall i :: 0 <= i < |pos| ==> r[i] == t[pos[i]])
    && (forall k: nat :: k < |t| ==> (k in pos <==> t[k].expires > now))
  }

  lemma SelectsNone(now: nat)
    ensures Selects([], now, [], Live([], now))
  {
  }

  lemma SelectsNext(t: seq<Tombstone>, now: nat, pos: seq<nat>, r: seq<Tombstone>, x: Tombstone)
    requires Selects(t, now, pos, r)
    ensures x.expires > now ==> Selects(t + [x], now, pos + [|t|], r + [x])
    ensures x.expires <= now ==> Selects(t + [x], now, pos, r)
  {
  }

  lemma LiveSnoc(t: seq<Tombstone>, x: Tombstone, now: nat)
    ensures Live(t + [x], now) == if x.expires > now then Live(t, now) + [x] else Live(t, now)
  {
    assert (t + [x])[..|t|] == t;
  }

  lemma SelectsLive(t: seq<Tombstone>, now: nat, pos: seq<nat>, x: Tombstone) returns (more: seq<nat>)
    requires Selects(t, now, pos, Live(t, now))
    ensures Selects(t + [x], now, more, Live(t + [x], now))
  {
    SelectsNext(t, now, pos, Live(t, now), x);
    LiveSnoc(t, x, now);
    more := if x.expires > now then pos + [|t|] else pos;
  }

  /** Expiry keeps exactly the unexpired entries, in their order. */
  lemma {:induction false} LiveInOrder(t: seq<Tombstone>, now: nat) returns (pos: seq<nat>)
    ensures Selects(t, now, pos, Live(t, now))
  {
    if t == [] {
      pos := [];
      SelectsNone(now);
    } else {
      var n := |t| - 1;
      pos := LiveInOrder(t[..n], now);
      pos := SelectsLive(t[..n], now, pos, t[n]);
      assert t == t[..n] + [t[n]];
    }
  }

  /** No topic is listed twice after expiry either. */
  lemma LiveDistinct(t: seq<Tombstone>, now: nat)
    requires Distinct(t)
    ensures Distinct(Live(t, now))
  {
    var pos := LiveInOrder(t, now);
  }

  // ---------------------------------------------------------------------------
  // In place
  // ---------------------------------------------------------------------------

  class Manager {
    var tombstones: array<Tombstone>
    var count: nat

    ghost predicate Valid()
      reads this
    {
      tombstones.Length == MAX_TOMBSTONES && count <= MAX_TOMBSTONES
    }

    ghost function Listed(): seq<Tombstone>
      reads this, tombstones
      requires Valid()
    {
      tombstones[..count]
    }

    constructor ()
      ensures Valid() && fresh(tombstones) && Listed() == []
    {
      tombstones := new Tombstone[MAX_TOMBSTONES](_ => Tombstone("", 0, 0, ""));
      count := 0;
    }

    method Find(topic: string) returns (r: Option<Tombstone>)
      requires Valid()
      ensures r == Lookup(Listed(), topic)
    {
      var i := 0;
      while i < count
        invariant 0 <= i <= count && forall j :: 0 <= j < i ==> tombstones[j].topic != topic
      {
        if tombstones[i].topic == topic {
          assert Listed()[i].topic == topic;
          return Some(tombstones[i]);
        }
        i := i + 1;
      }
      return None;
    }

    method AddTombstone(x: Tombstone) returns (rc: int)
      requires Valid()
      modifies this`count, tombstones
      ensures Valid() && Listed() == Add(old(Listed()), x)
      ensures rc == 0 <==> Lookup(Listed(), x.topic).Some?
      ensures rc == 0 || rc == -1
    {
      var i := 0;
      while i < count
        invariant 0 <= i <= count && forall j :: 0 <= j < i ==> tombstones[j].topic != x.topic
      {
        if tombstones[i].topic == x.topic {
          assert Index(Listed(), x.topic) == i;
          if x.timestamp > tombstones[i].timestamp {
            tombstones[i] := x;
          }
          assert Listed()[i].topic == x.topic;
          return 0;
        }
        i := i + 1;
      }
      if count >= MAX_TOMBSTONES { return -1; }
      tombstones[count] := x;
      count := count + 1;
      assert Listed()[count - 1].topic == x.topic;
      return 0;
    }

    method Expire(now: nat)
      requires Valid()
      modifies this`count, tombstones
      ensures Valid() && Listed() == Live(old(Listed()), now)
    {
      ghost var was := Listed();
      var write, i := 0, 0;
      while i < count
        invariant 0 <= write <= i <= count
        invariant forall k :: i <= k < count ==> tombstones[k] == was[k]
        invariant tombstones[..write] == Live(was[..i], now)
        modifies tombstones
      {
        assert was[..i + 1][..i] == was[..i];
        if tombstones[i].expires > now {
          if write != i {
            tombstones[write] := tombstones[i];
          }
          write := write + 1;
        }
        i := i + 1;
      }
      assert was[..i] == was;
      count := write;
    }
  }
}
