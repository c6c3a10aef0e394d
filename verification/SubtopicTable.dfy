/** The table of subtopic subscriptions, each with a time to live that every tick lowers. */
module SubtopicTable {
  import opened Subtopic

  const MAX_SUBS: nat := 64
  /** Characters an entry's path buffer holds in front of its terminator. */
  const PATH_ROOM: nat := 511

  datatype Entry = Entry(path: string, ttl: nat)

  function Stored(path: string): string {
    if |path| <= PATH_ROOM then path else path[..PATH_ROOM]
  }

  predicate Has(t: seq<Entry>, path: string) {
    exists i :: 0 <= i < |t| && t[i].path == path
  }

  predicate Distinct(t: seq<Entry>) {
    forall i, j :: 0 <= i < j < |t| ==> t[i].path != t[j].path
  }

  predicate Fits(t: seq<Entry>) {
    |t| <= MAX_SUBS && forall i :: 0 <= i < |t| ==> |t[i].path| <= PATH_ROOM
  }

  // ---------------------------------------------------------------------------
  // Operations
  // ---------------------------------------------------------------------------

  /** The first entry with the path, or the size of the table. */
  function Index(t: seq<Entry>, path: string): (i: nat)
    ensures i <= |t| && (i < |t| ==> t[i].path == path)
    ensures forall j :: 0 <= j < i ==> t[j].path != path
  {
    if t == [] then 0
    else if t[0].path == path then 0
    else 1 + Index(t[1..], path)
  }

  datatype Op = Subscribe(path: string, ttl: nat) | Unsubscribe(path: string) | Tick

  function Subscribed(t: seq<Entry>, path: string, ttl: nat): seq<Entry> {
    var i := Index(t, path);
    if i < |t| then t[i := Entry(path, ttl)]
    else if |t| >= MAX_SUBS then t
    else t + [Entry(Stored(path), ttl)]
  }

  /** The last entry takes the place of the removed one. */
  function Unsubscribed(t: seq<Entry>, path: string): seq<Entry> {
    var i := Index(t, path);
    if i < |t| then t[i := t[|t| - 1]][..|t| - 1] else t
  }

  function Aged(t: seq<Entry>): (r: seq<Entry>)
    ensures |r| <= |t|
  {
    if t == [] then []
    else
      Aged(t[..|t| - 1]) + AgedOne(t[|t| - 1])
  }

  /** What a tick leaves of an entry. */
  function AgedOne(e: Entry): seq<Entry> {
    if e.ttl > 1 then [Entry(e.path, e.ttl - 1)] else []
  }

  function Apply(t: seq<Entry>, op: Op): seq<Entry> {
    match op
    case Subscribe(path, ttl) => Subscribed(t, path, ttl)
    case Unsubscribe(path) => Unsubscribed(t, path)
    case Tick => Aged(t)
  }

  function Run(t: seq<Entry>, ops: seq<Op>): seq<Entry> {
    if ops == [] then t else Apply(Run(t, ops[..|ops| - 1]), ops[|ops| - 1])
  }

  // ---------------------------------------------------------------------------
  // What a tick leaves
  // ---------------------------------------------------------------------------

  /** Exactly the entries with more than one tick to live, each one tick older. */
  lemma {:induction false} AgedMembers(t: seq<Entry>, e: Entry)
    ensures e in Aged(t) <==> e.ttl > 0 && Entry(e.path, e.ttl + 1) in t
  {
    if t != [] {
      var n := |t| - 1;
      AgedMembers(t[..n], e);
      assert t == t[..n] + [t[n]];
    }
  }

  lemma AgedStep(t: seq<Entry>, n: nat)
    requires n < |t|
    ensures Aged(t[..n + 1]) == Aged(t[..n]) + AgedOne(t[n])
  {
    assert t[..n + 1][..n] == t[..n];
  }

  lemma {:induction false} AgedDistinct(t: seq<Entry>)
    requires Distinct(t)
    ensures Distinct(Aged(t))
  {
    if t != [] {
      var n := |t| - 1;
      AgedDistinct(t[..n]);
      var r := Aged(t[..n]);
      forall i | 0 <= i < |r| ensures r[i].path != t[n].path {
        AgedMembers(t[..n], r[i]);
        assert r[i] in r;
        var j :| 0 <= j < n && t[..n][j] == Entry(r[i].path, r[i].ttl + 1);
        assert t[j].path == r[i].path;
      }
    }
  }

  // ---------------------------------------------------------------------------
  // Runs
  // ---------------------------------------------------------------------------

  /** A path that an entry can hold whole. */
  predicate Short(op: Op) {
    !op.Tick? ==> |op.path| <= PATH_ROOM
  }

  lemma IndexOfEntry(t: seq<Entry>, e: Entry)
    requires Distinct(t) && e in t
    ensures Index(t, e.path) < |t| && t[Index(t, e.path)] == e
  {
  }

  lemma HasIffIndex(t: seq<Entry>, path: string)
    ensures Has(t, path) <==> Index(t, path) < |t|
  {
  }

  /** With paths that fit, no path is listed twice after any step. */
  lemma StepDistinct(t: seq<Entry>, op: Op)
    requires Distinct(t) && Fits(t)
    ensures Fits(Apply(t, op))
    ensures Short(op) ==> Distinct(Apply(t, op))
  {
    match op
    case Subscribe(path, ttl) =>
    case Unsubscribe(path) =>
    case Tick =>
      AgedDistinct(t);
      AgedFits(t);
  }

  lemma AgedFits(t: seq<Entry>)
    requires Fits(t)
    ensures Fits(Aged(t))
  {
    forall i | 0 <= i < |Aged(t)| ensures |Aged(t)[i].path| <= PATH_ROOM {
      AgedMembers(t, Aged(t)[i]);
    }
  }

  lemma {:induction false} RunDistinct(t: seq<Entry>, ops: seq<Op>)
    requires Distinct(t) && Fits(t) && forall i :: 0 <= i < |ops| ==> Short(ops[i])
    ensures Distinct(Run(t, ops)) && Fits(Run(t, ops))
  {
    if ops != [] {
      RunDistinct(t, ops[..|ops| - 1]);
      StepDistinct(Run(t, ops[..|ops| - 1]), ops[|ops| - 1]);
    }
  }

  /** After a subscription that finds room, the path is found exactly when an entry can hold it whole. */
  lemma SubscribedIff(t: seq<Entry>, path: string, ttl: nat)
    requires Fits(t) && |t| < 64
    ensures Has(Subscribed(t, path, ttl), path) <==> |path| <= 511
  {
    var r := Subscribed(t, path, ttl);
    var i := Index(t, path);
    assert r[i] == Entry(Stored(path), ttl);
  }

  /** A subscription puts or renews the entry of its path and leaves the others; a full table takes no new path. */
  lemma SubscribedMembers(t: seq<Entry>, path: string, ttl: nat, e: Entry)
    requires Distinct(t) && |path| <= 511
    ensures e in Subscribed(t, path, ttl) <==>
            if e.path != path then e in t else Entry(path, ttl) == e && (Has(t, path) || |t| < 64)
  {
    var r, i := Subscribed(t, path, ttl), Index(t, path);
    HasIffIndex(t, path);
    if i < |t| || |t| < 64 { assert r[i] == Entry(path, ttl); }
    if e in t && e.path != path {
      var j :| 0 <= j < |t| && t[j] == e;
      assert r[j] == e;
    }
  }

  /** Removal takes away the entry of the path and no other. */
  lemma UnsubscribedMembers(t: seq<Entry>, path: string, e: Entry)
    requires Distinct(t)
    ensures e in Unsubscribed(t, path) <==> e in t && e.path != path
  {
    var i, n := Index(t, path), |t| - 1;
    if i < |t| {
      var r := t[i := t[n]][..n];
      if e in t && e.path != path {
        var j :| 0 <= j < |t| && t[j] == e;
        assert if j == n then r[i] == e else r[j] == e;
      }
      if e in r {
        var j :| 0 <= j < n && r[j] == e;
        assert if j == i then e == t[n] else e == t[j];
      }
    }
  }

  /** Other paths' operations leave an entry alone; a tick ages it or ends it. */
  lemma StepEntry(t: seq<Entry>, op: Op, e: Entry)
    requires Distinct(t) && Short(op) && (op.Tick? || op.path != e.path)
    ensures !op.Tick? ==> (e in Apply(t, op) <==> e in t)
    ensures op.Tick? ==> (e in Apply(t, op) <==> e.ttl > 0 && Entry(e.path, e.ttl + 1) in t)
  {
    match op
    case Subscribe(path, ttl) =>
      var i := Index(t, path);
      if e in t && i < |t| {
        var j :| 0 <= j < |t| && t[j] == e;
        assert Apply(t, op)[j] == e;
      }
    case Unsubscribe(path) => UnsubscribedMembers(t, path, e);
    case Tick => AgedMembers(t, e);
  }

  function Ticks(ops: seq<Op>): nat {
    if ops == [] then 0
    else Ticks(ops[..|ops| - 1]) + (if ops[|ops| - 1].Tick? then 1 else 0)
  }

  ghost predicate Untouched(ops: seq<Op>, path: string) {
    forall i :: 0 <= i < |ops| ==> Short(ops[i]) && (ops[i].Tick? || ops[i].path != path)
  }

  /** What is left of an entry after a run is decided by the number of ticks alone. */
  lemma {:induction false} EntryAfter(t: seq<Entry>, ops: seq<Op>, path: string, n: nat, m: nat)
    requires Distinct(t) && Fits(t) && Untouched(ops, path) && Entry(path, n) in t
    ensures Entry(path, m) in Run(t, ops) <==> m + Ticks(ops) == n && (Ticks(ops) == 0 || m > 0)
  {
    if ops == [] {
      if Entry(path, m) in t { SameEntry(t, path, m, n); }
    } else {
      var k := |ops| - 1;
      var before := Run(t, ops[..k]);
      RunDistinct(t, ops[..k]);
      StepEntry(before, ops[k], Entry(path, m));
      EntryAfter(t, ops[..k], path, n, if ops[k].Tick? then m + 1 else m);
    }
  }

  lemma SameEntry(t: seq<Entry>, path: string, m: nat, n: nat)
    requires Distinct(t) && Entry(path, m) in t && Entry(path, n) in t
    ensures m == n
  {
    IndexOfEntry(t, Entry(path, m));
    IndexOfEntry(t, Entry(path, n));
  }

  /** An entry with n ticks to live is listed until the n-th tick (or the first, when n is 0). */
  lemma ListedIff(t: seq<Entry>, ops: seq<Op>, path: string, n: nat)
    requires Distinct(t) && Fits(t) && Untouched(ops, path) && Entry(path, n) in t
    ensures Has(Run(t, ops), path) <==> Ticks(ops) == 0 || Ticks(ops) < n
    ensures Has(Run(t, ops), path) ==> Entry(path, n - Ticks(ops)) in Run(t, ops)
  {
    var r := Run(t, ops);
    if Has(r, path) {
      var i :| 0 <= i < |r| && r[i].path == path;
      EntryAfter(t, ops, path, n, r[i].ttl);
      assert r[i] == Entry(path, r[i].ttl);
    }
    if Ticks(ops) == 0 || Ticks(ops) < n {
      EntryAfter(t, ops, path, n, n - Ticks(ops));
      var i :| 0 <= i < |r| && r[i] == Entry(path, n - Ticks(ops));
    }
  }

  /** From the subscription on: listed until as many ticks have passed as it asked for. */
  lemma ListedSinceSubscribed(t: seq<Entry>, path: string, ttl: nat, ops: seq<Op>)
    requires Distinct(t) && Fits(t) && |path| <= 511 && (Has(t, path) || |t| < 64) && Untouched(ops, path)
    ensures Has(Run(Subscribed(t, path, ttl), ops), path) <==> Ticks(ops) == 0 || Ticks(ops) < ttl
  {
    SubscribedMembers(t, path, ttl, Entry(path, ttl));
    StepDistinct(t, Subscribe(path, ttl));
    ListedIff(Subscribed(t, path, ttl), ops, path, ttl);
  }

  // ---------------------------------------------------------------------------
  // In place
  // ---------------------------------------------------------------------------

  class Table {
    var entries: array<Entry>
    var count: nat

    ghost predicate Valid()
      reads this
    {
      entries.Length == MAX_SUBS && count <= MAX_SUBS
    }

    ghost function Listed(): seq<Entry>
      reads this, entries
      requires Valid()
    {
      entries[..count]
    }

    constructor ()
      ensures Valid() && fresh(entries) && Listed() == []
    {
      entries := new Entry[MAX_SUBS](_ => Entry("", 0));
      count := 0;
    }

    /** The scan shared by subscribe, unsubscribe and is_subscribed. */
    method Find(path: string) returns (i: nat)
      requires Valid()
      ensures i == Index(Listed(), path)
    {
      i := 0;
      while i < count && entries[i].path != path
        invariant i <= count && forall j :: 0 <= j < i ==> entries[j].path != path
      {
        i := i + 1;
      }
      ghost var k := Index(Listed(), path);
      assert k < count ==> entries[k].path == path;
      assert i < count ==> Listed()[i].path == path;
    }

    method AddOrRefresh(path: string, ttl: nat) returns (rc: int)
      requires Valid()
      modifies this`count, entries
      ensures Valid() && Listed() == Subscribed(old(Listed()), path, ttl)
      ensures rc == if Index(old(Listed()), path) < old(count) || old(count) < MAX_SUBS then 0 else -1
    {
      var i := Find(path);
      if i < count {
        entries[i] := Entry(entries[i].path, ttl);
        return 0;
      }
      if count >= MAX_SUBS { return -1; }
      entries[count] := Entry(Stored(path), ttl);
      count := count + 1;
      return 0;
    }

    method Remove(path: string) returns (rc: int)
      requires Valid()
      modifies this`count, entries
      ensures Valid() && Listed() == Unsubscribed(old(Listed()), path)
      ensures rc == if Index(old(Listed()), path) < old(count) then 0 else -1
    {
      var i := Find(path);
      if i < count {
        entries[i] := entries[count - 1];
        count := count - 1;
        return 0;
      }
      return -1;
    }

    method IsSubscribed(path: string) returns (b: bool)
      requires Valid()
      ensures b == Has(Listed(), path)
    {
      HasIffIndex(Listed(), path);
      var i := Find(path);
      return i < count;
    }

    /** Delivered when some listed path covers the message's subtopic. */
    method ShouldDeliver(message: string) returns (b: bool)
      requires Valid()
      ensures b <==> exists i :: 0 <= i < |Listed()| && Covers(Listed()[i].path, message)
    {
      var i := 0;
      while i < count
        invariant 0 <= i <= count
        invariant forall j :: 0 <= j < i ==> !Covers(Listed()[j].path, message)
      {
        var m := Matches(message, entries[i].path);
        if m {
          assert Listed()[i] == entries[i];
          return true;
        }
        i := i + 1;
      }
      return false;
    }

    /** Ages the entry at read and, if it survives, moves it to write. */
    method AgeEntry(read: nat, write: nat) returns (next: nat)
      requires Valid() && write <= read < count
      modifies entries
      ensures next <= read + 1 && entries[..next] == old(entries[..write]) + AgedOne(old(entries[read]))
      ensures forall k :: read < k < count ==> entries[k] == old(entries[k])
    {
      next := write;
      if entries[read].ttl > 0 {
        entries[read] := Entry(entries[read].path, entries[read].ttl - 1);
        if entries[read].ttl > 0 {
          if write != read {
            entries[write] := entries[read];
          }
          next := write + 1;
        }
      }
    }

    /** Ages every entry and compacts the survivors to the front. */
    method Age()
      requires Valid()
      modifies this`count, entries
      ensures Valid() && Listed() == Aged(old(Listed()))
    {
      ghost var was := Listed();
      var write, read := 0, 0;
      while read < count
        invariant 0 <= write <= read <= count
        invariant forall k :: read <= k < count ==> entries[k] == was[k]
        invariant entries[..write] == Aged(was[..read])
        modifies entries
      {
        AgedStep(was, read);
        write := AgeEntry(read, write);
        read := read + 1;
      }
      assert was[..read] == was;
      count := write;
    }
  }
}
