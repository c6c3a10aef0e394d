/**
 * Sessions, registry and overlay as objects updated in place.
 *
 * A session keeps its subscriptions in a fixed array, the manager its sessions in a list of limited
 * length, and the overlay the topics advertised beside a list of local subscriptions.
 *
 * Every method of the manager moves State by the function of the same name in Sessions.
 */
module SessionsImpl {
  import opened Options
  import opened Sessions
  import opened SessionsLoopback

  class Session {
    const subscriptions: array<Sub>
    var count: nat
    /** A transport is attached and the client's descriptor is valid. */
    var reachable: bool

    ghost predicate Valid()
      reads this
    {
      subscriptions.Length == MAX_SUBSCRIPTIONS && count <= MAX_SUBSCRIPTIONS
    }

    ghost function Listed(): seq<Sub>
      reads this, subscriptions
      requires Valid()
    {
      subscriptions[..count]
    }

    constructor ()
      ensures Valid() && fresh(subscriptions) && Listed() == []
    {
      subscriptions := new Sub[MAX_SUBSCRIPTIONS](_ => Sub("", false));
      count, reachable := 0, false;
    }

    method Find(path: string) returns (i: nat)
      requires Valid()
      ensures i == Index(Listed(), path)
    {
      i := 0;
      while i < count && subscriptions[i].path != path
        invariant i <= count && forall j :: 0 <= j < i ==> subscriptions[j].path != path
      {
        i := i + 1;
      }
      ghost var k := Index(Listed(), path);
      assert k < count ==> subscriptions[k].path == path;
      assert i < count ==> Listed()[i].path == path;
    }

    method IsSubscribed(path: string) returns (b: bool)
      requires Valid()
      ensures b == Has(Listed(), path)
    {
      var i := Find(path);
      return i < count;
    }

    method HasLoopback(path: string) returns (b: bool)
      requires Valid()
      ensures b == LoopsBack(path)
    {
      var i := Find(path);
      return i < count && subscriptions[i].loopback;
    }

    ghost predicate LoopsBack(path: string)
      reads this, subscriptions
      requires Valid()
    {
      Flag(Listed(), path) == Some(true)
    }

    /** Refreshes the subscription or appends it; says whether it is a new one. */
    method Put(path: string, loopback: bool) returns (rc: int, added: bool)
      requires Valid()
      modifies this`count, subscriptions
      ensures Valid() && Listed() == WithSub(old(Listed()), path, loopback)
      ensures added == Adds(old(Listed()), path)
      ensures rc == if added || Has(old(Listed()), path) then 0 else -1
    {
      var i := Find(path);
      if i < count {
        subscriptions[i] := Sub(subscriptions[i].path, loopback);
        return 0, false;
      }
      if count >= MAX_SUBSCRIPTIONS { return -1, false; }
      subscriptions[count] := Sub(Stored(path), loopback);
      count := count + 1;
      return 0, true;
    }

    /** Moves the subscriptions behind place i one to the front. */
    method RemoveAt(i: nat)
      requires Valid() && i < count
      modifies this`count, subscriptions
      ensures Valid() && Listed() == old(Listed())[..i] + old(Listed())[i + 1..]
    {
      ghost var was := Listed();
      var j := i;
      while j + 1 < count
        invariant i <= j < count
        invariant forall k :: 0 <= k < i ==> subscriptions[k] == was[k]
        invariant forall k :: i <= k < j ==> subscriptions[k] == was[k + 1]
        invariant forall k :: j <= k < count ==> subscriptions[k] == was[k]
        modifies subscriptions
      {
        subscriptions[j] := subscriptions[j + 1];
        j := j + 1;
      }
      count := count - 1;
    }

    /** Removes the subscription to the path, if there is one. */
    method Drop(path: string) returns (dropped: bool)
      requires Valid()
      modifies this`count, subscriptions
      ensures Valid() && Listed() == WithoutSub(old(Listed()), path) && dropped == Has(old(Listed()), path)
    {
      var i := Find(path);
      dropped := i < count;
      if dropped { RemoveAt(i); }
    }
  }

  /** The overlay side of the channels: advertised topics and the list of local subscriptions. */
  class Quasar {
    var routed: set<string>
    var localSubs: seq<string>

    ghost function Value(): Overlay
      reads this
    {
      Overlay(routed, multiset(localSubs))
    }

    constructor ()
      ensures Value() == Overlay({}, multiset{})
    {
      routed, localSubs := {}, [];
    }

    /** Advertises the topic and lists it once more. */
    method Subscribe(topic: string)
      modifies this
      ensures Value() == Joined(old(Value()), topic)
    {
      routed := routed + {topic};
      localSubs := localSubs + [topic];
    }

    /** Stops advertising the topic and takes its first listing away. */
    method Unsubscribe(topic: string)
      modifies this
      ensures Value() == Parted(old(Value()), topic)
    {
      routed := routed - {topic};
      var i := 0;
      while i < |localSubs| && localSubs[i] != topic
        invariant i <= |localSubs| && topic !in localSubs[..i]
      {
        i := i + 1;
      }
      if i < |localSubs| {
        Spliced(localSubs, i);
        localSubs := localSubs[..i] + localSubs[i + 1..];
      } else {
        assert topic !in multiset(localSubs) by { assert localSubs[..i] == localSubs; }
      }
    }
  }

  class Manager {
    /** The channels' topics. */
    const channels: seq<string>
    const quasar: Quasar
    var sessions: seq<Session>
    /** Every session there is, registered or not. */
    ghost var known: set<Session>

    ghost predicate ListsValid()
      reads this`known, known
    {
      && (forall s :: s in known ==> s.Valid())
      && (forall s, r :: s in known && r in known && s != r ==> s.subscriptions != r.subscriptions)
    }

    ghost predicate Valid()
      reads this`known, this`sessions, known
    {
      ListsValid() && forall s :: s in sessions ==> s in known
    }

    ghost function Arrays(): set<array<Sub>>
      reads this`known
    {
      set s | s in known :: s.subscriptions
    }

    /** Every session's list of subscriptions. */
    ghost function Lists(): map<Session, seq<Sub>>
      requires ListsValid()
      reads this`known, known, Arrays()
    {
      map s | s in known :: s.Listed()
    }

    ghost function Topics(): set<string> {
      set c | c in channels
    }

    ghost function State(): (w: World<Session>)
      requires Valid()
      reads this, known, Arrays(), quasar
      ensures Known(w)
    {
      World(Topics(), sessions, Lists(), quasar.Value())
    }

    constructor (channels: seq<string>)
      ensures Valid() && State() == Fresh(Topics()) && this.channels == channels && known == {} && fresh(quasar)
    {
      this.channels := channels;
      sessions, known := [], {};
      quasar := new Quasar();
    }

    method Create() returns (s: Session)
      requires Valid()
      modifies this`known
      ensures Valid() && fresh(s) && s in known && Lists() == old(Lists())[s := []]
    {
      s := new Session();
      known := known + {s};
    }

    /** A client connects: its session is created and, while there is room, registered. */
    method Connect() returns (s: Session)
      requires Valid()
      modifies this`sessions, this`known
      ensures Valid() && fresh(s) && State() == Opened(old(State()), s)
    {
      s := Create();
      if |sessions| < MAX_SESSIONS {
        sessions := sessions + [s];
      }
    }

    method FindChannel(topic: string) returns (found: bool)
      ensures found <==> topic in channels
    {
      var i := 0;
      while i < |channels|
        invariant 0 <= i <= |channels| && topic !in channels[..i]
      {
        if channels[i] == topic { return true; }
        i := i + 1;
      }
      assert channels[..i] == channels;
      return false;
    }

    /** Whether a registered session other than exclude is subscribed; looks at a copy of the registry. */
    method HasOtherSubscriber(path: string, exclude: Session) returns (found: bool)
      requires Valid()
      ensures found == OtherLists(sessions, Lists(), path, exclude)
    {
      var snap: seq<Session> := [];
      var i := 0;
      while i < |sessions|
        invariant 0 <= i <= |sessions|
        invariant forall s :: s in snap <==> s in sessions[..i] && s != exclude
      {
        if sessions[i] != exclude { snap := snap + [sessions[i]]; }
        i := i + 1;
      }
      assert sessions[..i] == sessions;
      i := 0;
      while i < |snap|
        invariant 0 <= i <= |snap|
        invariant forall s :: s in snap[..i] ==> !Has(s.Listed(), path)
      {
        assert snap[i] in snap;
        var b := snap[i].IsSubscribed(path);
        if b { return true; }
        i := i + 1;
      }
      assert snap[..i] == snap;
      return false;
    }

    method PutSub(s: Session, path: string, loopback: bool) returns (rc: int, added: bool)
      requires ListsValid() && s in known
      modifies s`count, s.subscriptions
      ensures ListsValid() && Lists() == old(Lists())[s := WithSub(old(s.Listed()), path, loopback)]
      ensures s.Listed() == WithSub(old(s.Listed()), path, loopback)
      ensures added == Adds(old(s.Listed()), path)
      ensures rc == if added || Has(old(s.Listed()), path) then 0 else -1
    {
      rc, added := s.Put(path, loopback);
    }

    method DropSub(s: Session, path: string) returns (dropped: bool)
      requires ListsValid() && s in known
      modifies s`count, s.subscriptions
      ensures ListsValid() && Lists() == old(Lists())[s := WithoutSub(old(s.Listed()), path)]
      ensures dropped == Has(old(s.Listed()), path)
    {
      dropped := s.Drop(path);
    }

    method JoinIfChannel(path: string)
      requires Valid()
      modifies quasar
      ensures Valid() && Lists() == old(Lists())
      ensures quasar.Value() == if path in Topics() then Joined(old(quasar.Value()), path) else old(quasar.Value())
    {
      var found := FindChannel(path);
      if found { quasar.Subscribe(path); }
    }

    method Subscribe(s: Session, path: string, loopback: bool) returns (rc: int)
      requires Valid() && s in known
      modifies quasar, s`count, s.subscriptions
      ensures Valid() && State() == Subscribed(old(State()), s, path, loopback)
      ensures rc == if Has(old(s.Listed()), path) || |old(s.Listed())| < 256 then 0 else -1
      ensures rc == 0 && |path| <= 255 ==> forall t ::
                Flag(s.Listed(), t) == if t == path then Some(loopback) else Flag(old(s.Listed()), t)
    {
      var added;
      OnlyThisFlag(s.Listed(), path, loopback);
      rc, added := PutSub(s, path, loopback);
      if added { JoinIfChannel(path); }
    }

    method PartIfChannel(path: string)
      requires Valid()
      modifies quasar
      ensures Valid() && Lists() == old(Lists())
      ensures quasar.Value() == if path in Topics() then Parted(old(quasar.Value()), path) else old(quasar.Value())
    {
      var found := FindChannel(path);
      if found { quasar.Unsubscribe(path); }
    }

    /** Takes the topic out of the overlay if it has a channel and no session but s wants it. */
    method PartIfLast(s: Session, path: string)
      requires Valid() && s in known
      modifies quasar
      ensures Valid() && Lists() == old(Lists())
      ensures quasar.Value() == if path in Topics() && !OtherLists(sessions, Lists(), path, s)
                                then Parted(old(quasar.Value()), path) else old(quasar.Value())
    {
      var other := HasOtherSubscriber(path, s);
      if !other { PartIfChannel(path); }
    }

    method Unsubscribe(s: Session, path: string) returns (rc: int)
      requires Valid() && s in known
      modifies quasar, s`count, s.subscriptions
      ensures Valid() && State() == Unsubscribed(old(State()), s, path)
      ensures rc == if Has(old(s.Listed()), path) then 0 else -1
    {
      ghost var w := State();
      var dropped := DropSub(s, path);
      if !dropped { return -1; }
      OthersOnly(w, s, WithoutSub(w.subs[s], path), path);
      PartIfLast(s, path);
      return 0;
    }

    /** Takes every topic of s that no other session wants out of the overlay. */
    method Cleanup(s: Session)
      requires Valid() && s in known
      modifies quasar
      ensures Valid() && Lists() == old(Lists())
      ensures quasar.Value() == Cleaned(old(State()), s, old(s.Listed()))
    {
      ghost var w := State();
      var topics := s.subscriptions[..s.count];
      var i := 0;
      while i < |topics|
        invariant 0 <= i <= |topics| && Valid() && Lists() == w.subs
        invariant quasar.Value() == Cleaned(w, s, topics[..i])
      {
        CleanedNext(w, s, topics, i);
        PartIfLast(s, topics[i].path);
        i := i + 1;
      }
      assert topics[..i] == topics;
    }

    method Unregister(s: Session) returns (rc: int)
      requires Valid() && DistinctSessions(sessions)
      modifies this`sessions
      ensures sessions == Unregistered(old(sessions), s)
      ensures Valid() && s !in sessions && Lists() == old(Lists())
      ensures rc == if s in old(sessions) then 0 else -1
    {
      UnregisteredMembers(sessions, s);
      var i := 0;
      while i < |sessions|
        invariant 0 <= i <= |sessions|
        invariant forall j :: 0 <= j < i ==> sessions[j] != s
      {
        if sessions[i] == s {
          assert Place(sessions, s) == i;
          sessions := sessions[i := sessions[|sessions| - 1]][..|sessions| - 1];
          return 0;
        }
        i := i + 1;
      }
      return -1;
    }

    /** The session is freed. */
    method Forget(s: Session)
      requires Valid() && s !in sessions
      modifies this`known
      ensures Valid() && Lists() == old(Lists()) - {s}
    {
      known := known - {s};
    }

    /** A client disconnects: cleanup, unregister, destroy. */
    method Disconnect(s: Session)
      requires Valid() && s in known && DistinctSessions(sessions)
      modifies this`sessions, this`known, quasar
      ensures Valid() && State() == Left(old(State()), s)
    {
      Cleanup(s);
      var rc := Unregister(s);
      Forget(s);
    }

    /** The session gets the message: subscribed, reachable, and not the publisher unless it asked for that. */
    ghost predicate Gets(s: Session, topic: string, publisher: Session?)
      reads s, s.subscriptions
      requires s.Valid()
    {
      s.reachable && Has(s.Listed(), topic) && (s == publisher ==> s.LoopsBack(topic))
    }

    /** session_dispatch_message: the registered sessions that get the message, each once. */
    method Dispatch(topic: string, publisher: Session?) returns (to: seq<Session>)
      requires Valid() && DistinctSessions(sessions)
      ensures forall s :: s in to <==> s in sessions && Gets(s, Stored(topic), publisher)
      ensures DistinctSessions(to)
    {
      var snap := sessions;
      var name := Stored(topic);
      to := [];
      var i := 0;
      while i < |snap|
        invariant 0 <= i <= |snap| && DistinctSessions(to)
        invariant forall s :: s in to <==> s in snap[..i] && Gets(s, name, publisher)
      {
        var s := snap[i];
        assert s !in snap[..i];
        var sub := s.IsSubscribed(name);
        var back := s.HasLoopback(name);
        if sub && !(s == publisher && !back) && s.reachable {
          to := to + [s];
        }
        i := i + 1;
      }
      assert snap[..i] == snap;
    }
  }

  lemma Spliced(l: seq<string>, i: nat)
    requires i < |l|
    ensures multiset(l[..i] + l[i + 1..]) == multiset(l) - multiset{l[i]}
  {
    assert l == l[..i] + [l[i]] + l[i + 1..];
  }

  /** What a session itself lists does not matter to whether another one is subscribed. */
  lemma OthersOnly<S>(w: World<S>, s: S, l: seq<Sub>, path: string)
    requires Known(w) && s in w.subs
    ensures var v := w.(subs := w.subs[s := l]); Known(v) && (HasOther(v, path, s) <==> HasOther(w, path, s))
  {
    var v := w.(subs := w.subs[s := l]);
    assert forall r :: r in w.sessions && r != s ==> v.subs[r] == w.subs[r];
  }
}
