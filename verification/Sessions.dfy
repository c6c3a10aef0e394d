/** Client sessions and the overlay subscriptions that are to follow them. */
module Sessions {
  // Sessions subscribe and unsubscribe topics, and a channel's overlay subscription is to be there
  // exactly while some registered session wants it. The overlay is what quasar_subscribe and
  // quasar_unsubscribe change: the topics advertised by the routing filter (routed) and the list of
  // local subscriptions (local), which is a bag.

  const MAX_SUBSCRIPTIONS: nat := 256
  const MAX_SESSIONS: nat := 256
  /** Characters a stored topic path holds in front of its terminator. */
  const PATH_ROOM: nat := 255

  datatype Sub = Sub(path: string, loopback: bool)

  function Stored(path: string): string {
    if |path| <= PATH_ROOM then path else path[..PATH_ROOM]
  }

  /** The first subscription to the path, or the size of the list. */
  function Index(l: seq<Sub>, path: string): (i: nat)
    ensures i <= |l| && (i < |l| ==> l[i].path == path)
    ensures forall j :: 0 <= j < i ==> l[j].path != path
  {
    if l == [] then 0
    else if l[0].path == path then 0
    else 1 + Index(l[1..], path)
  }

  predicate Has(l: seq<Sub>, path: string) {
    Index(l, path) < |l|
  }

  lemma HasMember(l: seq<Sub>, path: string)
    ensures Has(l, path) <==> exists i :: 0 <= i < |l| && l[i].path == path
  {
  }

  datatype Overlay = Overlay(routed: set<string>, local: multiset<string>)

  function Joined(o: Overlay, topic: string): Overlay {
    Overlay(o.routed + {topic}, o.local + multiset{topic})
  }

  function Parted(o: Overlay, topic: string): Overlay {
    Overlay(o.routed - {topic}, o.local - multiset{topic})
  }

  /** channels: the topics of the channels; sessions: the registry; subs: every session's list. */
  datatype World<S(==)> = World(
    channels: set<string>, sessions: seq<S>, subs: map<S, seq<Sub>>, overlay: Overlay)

  datatype Step<S> =
    | Open(s: S)
    | Subscribe(s: S, path: string, loopback: bool)
    | Unsubscribe(s: S, path: string)
    | Leave(s: S)

  // ---------------------------------------------------------------------------
  // Steps
  // ---------------------------------------------------------------------------

  predicate Known<S(==)>(w: World<S>) {
    forall s :: s in w.sessions ==> s in w.subs
  }

  /** A registered session other than s lists the path. */
  predicate OtherLists<S(==)>(sessions: seq<S>, subs: map<S, seq<Sub>>, path: string, s: S)
    requires forall r :: r in sessions ==> r in subs
  {
    exists r :: r in sessions && r != s && Has(subs[r], path)
  }

  predicate HasOther<S(==)>(w: World<S>, path: string, s: S)
    requires Known(w)
  {
    OtherLists(w.sessions, w.subs, path, s)
  }

  predicate Someone<S(==)>(w: World<S>, path: string)
    requires Known(w)
  {
    exists r :: r in w.sessions && Has(w.subs[r], path)
  }

  /** A new session is registered while the registry has room. */
  function Opened<S(==)>(w: World<S>, s: S): World<S> {
    w.(subs := w.subs[s := []], sessions := if |w.sessions| < MAX_SESSIONS then w.sessions + [s] else w.sessions)
  }

  /** So the 257th session is not registered. */
  lemma RegisteredIff<S>(w: World<S>, s: S)
    requires Known(w) && s !in w.subs
    ensures s in Opened(w, s).sessions <==> |w.sessions| < 256
    ensures forall r :: r in w.sessions ==> r in Opened(w, s).sessions
  {
  }

  /** The subscription is new and there is room for it. */
  predicate Adds(l: seq<Sub>, path: string) {
    !Has(l, path) && |l| < MAX_SUBSCRIPTIONS
  }

  function WithSub(l: seq<Sub>, path: string, loopback: bool): seq<Sub> {
    var i := Index(l, path);
    if i < |l| then l[i := Sub(path, loopback)]
    else if |l| < MAX_SUBSCRIPTIONS then l + [Sub(Stored(path), loopback)]
    else l
  }

  function WithoutSub(l: seq<Sub>, path: string): seq<Sub> {
    var i := Index(l, path);
    if i < |l| then l[..i] + l[i + 1..] else l
  }

  function Subscribed<S(==)>(w: World<S>, s: S, path: string, loopback: bool): World<S>
    requires s in w.subs
  {
    w.(subs := w.subs[s := WithSub(w.subs[s], path, loopback)],
       overlay := if Adds(w.subs[s], path) && path in w.channels then Joined(w.overlay, path) else w.overlay)
  }

  function Unsubscribed<S(==)>(w: World<S>, s: S, path: string): World<S>
    requires Known(w) && s in w.subs
  {
    w.(subs := w.subs[s := WithoutSub(w.subs[s], path)],
       overlay := if Has(w.subs[s], path) && path in w.channels && !HasOther(w, path, s)
                  then Parted(w.overlay, path) else w.overlay)
  }

  /** The overlay after the cleanup loop has seen the subscriptions l of s. */
  function Cleaned<S(==)>(w: World<S>, s: S, l: seq<Sub>): Overlay
    requires Known(w)
  {
    if l == [] then w.overlay
    else
      var o := Cleaned(w, s, l[..|l| - 1]);
      var path := l[|l| - 1].path;
      if path in w.channels && !HasOther(w, path, s) then Parted(o, path) else o
  }

  lemma CleanedNext<S>(w: World<S>, s: S, l: seq<Sub>, i: nat)
    requires Known(w) && i < |l|
    ensures var path, o := l[i].path, Cleaned(w, s, l[..i]);
            Cleaned(w, s, l[..i + 1]) == if path in w.channels && !HasOther(w, path, s) then Parted(o, path) else o
  {
    assert l[..i + 1][..i] == l[..i];
  }

  function Place<S(==)>(r: seq<S>, s: S): (i: nat)
    ensures i <= |r| && (i < |r| ==> r[i] == s) && forall j :: 0 <= j < i ==> r[j] != s
  {
    if r == [] then 0 else if r[0] == s then 0 else 1 + Place(r[1..], s)
  }

  /** The last session takes the place of the one unregistered. */
  function Unregistered<S(==)>(r: seq<S>, s: S): seq<S> {
    var i := Place(r, s);
    if i < |r| then r[i := r[|r| - 1]][..|r| - 1] else r
  }

  /** Cleanup, then unregister, then destroy. */
  function Left<S(==)>(w: World<S>, s: S): World<S>
    requires Known(w) && s in w.subs
  {
    World(w.channels, Unregistered(w.sessions, s), w.subs - {s}, Cleaned(w, s, w.subs[s]))
  }

  predicate Enabled<S(==)>(w: World<S>, step: Step<S>) {
    if step.Open? then step.s !in w.subs else step.s in w.subs
  }

  function Apply<S(==)>(w: World<S>, step: Step<S>): World<S>
    requires Known(w) && Enabled(w, step)
  {
    match step
    case Open(s) => Opened(w, s)
    case Subscribe(s, path, loopback) => Subscribed(w, s, path, loopback)
    case Unsubscribe(s, path) => Unsubscribed(w, s, path)
    case Leave(s) => Left(w, s)
  }

  // ---------------------------------------------------------------------------
  // Well-formed worlds
  // ---------------------------------------------------------------------------

  /** A path that was stored whole is listed once. */
  predicate Unique(l: seq<Sub>) {
    forall i, j :: 0 <= i < j < |l| && l[i].path == l[j].path ==> |l[i].path| >= PATH_ROOM
  }

  predicate DistinctSessions<S(==)>(r: seq<S>) {
    forall i, j :: 0 <= i < j < |r| ==> r[i] != r[j]
  }

  /** Channel topics are the string forms of node IDs, far below the room for a path. */
  predicate Sane<S(==)>(w: World<S>) {
    && Known(w) && DistinctSessions(w.sessions) && |w.sessions| <= MAX_SESSIONS
    && (forall c :: c in w.channels ==> |c| < PATH_ROOM)
    && (forall s :: s in w.subs ==> Unique(w.subs[s]) && |w.subs[s]| <= MAX_SUBSCRIPTIONS)
  }

  /** And a session that did not get into the registry has not subscribed anything. */
  predicate WellFormed<S(==)>(w: World<S>) {
    Sane(w) && forall s :: s in w.subs && s !in w.sessions ==> w.subs[s] == []
  }

  /** Only registered sessions subscribe and unsubscribe. */
  predicate Legal<S(==)>(w: World<S>, step: Step<S>) {
    Enabled(w, step) && (step.Subscribe? || step.Unsubscribe? ==> step.s in w.sessions)
  }

  lemma UniqueWith(l: seq<Sub>, path: string, loopback: bool)
    requires Unique(l)
    ensures Unique(WithSub(l, path, loopback))
  {
  }

  lemma UniqueWithout(l: seq<Sub>, path: string)
    requires Unique(l)
    ensures Unique(WithoutSub(l, path))
  {
  }

  lemma UnregisteredMembers<S>(r: seq<S>, s: S)
    requires DistinctSessions(r)
    ensures DistinctSessions(Unregistered(r, s)) && |Unregistered(r, s)| <= |r|
    ensures forall x :: x in Unregistered(r, s) <==> x in r && x != s
  {
    var i, n := Place(r, s), |r| - 1;
    if i < |r| {
      var q := r[i := r[n]][..n];
      forall x ensures x in q <==> x in r && x != s {
        if x in r && x != s {
          var j :| 0 <= j < |r| && r[j] == x;
          assert if j == n then q[i] == x else q[j] == x;
        }
      }
    }
  }

  lemma LeaveSane<S>(w: World<S>, s: S)
    requires Sane(w) && s in w.subs
    ensures Sane(Left(w, s)) && (WellFormed(w) ==> WellFormed(Left(w, s)))
  {
    UnregisteredMembers(w.sessions, s);
  }

  lemma StepSane<S>(w: World<S>, step: Step<S>)
    requires Sane(w) && Enabled(w, step)
    ensures Sane(Apply(w, step)) && Apply(w, step).channels == w.channels
  {
    match step
    case Open(s) =>
    case Subscribe(s, path, loopback) => UniqueWith(w.subs[s], path, loopback);
    case Unsubscribe(s, path) => UniqueWithout(w.subs[s], path);
    case Leave(s) => LeaveSane(w, s);
  }

  lemma StepWellFormed<S>(w: World<S>, step: Step<S>)
    requires WellFormed(w) && Legal(w, step)
    ensures WellFormed(Apply(w, step)) && Apply(w, step).channels == w.channels
  {
    StepSane(w, step);
    if step.Leave? { LeaveSane(w, step.s); }
  }

  // ---------------------------------------------------------------------------
  // Who wants a topic
  // ---------------------------------------------------------------------------

  lemma WithSubHas(l: seq<Sub>, path: string, loopback: bool, t: string)
    requires |t| < PATH_ROOM
    ensures Has(WithSub(l, path, loopback), t) <==> Has(l, t) || (t == path && Adds(l, path))
  {
    var r := WithSub(l, path, loopback);
    HasMember(l, t);
    HasMember(r, t);
    var i := Index(l, t);
    if i < |l| { assert r[i].path == t; }
    if Adds(l, path) { assert r[|l|].path == Stored(path); }
  }

  lemma WithoutSubHas(l: seq<Sub>, path: string, t: string)
    requires Unique(l) && |t| < PATH_ROOM
    ensures Has(WithoutSub(l, path), t) <==> Has(l, t) && t != path
  {
    var r, i, k := WithoutSub(l, path), Index(l, path), Index(l, t);
    HasMember(l, t);
    HasMember(r, t);
    if k < |l| && t != path {
      assert if k < i then r[k] == l[k] else i == |l| || r[k - 1] == l[k];
    }
  }

  /** Someone wants a topic when this session does or another does. */
  lemma SomeoneSplits<S>(w: World<S>, t: string, s: S)
    requires Known(w)
    ensures Someone(w, t) <==> HasOther(w, t, s) || (s in w.sessions && Has(w.subs[s], t))
  {
  }

  lemma LastSub(l: seq<Sub>, t: string)
    requires Unique(l) && l != [] && |t| < PATH_ROOM
    ensures var n := |l| - 1;
            && Unique(l[..n]) && (Has(l, t) <==> Has(l[..n], t) || l[n].path == t)
            && !(Has(l[..n], t) && l[n].path == t)
  {
    var n := |l| - 1;
    HasMember(l, t);
    HasMember(l[..n], t);
    if Has(l[..n], t) { assert l[Index(l[..n], t)].path == t; }
  }

  function Less(n: nat): nat {
    if n > 0 then n - 1 else n
  }

  lemma PartedTopic(o: Overlay, path: string, t: string)
    ensures t in Parted(o, path).routed <==> t in o.routed && t != path
    ensures Parted(o, path).local[t] == if t == path then Less(o.local[t]) else o.local[t]
  {
  }

  /** What the cleanup loop takes out of the overlay, topic by topic. */
  lemma {:induction false} CleanedTopic<S>(w: World<S>, s: S, l: seq<Sub>, t: string)
    requires Known(w) && Unique(l) && |t| < PATH_ROOM
    ensures var gone := t in w.channels && Has(l, t) && !HasOther(w, t, s);
            && (t in Cleaned(w, s, l).routed <==> t in w.overlay.routed && !gone)
            && Cleaned(w, s, l).local[t] == if gone then Less(w.overlay.local[t]) else w.overlay.local[t]
  {
    if l != [] {
      var n := |l| - 1;
      LastSub(l, t);
      CleanedTopic(w, s, l[..n], t);
      PartedTopic(Cleaned(w, s, l[..n]), l[n].path, t);
    }
  }

  // ---------------------------------------------------------------------------
  // The overlay follows the sessions
  // ---------------------------------------------------------------------------

  /** A session joins the topic while somebody else is already subscribed to it. */
  predicate Overlaps<S(==)>(w: World<S>, step: Step<S>, t: string)
    requires Known(w) && Enabled(w, step)
  {
    step.Subscribe? && step.path == t && Adds(w.subs[step.s], t) && Someone(w, t)
  }

  function Num(b: bool): nat {
    if b then 1 else 0
  }

  /** The topic is advertised exactly while wanted, and surplus extra copies are in the local list. */
  predicate Follows<S(==)>(w: World<S>, t: string, surplus: nat)
    requires Known(w)
  {
    && (t in w.overlay.routed <==> Someone(w, t))
    && w.overlay.local[t] == surplus + Num(Someone(w, t))
  }

  lemma OpenFollows<S>(w: World<S>, s: S, t: string, surplus: nat)
    requires WellFormed(w) && s !in w.subs && Follows(w, t, surplus)
    ensures Known(Opened(w, s)) && Follows(Opened(w, s), t, surplus)
  {
    var v := Opened(w, s);
    assert Someone(v, t) <==> Someone(w, t) by {
      forall r | r in w.sessions ensures r in v.sessions && v.subs[r] == w.subs[r] { }
    }
  }

  lemma SubscribeFollows<S>(w: World<S>, s: S, path: string, loopback: bool, t: string, surplus: nat)
    requires WellFormed(w) && s in w.sessions && t in w.channels && Follows(w, t, surplus)
    ensures var step := Subscribe(s, path, loopback);
            Follows(Apply(w, step), t, surplus + Num(Overlaps(w, step, t)))
  {
    var v := Subscribed(w, s, path, loopback);
    SomeoneSplits(w, t, s);
    SomeoneSplits(v, t, s);
    WithSubHas(w.subs[s], path, loopback, t);
    assert HasOther(v, t, s) <==> HasOther(w, t, s);
  }

  lemma UnsubscribeFollows<S>(w: World<S>, s: S, path: string, t: string, surplus: nat)
    requires WellFormed(w) && s in w.sessions && t in w.channels && Follows(w, t, surplus)
    ensures Follows(Unsubscribed(w, s, path), t, surplus)
  {
    var v := Unsubscribed(w, s, path);
    SomeoneSplits(w, t, s);
    SomeoneSplits(v, t, s);
    WithoutSubHas(w.subs[s], path, t);
    assert HasOther(v, t, s) <==> HasOther(w, t, s);
  }

  lemma LeaveFollows<S>(w: World<S>, s: S, t: string, surplus: nat)
    requires WellFormed(w) && s in w.subs && t in w.channels && Follows(w, t, surplus)
    ensures Known(Left(w, s)) && Follows(Left(w, s), t, surplus)
  {
    var v := Left(w, s);
    UnregisteredMembers(w.sessions, s);
    CleanedTopic(w, s, w.subs[s], t);
    SomeoneSplits(w, t, s);
    assert Someone(v, t) <==> HasOther(w, t, s) by {
      forall r | r in v.sessions ensures r in w.sessions && r != s && v.subs[r] == w.subs[r] { }
      forall r | r in w.sessions && r != s ensures r in v.sessions && v.subs[r] == w.subs[r] { }
    }
  }

  /** Every step keeps the overlay in line with the sessions; only an overlapping join adds surplus. */
  lemma StepFollows<S>(w: World<S>, step: Step<S>, t: string, surplus: nat)
    requires WellFormed(w) && Legal(w, step) && t in w.channels && Follows(w, t, surplus)
    ensures WellFormed(Apply(w, step))
    ensures Follows(Apply(w, step), t, surplus + Num(Overlaps(w, step, t)))
  {
    StepWellFormed(w, step);
    match step
    case Open(s) => OpenFollows(w, s, t, surplus);
    case Subscribe(s, path, loopback) => SubscribeFollows(w, s, path, loopback, t, surplus);
    case Unsubscribe(s, path) => UnsubscribeFollows(w, s, path, t, surplus);
    case Leave(s) => LeaveFollows(w, s, t, surplus);
  }

  // ---------------------------------------------------------------------------
  // Runs
  // ---------------------------------------------------------------------------

  /** No sessions yet, and nothing subscribed in the overlay. */
  function Fresh<S(==)>(channels: set<string>): World<S> {
    World(channels, [], map[], Overlay({}, multiset{}))
  }

  /** The worlds of a run of any steps. */
  predicate AnyRun<S(==)>(ws: seq<World<S>>, steps: seq<Step<S>>) {
    && |ws| == |steps| + 1
    && ws[0] == Fresh(ws[0].channels)
    && (forall c :: c in ws[0].channels ==> |c| < PATH_ROOM)
    && (forall i :: 0 <= i < |steps| ==>
          Known(ws[i]) && Enabled(ws[i], steps[i]) && ws[i + 1] == Apply(ws[i], steps[i]))
  }

  /** The same with only registered sessions subscribing. */
  predicate Run<S(==)>(ws: seq<World<S>>, steps: seq<Step<S>>) {
    AnyRun(ws, steps) && forall i :: 0 <= i < |steps| ==> Legal(ws[i], steps[i])
  }

  /** How many joins of t, among the first n steps, overlapped with another subscriber. */
  function Overlapping<S(==)>(ws: seq<World<S>>, steps: seq<Step<S>>, t: string, n: nat): nat
    requires Run(ws, steps) && n <= |steps|
  {
    if n == 0 then 0
    else Overlapping(ws, steps, t, n - 1) + Num(Overlaps(ws[n - 1], steps[n - 1], t))
  }

  lemma {:induction false} RunWellFormed<S>(ws: seq<World<S>>, steps: seq<Step<S>>, n: nat)
    requires Run(ws, steps) && n <= |steps|
    ensures WellFormed(ws[n]) && ws[n].channels == ws[0].channels
  {
    if n > 0 {
      RunWellFormed(ws, steps, n - 1);
      StepWellFormed(ws[n - 1], steps[n - 1]);
    }
  }

  lemma {:induction false} RunFollows<S>(ws: seq<World<S>>, steps: seq<Step<S>>, t: string, n: nat)
    requires Run(ws, steps) && n <= |steps| && t in ws[0].channels
    ensures Known(ws[n]) && Follows(ws[n], t, Overlapping(ws, steps, t, n))
  {
    if n == 0 {
      FreshFollows(ws[0], t);
    } else {
      RunWellFormed(ws, steps, n - 1);
      RunFollows(ws, steps, t, n - 1);
      StepFollows(ws[n - 1], steps[n - 1], t, Overlapping(ws, steps, t, n - 1));
    }
  }

  lemma FreshFollows<S>(w: World<S>, t: string)
    requires w == Fresh(w.channels)
    ensures Known(w) && Follows(w, t, 0)
  {
  }

  /**
   * Over every run: a channel's topic is advertised exactly when some registered session is subscribed
   * to it, and no session lists a path twice (paths cut to the room they are stored in aside).
   */
  lemma AdvertisedIffWanted<S>(ws: seq<World<S>>, steps: seq<Step<S>>, t: string, n: nat)
    requires Run(ws, steps) && n <= |steps| && t in ws[0].channels
    ensures Known(ws[n]) && (t in ws[n].overlay.routed <==> Someone(ws[n], t))
    ensures forall s :: s in ws[n].subs ==> Unique(ws[n].subs[s])
  {
    RunWellFormed(ws, steps, n);
    RunFollows(ws, steps, t, n);
  }

  /**
   * The list of local subscriptions does not follow: it holds the topic while nobody is subscribed
   * exactly when at some point a session joined while another one was subscribed.
   */
  lemma ListedIffWantedOrOverlapped<S>(ws: seq<World<S>>, steps: seq<Step<S>>, t: string, n: nat)
    requires Run(ws, steps) && n <= |steps| && t in ws[0].channels
    ensures Known(ws[n]) && (t in ws[n].overlay.local <==> Someone(ws[n], t) || Overlapping(ws, steps, t, n) > 0)
  {
    RunFollows(ws, steps, t, n);
  }

  /** A second session joining the only subscriber adds surplus. */
  lemma JoinBoth<S>(w: World<S>, a: S, b: S, t: string)
    requires WellFormed(w) && a in w.sessions && b in w.sessions && a != b && t in w.channels
    requires Adds(w.subs[a], t) && Adds(w.subs[b], t) && !Someone(w, t) && Follows(w, t, 0)
    ensures var v := Subscribed(Subscribed(w, a, t, false), b, t, false);
            && WellFormed(v) && Follows(v, t, 1)
            && (forall s :: s in v.sessions && s != a && s != b ==> !Has(v.subs[s], t))
  {
    var w1 := Subscribed(w, a, t, false);
    StepFollows(w, Subscribe(a, t, false), t, 0);
    WithSubHas(w.subs[a], t, false, t);
    assert Someone(w1, t);
    StepFollows(w1, Subscribe(b, t, false), t, 0);
  }

  lemma PartBoth<S>(w: World<S>, a: S, b: S, t: string, surplus: nat)
    requires WellFormed(w) && a in w.sessions && b in w.sessions && a != b && t in w.channels && Follows(w, t, surplus)
    requires forall s :: s in w.sessions && s != a && s != b ==> !Has(w.subs[s], t)
    ensures var w1 := Unsubscribed(w, a, t);
            Known(w1) && var v := Unsubscribed(w1, b, t);
            Known(v) && Follows(v, t, surplus) && !Someone(v, t)
  {
    var w1 := Unsubscribed(w, a, t);
    StepFollows(w, Unsubscribe(a, t), t, surplus);
    WithoutSubHas(w.subs[a], t, t);
    var v := Unsubscribed(w1, b, t);
    StepFollows(w1, Unsubscribe(b, t), t, surplus);
    WithoutSubHas(w1.subs[b], t, t);
  }

  /** Two sessions subscribe one after the other and both unsubscribe: nobody is left, but a copy is. */
  lemma CopyStaysBehind<S>(w: World<S>, a: S, b: S, t: string)
    requires WellFormed(w) && a in w.sessions && b in w.sessions && a != b && t in w.channels
    requires Adds(w.subs[a], t) && Adds(w.subs[b], t) && !Someone(w, t) && Follows(w, t, 0)
    ensures var w2 := Subscribed(Subscribed(w, a, t, false), b, t, false);
            Known(w2) && var w3 := Unsubscribed(w2, a, t);
            Known(w3) && var w4 := Unsubscribed(w3, b, t);
            Known(w4) && !Someone(w4, t) && w4.overlay.local[t] == 1
  {
    JoinBoth(w, a, b, t);
    PartBoth(Subscribed(Subscribed(w, a, t, false), b, t, false), a, b, t, 1);
  }

  /** A path subscribed anew is found afterwards exactly when it fits the room for a path. */
  lemma FoundIff(l: seq<Sub>, path: string, loopback: bool)
    requires Adds(l, path) && forall i :: 0 <= i < |l| ==> |l[i].path| <= PATH_ROOM
    ensures Has(WithSub(l, path, loopback), path) <==> |path| <= PATH_ROOM
  {
    var r := WithSub(l, path, loopback);
    HasMember(r, path);
    assert r[|l|] == Sub(Stored(path), loopback);
  }

  // ---------------------------------------------------------------------------
  // Sessions outside the registry
  // ---------------------------------------------------------------------------

  /**
   * The registry is full and a session outside it subscribes a topic: advertised and wanted still go
   * together if and only if some registered session wanted the topic already.
   */
  lemma OutsiderKeepsIff<S>(w: World<S>, s: S, t: string, loopback: bool)
    requires Sane(w) && s in w.subs && s !in w.sessions && t in w.channels && Adds(w.subs[s], t)
    requires t in w.overlay.routed <==> Someone(w, t)
    ensures var v := Subscribed(w, s, t, loopback); (t in v.overlay.routed <==> Someone(v, t)) <==> Someone(w, t)
  {
    var v := Subscribed(w, s, t, loopback);
    SomeoneSplits(w, t, s);
    SomeoneSplits(v, t, s);
    assert HasOther(v, t, s) <==> HasOther(w, t, s);
  }

  /** What is wanted is advertised. */
  predicate Covered<S(==)>(w: World<S>, t: string)
    requires Known(w)
  {
    Someone(w, t) ==> t in w.overlay.routed
  }

  lemma OpenCovered<S>(w: World<S>, s: S, t: string)
    requires Sane(w) && s !in w.subs && Covered(w, t)
    ensures Known(Opened(w, s)) && Covered(Opened(w, s), t)
  {
    var v := Opened(w, s);
    assert forall r :: r in v.sessions && r != s ==> r in w.sessions && v.subs[r] == w.subs[r];
  }

  lemma SubscribeCovered<S>(w: World<S>, s: S, path: string, loopback: bool, t: string)
    requires Sane(w) && s in w.subs && t in w.channels && Covered(w, t)
    ensures Covered(Subscribed(w, s, path, loopback), t)
  {
    var v := Subscribed(w, s, path, loopback);
    SomeoneSplits(w, t, s);
    SomeoneSplits(v, t, s);
    WithSubHas(w.subs[s], path, loopback, t);
    assert HasOther(v, t, s) <==> HasOther(w, t, s);
  }

  lemma UnsubscribeCovered<S>(w: World<S>, s: S, path: string, t: string)
    requires Sane(w) && s in w.subs && t in w.channels && Covered(w, t)
    ensures Covered(Unsubscribed(w, s, path), t)
  {
    var v := Unsubscribed(w, s, path);
    SomeoneSplits(w, t, s);
    SomeoneSplits(v, t, s);
    WithoutSubHas(w.subs[s], path, t);
    assert HasOther(v, t, s) <==> HasOther(w, t, s);
  }

  lemma LeaveCovered<S>(w: World<S>, s: S, t: string)
    requires Sane(w) && s in w.subs && t in w.channels && Covered(w, t)
    ensures Known(Left(w, s)) && Covered(Left(w, s), t)
  {
    var v := Left(w, s);
    UnregisteredMembers(w.sessions, s);
    CleanedTopic(w, s, w.subs[s], t);
    SomeoneSplits(w, t, s);
    assert forall r :: r in v.sessions ==> r in w.sessions && r != s && v.subs[r] == w.subs[r];
  }

  lemma StepCovered<S>(w: World<S>, step: Step<S>, t: string)
    requires Sane(w) && Enabled(w, step) && t in w.channels && Covered(w, t)
    ensures Known(Apply(w, step)) && Covered(Apply(w, step), t)
  {
    match step
    case Open(s) => OpenCovered(w, s, t);
    case Subscribe(s, path, loopback) => SubscribeCovered(w, s, path, loopback, t);
    case Unsubscribe(s, path) => UnsubscribeCovered(w, s, path, t);
    case Leave(s) => LeaveCovered(w, s, t);
  }

  /** Over every run, sessions outside the registry included: a topic some registered session wants is advertised. */
  lemma {:induction false} WantedIsAdvertised<S>(ws: seq<World<S>>, steps: seq<Step<S>>, t: string, n: nat)
    requires AnyRun(ws, steps) && n <= |steps| && t in ws[0].channels
    ensures Sane(ws[n]) && ws[n].channels == ws[0].channels && Covered(ws[n], t)
  {
    if n > 0 {
      WantedIsAdvertised(ws, steps, t, n - 1);
      StepSane(ws[n - 1], steps[n - 1]);
      StepCovered(ws[n - 1], steps[n - 1], t);
    }
  }
}
