/** Which messages of its own a session gets: what it asked for last decides. */
module SessionsLoopback {
  import opened Options
  import opened Sessions

  /** The loopback flag of the first subscription to the path. */
  function Flag(l: seq<Sub>, path: string): Option<bool> {
    if Has(l, path) then Some(l[Index(l, path)].loopback) else None
  }

  lemma FlagAt(l: seq<Sub>, path: string, i: nat)
    requires i < |l| && l[i].path == path && forall j :: 0 <= j < i ==> l[j].path != path
    ensures Flag(l, path) == Some(l[i].loopback)
  {
  }

  lemma NoFlag(l: seq<Sub>, path: string)
    requires forall i :: 0 <= i < |l| ==> l[i].path != path
    ensures Flag(l, path) == None
  {
  }

  /** The call returns 0: the path is listed already, or there is room among the 256. */
  predicate Accepts(l: seq<Sub>, path: string) {
    Has(l, path) || |l| < 256
  }

  /** A subscription of up to 255 characters sets the path's flag and no other path's. */
  lemma SubscribeSets(l: seq<Sub>, path: string, loopback: bool, t: string)
    requires |path| <= 255 && Accepts(l, path)
    ensures Flag(WithSub(l, path, loopback), t) == if t == path then Some(loopback) else Flag(l, t)
  {
    var r, j := WithSub(l, path, loopback), Index(l, t);
    if t == path || j < |l| { FlagAt(r, t, j); } else { NoFlag(r, t); }
  }

  lemma OnlyThisFlag(l: seq<Sub>, path: string, loopback: bool)
    ensures |path| <= 255 && Accepts(l, path) ==> forall t ::
              Flag(WithSub(l, path, loopback), t) == if t == path then Some(loopback) else Flag(l, t)
  {
    if |path| <= 255 && Accepts(l, path) {
      forall t ensures Flag(WithSub(l, path, loopback), t) == if t == path then Some(loopback) else Flag(l, t) {
        SubscribeSets(l, path, loopback, t);
      }
    }
  }

  /** A refused subscription changes nothing. */
  lemma RefusedChangesNothing(l: seq<Sub>, path: string, loopback: bool)
    requires !Accepts(l, path)
    ensures WithSub(l, path, loopback) == l
  {
  }

  /** A path of more than 255 characters that is not listed sets the flag of its first 255, if they are not. */
  lemma CutSubscribeSets(l: seq<Sub>, path: string, loopback: bool, t: string)
    requires |path| > 255 && !Has(l, path) && |l| < 256
    ensures Flag(WithSub(l, path, loopback), t)
            == if t == path[..255] && !Has(l, t) then Some(loopback) else Flag(l, t)
  {
    var r := WithSub(l, path, loopback);
    var j := Index(l, t);
    if j < |l| {
      FlagAt(r, t, j);
    } else if t == path[..255] {
      FlagAt(r, t, |l|);
    } else {
      NoFlag(r, t);
    }
  }

  predicate Once(l: seq<Sub>, t: string) {
    forall i, j :: 0 <= i < j < |l| && l[i].path == t ==> l[j].path != t
  }

  lemma WithoutAt(l: seq<Sub>, path: string)
    requires Has(l, path)
    ensures var r, i := WithoutSub(l, path), Index(l, path);
            |r| == |l| - 1 && forall m :: 0 <= m < |r| ==> r[m] == if m < i then l[m] else l[m + 1]
  {
  }

  /** Unsubscribing clears the flag of a path listed once, and no other path's. */
  lemma UnsubscribeClears(l: seq<Sub>, path: string)
    requires Once(l, path)
    ensures Flag(WithoutSub(l, path), path) == None
  {
    if Has(l, path) {
      WithoutAt(l, path);
      NoFlag(WithoutSub(l, path), path);
    }
  }

  lemma UnsubscribeKeeps(l: seq<Sub>, path: string, t: string)
    requires t != path
    ensures Flag(WithoutSub(l, path), t) == Flag(l, t)
  {
    var r, i, k := WithoutSub(l, path), Index(l, path), Index(l, t);
    if i < |l| {
      WithoutAt(l, path);
      if k == |l| { NoFlag(r, t); } else { FlagAt(r, t, if k < i then k else k - 1); }
    }
  }

  lemma OnceWithout(l: seq<Sub>, path: string, t: string)
    requires Once(l, t)
    ensures Once(WithoutSub(l, path), t)
  {
    if Has(l, path) { WithoutAt(l, path); }
  }

  /** A path of 256 characters subscribed twice is stored twice, and its first 255 outlive an unsubscription. */
  lemma CutPathOutlives(path: string)
    requires |path| == 256
    ensures var l := WithSub(WithSub([], path, true), path, true);
            Flag(WithoutSub(l, path[..255]), path[..255]) == Some(true)
  {
    var t := path[..255];
    var once := WithSub([], path, true);
    assert once == [Sub(t, true)];
    NoFlag(once, path);
    assert WithSub(once, path, true) == [Sub(t, true), Sub(t, true)];
    assert WithoutSub([Sub(t, true), Sub(t, true)], t) == [Sub(t, true)];
  }

  // ---------------------------------------------------------------------------
  // Runs
  // ---------------------------------------------------------------------------

  /** What the last call of s about t, among the first n, asked for: None after an unsubscription. */
  function Asked<S(==)>(ws: seq<World<S>>, steps: seq<Step<S>>, s: S, t: string, n: nat): Option<bool>
    requires AnyRun(ws, steps) && n <= |steps|
  {
    if n == 0 then None
    else
      var before := Asked(ws, steps, s, t, n - 1);
      var step := steps[n - 1];
      if step.s != s then before
      else
        match step
        case Open(_) => None
        case Subscribe(_, path, loopback) =>
          if path == t && Accepts(ws[n - 1].subs[s], t) then Some(loopback) else before
        case Unsubscribe(_, path) => if path == t then None else before
        case Leave(_) => None
  }

  /** No subscription to a longer path is stored as t: always so below 255 characters. */
  predicate NeverCutTo<S>(steps: seq<Step<S>>, t: string) {
    forall i :: 0 <= i < |steps| && steps[i].Subscribe? && |steps[i].path| > 255 ==> steps[i].path[..255] != t
  }

  lemma ShortNeverCut<S>(steps: seq<Step<S>>, t: string)
    requires |t| < 255
    ensures NeverCutTo(steps, t)
  {
  }

  /** The session's list shows t once, with this flag. */
  predicate Shows(l: seq<Sub>, t: string, flag: Option<bool>) {
    Once(l, t) && Flag(l, t) == flag
  }

  lemma SubscribeShows(l: seq<Sub>, path: string, loopback: bool, t: string)
    requires Once(l, t) && |t| <= 255 && (|path| > 255 ==> path[..255] != t)
    requires forall i :: 0 <= i < |l| ==> |l[i].path| <= 255
    ensures Shows(WithSub(l, path, loopback), t, if path == t && Accepts(l, t) then Some(loopback) else Flag(l, t))
  {
    if Accepts(l, path) {
      if |path| <= 255 { SubscribeSets(l, path, loopback, t); } else { CutSubscribeSets(l, path, loopback, t); }
    }
  }

  lemma UnsubscribeShows(l: seq<Sub>, path: string, t: string)
    requires Once(l, t)
    ensures Shows(WithoutSub(l, path), t, if path == t then None else Flag(l, t))
  {
    OnceWithout(l, path, t);
    if path == t { UnsubscribeClears(l, t); } else { UnsubscribeKeeps(l, path, t); }
  }

  predicate PathsFit(l: seq<Sub>) {
    forall i :: 0 <= i < |l| ==> |l[i].path| <= 255
  }

  lemma {:induction false} RunFits<S>(ws: seq<World<S>>, steps: seq<Step<S>>, s: S, n: nat)
    requires AnyRun(ws, steps) && n <= |steps|
    ensures s in ws[n].subs ==> PathsFit(ws[n].subs[s])
  {
    if n > 0 { RunFits(ws, steps, s, n - 1); }
  }

  /**
   * Over every run, and for every topic of up to 255 characters that no longer path is cut to: a session is
   * subscribed exactly when the last call about the topic was a successful subscription, and gets its own
   * messages back exactly when that one asked for it.
   */
  lemma {:induction false} LastAskedDecides<S>(ws: seq<World<S>>, steps: seq<Step<S>>, s: S, t: string, n: nat)
    requires AnyRun(ws, steps) && n <= |steps| && |t| <= 255 && NeverCutTo(steps, t)
    ensures s in ws[n].subs ==> Shows(ws[n].subs[s], t, Asked(ws, steps, s, t, n))
  {
    if n > 0 {
      LastAskedDecides(ws, steps, s, t, n - 1);
      RunFits(ws, steps, s, n - 1);
      var step := steps[n - 1];
      if step.s == s && s in ws[n - 1].subs {
        var l := ws[n - 1].subs[s];
        match step
        case Open(_) =>
        case Subscribe(_, path, loopback) => SubscribeShows(l, path, loopback, t);
        case Unsubscribe(_, path) => UnsubscribeShows(l, path, t);
        case Leave(_) =>
      }
    }
  }
}
