/** Tombstones over runs in which notices arrive and tombstones expire, in any order. */
module TombstoneRuns {
  // A lookup is meant to find the newest notice received. Once the newest tombstone of a topic has expired,
  // nothing remembers it, and an older notice that arrives then is taken in.

  import opened Options
  import opened Tombstones

  datatype Event = Receive(x: Tombstone) | Expire(now: nat)

  function Apply(t: seq<Tombstone>, e: Event): seq<Tombstone> {
    match e
    case Receive(x) => Add(t, x)
    case Expire(now) => Live(t, now)
  }

  /** The table after the events, in order, from an empty one. */
  function Table(es: seq<Event>): seq<Tombstone> {
    if es == [] then [] else Apply(Table(es[..|es| - 1]), es[|es| - 1])
  }

  /** Over every run: no topic is listed twice and the table does not overflow. */
  lemma {:induction false} TableDistinct(es: seq<Event>)
    ensures Distinct(Table(es)) && |Table(es)| <= MAX_TOMBSTONES
  {
    if es != [] {
      var n := |es| - 1;
      TableDistinct(es[..n]);
      match es[n]
      case Receive(x) =>
      case Expire(now) => LiveDistinct(Table(es[..n]), now);
    }
  }

  /** Expiry takes away exactly the expired answers. */
  lemma LiveLookup(t: seq<Tombstone>, now: nat, topic: string)
    requires Distinct(t)
    ensures Lookup(Live(t, now), topic) ==
            (var o := Lookup(t, topic); if o.Some? && o.value.expires <= now then None else o)
  {
    var pos := LiveInOrder(t, now);
    var r, i := Live(t, now), Index(t, topic);
    LiveDistinct(t, now);
    if i < |t| && t[i].expires > now {
      var k :| 0 <= k < |pos| && pos[k] == i;
      assert r[k].topic == topic;
      IndexIs(r, topic, k);
    } else {
      GoneFrom(t, now, pos, topic);
    }
  }

  lemma GoneFrom(t: seq<Tombstone>, now: nat, pos: seq<nat>, topic: string)
    requires Distinct(t) && Selects(t, now, pos, Live(t, now))
    requires var i := Index(t, topic); i < |t| ==> t[i].expires <= now
    ensures Lookup(Live(t, now), topic) == None
  {
    var r := Live(t, now);
    forall k | 0 <= k < |r| ensures r[k].topic != topic {
      assert pos[k] in pos && r[k] == t[pos[k]] && t[pos[k]].expires > now;
    }
  }

  // ---------------------------------------------------------------------------
  // Newest wins
  // ---------------------------------------------------------------------------

  /** No notice of the topic among the events is later. */
  predicate NoneLater(es: seq<Event>, topic: string, timestamp: nat) {
    forall i :: 0 <= i < |es| && es[i].Receive? && es[i].x.topic == topic ==> es[i].x.timestamp <= timestamp
  }

  /** What a lookup finds, if anything, is the newest notice received. */
  predicate AnswersNewest(es: seq<Event>, topic: string) {
    var o := Lookup(Table(es), topic);
    o.Some? ==> NoneLater(es, topic, o.value.timestamp)
  }

  /** Event i is a notice of the topic that is taken in as new, although a later one had been received. */
  predicate Relapse(es: seq<Event>, i: nat, topic: string) {
    && i < |es| && es[i].Receive? && es[i].x.topic == topic
    && Lookup(Table(es[..i]), topic).None? && |Table(es[..i])| < MAX_TOMBSTONES
    && !NoneLater(es[..i], topic, es[i].x.timestamp)
  }

  lemma NoneLaterSnoc(es: seq<Event>, e: Event, topic: string, timestamp: nat)
    ensures NoneLater(es + [e], topic, timestamp) <==>
            NoneLater(es, topic, timestamp) && (e.Receive? && e.x.topic == topic ==> e.x.timestamp <= timestamp)
  {
    assert (es + [e])[..|es|] == es;
    assert forall i :: 0 <= i < |es| ==> (es + [e])[i] == es[i];
    assert (es + [e])[|es|] == e;
  }

  lemma TableSnoc(es: seq<Event>, e: Event)
    ensures Table(es + [e]) == Apply(Table(es), e)
  {
    assert (es + [e])[..|es|] == es;
  }

  lemma WeakerLater(es: seq<Event>, topic: string, a: nat, b: nat)
    requires NoneLater(es, topic, a) && a <= b
    ensures NoneLater(es, topic, b)
  {
  }

  lemma ReceiveAnswers(es: seq<Event>, x: Tombstone)
    requires AnswersNewest(es, x.topic)
    ensures AnswersNewest(es + [Receive(x)], x.topic) <==> !Relapse(es + [Receive(x)], |es|, x.topic)
  {
    var t := Table(es);
    TableSnoc(es, Receive(x));
    AddLookup(t, x, x.topic);
    assert (es + [Receive(x)])[..|es|] == es;
    NoneLaterSnoc(es, Receive(x), x.topic, x.timestamp);
    var o := Lookup(t, x.topic);
    if o.Some? {
      var e := o.value;
      NoneLaterSnoc(es, Receive(x), x.topic, e.timestamp);
      if x.timestamp > e.timestamp { WeakerLater(es, x.topic, e.timestamp, x.timestamp); }
    }
  }

  lemma OtherAnswers(es: seq<Event>, e: Event, topic: string)
    requires AnswersNewest(es, topic) && !(e.Receive? && e.x.topic == topic)
    ensures AnswersNewest(es + [e], topic)
  {
    TableSnoc(es, e);
    TableDistinct(es);
    if e.Receive? { AddLookup(Table(es), e.x, topic); } else { LiveLookup(Table(es), e.now, topic); }
    var o := Lookup(Table(es), topic);
    if o.Some? { NoneLaterSnoc(es, e, topic, o.value.timestamp); }
  }

  lemma NextAnswers(es: seq<Event>, topic: string)
    requires es != [] && AnswersNewest(es[..|es| - 1], topic)
    ensures AnswersNewest(es, topic) <==> !Relapse(es, |es| - 1, topic)
  {
    var n := |es| - 1;
    assert es == es[..n] + [es[n]];
    if es[n].Receive? && es[n].x.topic == topic {
      ReceiveAnswers(es[..n], es[n].x);
    } else {
      OtherAnswers(es[..n], es[n], topic);
    }
  }

  lemma {:induction false} NoRelapseAnswers(es: seq<Event>, topic: string, n: nat)
    requires n <= |es| && forall i :: 0 <= i < |es| ==> !Relapse(es, i, topic)
    ensures AnswersNewest(es[..n], topic)
  {
    if n > 0 {
      NoRelapseAnswers(es, topic, n - 1);
      assert es[..n][..n - 1] == es[..n - 1];
      SameRelapse(es, n, n - 1, topic);
      NextAnswers(es[..n], topic);
    }
  }

  lemma SameRelapse(es: seq<Event>, n: nat, i: nat, topic: string)
    requires i < n <= |es|
    ensures Relapse(es[..n], i, topic) <==> Relapse(es, i, topic)
  {
    assert es[..n][..i] == es[..i];
  }

  /**
   * Newest wins at every moment of a run if and only if no older notice arrives, and finds room, while nothing
   * is held for its topic.
   */
  lemma NewestWinsIff(es: seq<Event>, topic: string)
    ensures (forall n :: 0 <= n <= |es| ==> AnswersNewest(es[..n], topic))
            <==> forall i :: 0 <= i < |es| ==> !Relapse(es, i, topic)
  {
    if forall i :: 0 <= i < |es| ==> !Relapse(es, i, topic) {
      forall n | 0 <= n <= |es| ensures AnswersNewest(es[..n], topic) { NoRelapseAnswers(es, topic, n); }
    }
    if forall n :: 0 <= n <= |es| ==> AnswersNewest(es[..n], topic) {
      forall i | 0 <= i < |es| ensures !Relapse(es, i, topic) {
        assert AnswersNewest(es[..i], topic) && AnswersNewest(es[..i + 1], topic);
        assert es[..i + 1][..i] == es[..i];
        SameRelapse(es, i + 1, i, topic);
        NextAnswers(es[..i + 1], topic);
      }
    }
  }

  /** The newest tombstone expires, an older notice arrives: a lookup finds the older one. */
  lemma OldNoticeReturns(newer: Tombstone, older: Tombstone)
    requires older.topic == newer.topic && older.timestamp < newer.timestamp
    ensures var es := [Receive(newer), Expire(newer.expires), Receive(older)];
            Lookup(Table(es), newer.topic) == Some(older) && !AnswersNewest(es, newer.topic)
  {
    var a, b, c := Receive(newer), Expire(newer.expires), Receive(older);
    assert [a, b, c] == ([] + [a] + [b]) + [c];
    TableSnoc([], a);
    TableSnoc([] + [a], b);
    TableSnoc([] + [a] + [b], c);
    assert Table([] + [a]) == [newer];
    assert [newer][..0] == [];
    assert Live([newer], newer.expires) == [];
    assert Table([a, b, c]) == [older];
    assert [a, b, c][0] == a;
  }
}
