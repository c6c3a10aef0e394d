/**
 * Hierarchical subtopics: slash-separated paths, the prefix match that decides delivery, and the parser
 * into components.
 */
module Subtopic {

  const SEPARATOR: char := '/'
  const MAX_PART_LEN: nat := 64

  // ---------------------------------------------------------------------------
  // Components
  // ---------------------------------------------------------------------------

  /** The stretches between separators: one more than there are separators. */
  function Split(s: string): (r: seq<string>)
    ensures |r| > 0
  {
    if s == "" then [""]
    else
      var r := Split(s[1..]);
      if s[0] == SEPARATOR then [""] + r else [[s[0]] + r[0]] + r[1..]
  }

  function Join(cs: seq<string>): string
    requires |cs| > 0
  {
    if |cs| == 1 then cs[0] else cs[0] + [SEPARATOR] + Join(cs[1..])
  }

  predicate Plain(s: string) {
    forall i :: 0 <= i < |s| ==> s[i] != SEPARATOR
  }

  predicate AllPlain(cs: seq<string>) {
    forall i :: 0 <= i < |cs| ==> Plain(cs[i])
  }

  /** Split is the inverse of joining separator-free components. */
  lemma {:induction false} JoinSplit(s: string)
    ensures Join(Split(s)) == s && AllPlain(Split(s))
  {
    if s != "" {
      JoinSplit(s[1..]);
      var r := Split(s[1..]);
      if s[0] == SEPARATOR {
        assert ([""] + r)[1..] == r;
        assert s == "" + [SEPARATOR] + s[1..];
      } else {
        var c := [s[0]] + r[0];
        assert ([c] + r[1..])[1..] == r[1..];
        if |r| == 1 {
          assert s == c;
        } else {
          assert c + [SEPARATOR] + Join(r[1..]) == [s[0]] + (r[0] + [SEPARATOR] + Join(r[1..])) == s;
        }
      }
    }
  }

  lemma {:induction false} SplitJoin(cs: seq<string>)
    requires |cs| > 0 && AllPlain(cs)
    ensures Split(Join(cs)) == cs
    decreases |cs|
  {
    var k := |cs[0]|;
    if |cs| == 1 {
      SplitWhole(cs[0]);
    } else {
      SplitJoin(cs[1..]);
      var s := Join(cs);
      assert s[..k] == cs[0] && s[k] == SEPARATOR && s[k + 1..] == Join(cs[1..]);
      SplitHead(s, k);
      assert [cs[0]] + cs[1..] == cs;
    }
  }

  /** Up to the first separator is the first component. */
  lemma {:induction false} SplitHead(s: string, k: nat)
    requires k < |s| && Plain(s[..k]) && s[k] == SEPARATOR
    ensures Split(s) == [s[..k]] + Split(s[k + 1..])
    decreases k
  {
    if k > 0 {
      var t := s[1..];
      assert t[..k - 1] == s[..k][1..] && t[k..] == s[k + 1..];
      assert s[0] == s[..k][0];
      SplitHead(t, k - 1);
      assert s[..k] == [s[0]] + t[..k - 1];
    }
  }

  lemma {:induction false} SplitWhole(s: string)
    requires Plain(s)
    ensures Split(s) == [s]
  {
    if s != "" {
      SplitWhole(s[1..]);
      assert [s[0]] + s[1..] == s;
    }
  }

  // ---------------------------------------------------------------------------
  // Matching
  // ---------------------------------------------------------------------------

  /** Without its trailing separators. */
  function Stripped(s: string): (r: string)
    ensures |r| <= |s| && r == s[..|r|] && (r == "" || r[|r| - 1] != '/')
    ensures forall i :: |r| <= i < |s| ==> s[i] == '/'
  {
    if s != "" && s[|s| - 1] == SEPARATOR then Stripped(s[..|s| - 1]) else s
  }

  /** The empty subscription takes everything; any other takes the subtree below its components. */
  predicate Covers(subscription: string, message: string) {
    subscription == "" || Split(Stripped(subscription)) <= Split(message)
  }

  /** Beginning with the same characters and stopping at a component boundary. */
  predicate AtBoundary(a: string, m: string) {
    a <= m && (|m| == |a| || m[|a|] == SEPARATOR)
  }

  lemma ConsPrefix<T>(c: T, x: seq<T>, d: T, y: seq<T>)
    ensures [c] + x <= [d] + y <==> c == d && x <= y
  {
    var s, t := [c] + x, [d] + y;
    assert s[1..] == x && t[1..] == y;
    if s <= t {
      assert s[0] == t[0] && s[1..] == t[1..|s|];
      assert x == y[..|x|];
    }
    if c == d && x <= y {
      assert t[..|s|] == [c] + y[..|x|];
    }
  }

  lemma SameHead(a: string, m: string)
    requires a != "" && m != "" && a[0] == m[0]
    ensures Split(a) <= Split(m) <==> Split(a[1..]) <= Split(m[1..])
  {
    var x, y := Split(a[1..]), Split(m[1..]);
    if a[0] == SEPARATOR {
      ConsPrefix("", x, "", y);
    } else {
      var c, d := [a[0]] + x[0], [a[0]] + y[0];
      assert c == d <==> x[0] == y[0] by { assert c[1..] == x[0] && d[1..] == y[0]; }
      assert x == [x[0]] + x[1..] && y == [y[0]] + y[1..];
      ConsPrefix(c, x[1..], d, y[1..]);
      ConsPrefix(x[0], x[1..], y[0], y[1..]);
    }
  }

  /** The first component is empty exactly when the text is, or starts with a separator. */
  lemma FirstComponent(s: string)
    ensures s == "" || s[0] == SEPARATOR <==> Split(s)[0] == ""
    ensures s != "" && s[0] != SEPARATOR ==> Split(s)[0][0] == s[0]
    ensures s != "" && s[0] == SEPARATOR ==> |Split(s)| > 1
  {
  }

  /** A prefix of the text at a boundary is exactly a prefix of the list of components. */
  lemma {:induction false} BoundaryIsListPrefix(a: string, m: string)
    ensures AtBoundary(a, m) <==> Split(a) <= Split(m)
  {
    FirstComponent(a);
    FirstComponent(m);
    assert Split(a) <= Split(m) ==> Split(a)[0] == Split(m)[0];
    if a == "" {
      assert Split(m)[..1] == [Split(m)[0]];
    } else if m != "" && a[0] == m[0] {
      BoundaryIsListPrefix(a[1..], m[1..]);
      ConsPrefix(a[0], a[1..], m[0], m[1..]);
      assert a == [a[0]] + a[1..] && m == [m[0]] + m[1..];
      SameHead(a, m);
    }
  }

  /** A subscription that does not end in a slash takes its own path and whatever goes on with a slash. */
  lemma CoversSpelled(a: string, m: string)
    requires a != "" && a[|a| - 1] != '/'
    ensures Covers(a, m) <==> m == a || a + "/" <= m
  {
    BoundaryIsListPrefix(a, m);
    if a + "/" <= m { assert m[..|a|] == (a + "/")[..|a|] && m[|a|] == (a + "/")[|a|]; }
  }

  /** A slash at the end makes no difference, except to the empty subscription, which it narrows. */
  lemma TrailingSlash(a: string, m: string)
    ensures a != "" ==> (Covers(a + "/", m) <==> Covers(a, m))
    ensures Covers("", m) && (Covers("/", m) <==> m == "" || m[0] == '/')
  {
    assert (a + "/")[..|a|] == a && Stripped(a + "/") == Stripped(a);
    assert Stripped("/") == "";
    BoundaryIsListPrefix("", m);
  }

  /** The length without the separators at the end. */
  method StripEnd(s: string) returns (n: nat)
    ensures n <= |s| && s[..n] == Stripped(s)
  {
    n := |s|;
    assert s[..n] == s;
    while n > 0 && s[n - 1] == SEPARATOR
      invariant n <= |s| && Stripped(s) == Stripped(s[..n])
    {
      assert s[..n][..n - 1] == s[..n - 1];
      n := n - 1;
    }
  }

  /** subtopic_matches. */
  method Matches(message: string, subscription: string) returns (b: bool)
    ensures b <==> Covers(subscription, message)
  {
    if |subscription| == 0 { return true; }
    var n := StripEnd(subscription);
    ghost var a := subscription[..n];
    BoundaryIsListPrefix(a, message);
    if |message| < n { return false; }
    var i := 0;
    while i < n
      invariant 0 <= i <= n && message[..i] == subscription[..i]
    {
      if message[i] != subscription[i] {
        assert message[..n][i] != a[i];
        return false;
      }
      i := i + 1;
    }
    assert a <= message;
    return |message| == n || message[n] == SEPARATOR;
  }

  // ---------------------------------------------------------------------------
  // Parsing
  // ---------------------------------------------------------------------------

  function NonEmpty(cs: seq<string>): seq<string> {
    if cs == [] then []
    else NonEmpty(cs[..|cs| - 1]) + (if cs[|cs| - 1] == "" then [] else [cs[|cs| - 1]])
  }

  /** Determined by what it does to one component and to two lists. */
  lemma {:induction false} NonEmptyIs(x: seq<string>, y: seq<string>, c: string)
    ensures NonEmpty(x + y) == NonEmpty(x) + NonEmpty(y)
    ensures NonEmpty([c]) == if c == "" then [] else [c]
    decreases |y|
  {
    assert [c][..0] == [];
    if y == [] {
      assert x + y == x;
    } else {
      var n := |y| - 1;
      NonEmptyIs(x, y[..n], c);
      assert (x + y)[..|x| + n] == x + y[..n] && (x + y)[|x| + n] == y[n];
    }
  }

  function FirstOf(cs: seq<string>, max: nat): seq<string> {
    if |cs| <= max then cs else cs[..max]
  }

  /** Component k does not fit a part and is met before max parts are found. */
  ghost predicate TooLong(cs: seq<string>, max: nat, k: nat) {
    k < |cs| && |cs[k]| >= MAX_PART_LEN && |NonEmpty(cs[..k])| < max
  }

  ghost predicate Refused(cs: seq<string>, max: nat) {
    exists k: nat :: TooLong(cs, max, k)
  }

  /** A path of one component is refused exactly from 64 characters on. */
  lemma OneComponent(path: string, max: nat)
    requires max > 0 && '/' !in path
    ensures Refused(Split(path), max) <==> |path| >= 64
  {
    SplitWhole(path);
    assert Split(path)[..0] == [];
    if |path| >= 64 { assert TooLong(Split(path), max, 0); }
  }

  lemma NonEmptyStep(cs: seq<string>, k: nat)
    requires k < |cs|
    ensures NonEmpty(cs[..k + 1]) == NonEmpty(cs[..k]) + (if cs[k] == "" then [] else [cs[k]])
  {
    assert cs[..k + 1][..k] == cs[..k];
  }

  /** Non-empty components only accumulate. */
  lemma {:induction false} NonEmptyGrows(cs: seq<string>, j: nat, k: nat)
    requires j <= k <= |cs|
    ensures NonEmpty(cs[..j]) <= NonEmpty(cs[..k])
    decreases k
  {
    if j < k {
      NonEmptyGrows(cs, j, k - 1);
      NonEmptyStep(cs, k - 1);
    }
  }

  /** Component k of the path ends at p: the bookkeeping of one loop step. */
  ghost predicate At(path: string, k: nat, start: nat) {
    && k < |Split(path)| && start <= |path|
    && Split(path)[k..] == Split(path[start..])
  }

  lemma DropOne<T>(cs: seq<T>, k: nat, c: T, rest: seq<T>)
    requires k < |cs| && cs[k..] == [c] + rest
    ensures cs[k] == c && cs[k + 1..] == rest
  {
    assert cs[k..][0] == cs[k] && cs[k..][1..] == cs[k + 1..];
  }

  predicate PlainFrom(path: string, start: nat, p: nat)
    requires start <= p <= |path|
  {
    forall i :: start <= i < p ==> path[i] != SEPARATOR
  }

  lemma AtNext(path: string, k: nat, start: nat, p: nat)
    requires At(path, k, start) && start <= p < |path| && PlainFrom(path, start, p) && path[p] == SEPARATOR
    ensures Split(path)[k] == path[start..p] && At(path, k + 1, p + 1)
  {
    var s, n := path[start..], p - start;
    assert s[..n] == path[start..p] && s[n + 1..] == path[p + 1..];
    SplitHead(s, n);
    DropOne(Split(path), k, path[start..p], Split(path[p + 1..]));
  }

  lemma AtLast(path: string, k: nat, start: nat)
    requires At(path, k, start) && PlainFrom(path, start, |path|)
    ensures k + 1 == |Split(path)| && Split(path)[k] == path[start..]
  {
    SplitWhole(path[start..]);
    assert Split(path)[k..][0] == Split(path)[k];
  }

  /** The first k components are dealt with: none is refused, and got are the parts found. */
  ghost predicate Sofar(cs: seq<string>, max: nat, k: nat, got: seq<string>) {
    k <= |cs| && (forall j :: 0 <= j < k ==> !TooLong(cs, max, j)) && got == NonEmpty(cs[..k]) && |got| <= max
  }

  function PartOf(c: string): seq<string> {
    if c == "" then [] else [c]
  }

  lemma PartTaken(cs: seq<string>, max: nat, k: nat, got: seq<string>)
    requires Sofar(cs, max, k, got) && k < |cs| && |got| < max && |cs[k]| < MAX_PART_LEN
    ensures Sofar(cs, max, k + 1, got + PartOf(cs[k]))
  {
    NonEmptyStep(cs, k);
  }

  lemma PartTooLong(cs: seq<string>, max: nat, k: nat, got: seq<string>)
    requires Sofar(cs, max, k, got) && k < |cs| && |got| < max && |cs[k]| >= MAX_PART_LEN
    ensures Refused(cs, max)
  {
    assert TooLong(cs, max, k);
  }

  lemma EnoughParts(cs: seq<string>, max: nat, k: nat, got: seq<string>)
    requires Sofar(cs, max, k, got) && (|got| == max || k == |cs|)
    ensures !Refused(cs, max) && FirstOf(NonEmpty(cs), max) == got
  {
    forall j: nat | TooLong(cs, max, j) ensures false {
      if j >= k { NonEmptyGrows(cs, k, j); }
    }
    NonEmptyGrows(cs, k, |cs|);
    assert cs[..|cs|] == cs;
  }

  /** Stores one component, if it fits and is not empty. */
  method TakePart(part: string, parts: array<string>, count: nat) returns (fits: bool, next: nat)
    requires count < parts.Length
    modifies parts
    ensures fits == (|part| < MAX_PART_LEN)
    ensures fits ==> next <= parts.Length && parts[..next] == old(parts[..count]) + PartOf(part)
  {
    if |part| >= MAX_PART_LEN { return false, count; }
    if |part| == 0 { return true, count; }
    parts[count] := part;
    return true, count + 1;
  }

  /**
   * The loop up to the last separator, or until there are maxParts parts: the component k starts at start,
   * or an overlong one was met.
   */
  method ParseHeads(path: string, parts: array<string>, maxParts: nat)
    returns (fits: bool, count: nat, start: nat, ghost k: nat)
    requires 0 < maxParts <= parts.Length
    modifies parts
    ensures !fits ==> Refused(Split(path), maxParts)
    ensures fits ==> count <= maxParts && Sofar(Split(path), maxParts, k, parts[..count]) && At(path, k, start)
    ensures fits && count < maxParts ==> PlainFrom(path, start, |path|)
  {
    ghost var cs := Split(path);
    count, start, k := 0, 0, 0;
    var p := 0;
    assert path[0..] == path && cs[0..] == cs;
    while p < |path| && count < maxParts
      invariant start <= p <= |path| && count <= maxParts
      invariant At(path, k, start) && PlainFrom(path, start, p)
      invariant Sofar(cs, maxParts, k, parts[..count])
    {
      if path[p] == SEPARATOR {
        AtNext(path, k, start, p);
        ghost var got := parts[..count];
        fits, count := TakePart(path[start..p], parts, count);
        if !fits {
          PartTooLong(cs, maxParts, k, got);
          return;
        }
        PartTaken(cs, maxParts, k, got);
        start, k := p + 1, k + 1;
      }
      p := p + 1;
    }
    fits := true;
  }

  /**
   * subtopic_parse: with room for maxParts parts, the count of parts and the parts themselves are the
   * first maxParts non-empty components; refused exactly when an overlong component comes first.
   */
  method Parse(path: string, parts: array<string>, maxParts: int) returns (count: int)
    requires parts.Length >= maxParts
    modifies parts
    ensures count == -1 <==> maxParts <= 0 || Refused(Split(path), maxParts)
    ensures count != -1 ==> 0 <= count <= maxParts && parts[..count] == FirstOf(NonEmpty(Split(path)), maxParts)
  {
    if maxParts <= 0 { return -1; }
    ghost var cs := Split(path);
    var fits, found, start, k := ParseHeads(path, parts, maxParts);
    if !fits { return -1; }
    ghost var got := parts[..found];
    if found < maxParts {
      AtLast(path, k, start);
      fits, found := TakePart(path[start..], parts, found);
      if !fits {
        PartTooLong(cs, maxParts, k, got);
        return -1;
      }
      PartTaken(cs, maxParts, k, got);
      EnoughParts(cs, maxParts, k + 1, parts[..found]);
    } else {
      EnoughParts(cs, maxParts, k, got);
    }
    return found;
  }
}
