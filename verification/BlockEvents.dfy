/** Blocks, add/remove events, and what a subscriber makes of them: replaying the events
    in order gives a chain of blocks (ethmonitor/chain.go:204-231). */
module BlockEvents {

  /** Block hashes, compared only for equality. */
  type Hash = nat

  datatype Block = Block(hash: Hash, parent: Hash, number: nat)
  datatype Kind = Added | Removed
  datatype Event = Event(kind: Kind, block: Block)

  /** b extends a by one block. */
  predicate Follows(a: Block, b: Block)
  {
    b.parent == a.hash && b.number == a.number + 1
  }

  /** Oldest to newest, every block extends the one before it. */
  ghost predicate Linked(chain: seq<Block>)
  {
    forall i :: 0 < i < |chain| ==> Follows(chain[i - 1], chain[i])
  }

  /** The hash commits to the block's number, and the parent's number is one less. */
  predicate Honest(numberOf: Hash -> int, b: Block)
  {
    b.number == numberOf(b.hash) && numberOf(b.parent) == b.number - 1
  }

  ghost predicate AllHonest(numberOf: Hash -> int, chain: seq<Block>)
  {
    forall i :: 0 <= i < |chain| ==> Honest(numberOf, chain[i])
  }

  /** s is what remains of r after dropping its oldest elements. */
  ghost predicate IsSuffix<T>(s: seq<T>, r: seq<T>)
  {
    |s| <= |r| && r[|r| - |s|..] == s
  }

  /** The newest limit elements. */
  function Retain<T>(s: seq<T>, limit: nat): (r: seq<T>)
    ensures |r| <= limit || r == s
  {
    if |s| > limit then s[|s| - limit..] else s
  }

  // ---- replaying events --------------------------------------------------------------

  function Apply(chain: seq<Block>, e: Event): (r: seq<Block>)
  {
    match e.kind
    case Added => chain + [e.block]
    case Removed => if chain == [] then [] else chain[..|chain| - 1]
  }

  /** The chain a subscriber holds after the events, starting from base. */
  function Replay(base: seq<Block>, es: seq<Event>): (r: seq<Block>)
  {
    if es == [] then base else Apply(Replay(base, es[..|es| - 1]), es[|es| - 1])
  }

  /** One event is right for a chain: a removal names the head; an addition extends it, or
      is one of the blocks where the monitor had to start over. */
  ghost predicate StepOk(chain: seq<Block>, e: Event, roots: set<Block>)
  {
    match e.kind
    case Removed => chain != [] && chain[|chain| - 1] == e.block
    case Added => chain == [] || Follows(chain[|chain| - 1], e.block) || e.block in roots
  }

  /** Every event is right for the chain all earlier ones gave. */
  ghost predicate FeedValid(base: seq<Block>, es: seq<Event>, roots: set<Block>)
  {
    es == [] ||
    (var front := es[..|es| - 1];
     FeedValid(base, front, roots) && StepOk(Replay(base, front), es[|es| - 1], roots))
  }

  lemma ReplaySnoc(base: seq<Block>, es: seq<Event>, e: Event)
    ensures Replay(base, es + [e]) == Apply(Replay(base, es), e)
  {
    assert (es + [e])[..|es|] == es;
  }

  lemma FeedSnoc(base: seq<Block>, es: seq<Event>, e: Event, roots: set<Block>)
    ensures FeedValid(base, es + [e], roots) <==> FeedValid(base, es, roots) && StepOk(Replay(base, es), e, roots)
  {
    assert (es + [e])[..|es|] == es;
  }

  lemma {:induction false} ReplayConcat(base: seq<Block>, a: seq<Event>, b: seq<Event>)
    ensures Replay(base, a + b) == Replay(Replay(base, a), b)
    decreases |b|
  {
    if b == [] {
      assert a + b == a;
    } else {
      var front, e := b[..|b| - 1], b[|b| - 1];
      assert b == front + [e] && a + b == (a + front) + [e];
      ReplayConcat(base, a, front);
      ReplaySnoc(base, a + front, e);
    }
  }

  lemma {:induction false} FeedConcat(base: seq<Block>, a: seq<Event>, b: seq<Event>, roots: set<Block>)
    ensures FeedValid(base, a + b, roots) <==> FeedValid(base, a, roots) && FeedValid(Replay(base, a), b, roots)
    decreases |b|
  {
    if b == [] {
      assert a + b == a;
    } else {
      var front, e := b[..|b| - 1], b[|b| - 1];
      assert b == front + [e] && a + b == (a + front) + [e];
      FeedConcat(base, a, front, roots);
      ReplayConcat(base, a, front);
      FeedSnoc(base, a + front, e, roots);
    }
  }

  /** A valid feed is valid at every point of it. */
  lemma {:induction false} FeedPrefix(base: seq<Block>, es: seq<Event>, n: nat, roots: set<Block>)
    requires n <= |es| && FeedValid(base, es, roots)
    ensures FeedValid(base, es[..n], roots)
    ensures n < |es| ==> StepOk(Replay(base, es[..n]), es[n], roots)
  {
    assert es == es[..n] + es[n..];
    FeedConcat(base, es[..n], es[n..], roots);
    if n < |es| {
      FeedNext(base, es, n, roots);
    }
  }

  lemma {:induction false} FeedNext(base: seq<Block>, es: seq<Event>, n: nat, roots: set<Block>)
    requires n < |es| && FeedValid(base, es, roots)
    ensures StepOk(Replay(base, es[..n]), es[n], roots)
  {
    assert es == es[..n + 1] + es[n + 1..];
    FeedConcat(base, es[..n + 1], es[n + 1..], roots);
    assert es[..n + 1] == es[..n] + [es[n]];
    FeedSnoc(base, es[..n], es[n], roots);
  }

  lemma {:induction false} FeedRoots(base: seq<Block>, es: seq<Event>, roots: set<Block>, more: set<Block>)
    requires FeedValid(base, es, roots) && roots <= more
    ensures FeedValid(base, es, more)
    decreases |es|
  {
    if es != [] {
      FeedRoots(base, es[..|es| - 1], roots, more);
    }
  }

  // ---- numbers -------------------------------------------------------------------------

  /** The blocks count up from first. */
  ghost predicate Consecutive(chain: seq<Block>, first: int)
  {
    forall i :: 0 <= i < |chain| ==> chain[i].number == first + i
  }

  /** An addition has the number next to the chain that starts at first, also when it is empty. */
  ghost predicate NumberOk(chain: seq<Block>, e: Event, first: int)
  {
    e.kind == Added ==> e.block.number == first + |chain|
  }

  /** Every addition has the next number. */
  ghost predicate FeedNumbered(base: seq<Block>, es: seq<Event>, first: int)
  {
    es == [] ||
    (var front := es[..|es| - 1];
     FeedNumbered(base, front, first) && NumberOk(Replay(base, front), es[|es| - 1], first))
  }

  lemma NumberedSnoc(base: seq<Block>, es: seq<Event>, e: Event, first: int)
    ensures FeedNumbered(base, es + [e], first) <==> FeedNumbered(base, es, first) && NumberOk(Replay(base, es), e, first)
  {
    assert (es + [e])[..|es|] == es;
  }

  lemma {:induction false} NumberedConcat(base: seq<Block>, a: seq<Event>, b: seq<Event>, first: int)
    ensures FeedNumbered(base, a + b, first) <==> FeedNumbered(base, a, first) && FeedNumbered(Replay(base, a), b, first)
    decreases |b|
  {
    if b == [] {
      assert a + b == a;
    } else {
      var front, e := b[..|b| - 1], b[|b| - 1];
      assert b == front + [e] && a + b == (a + front) + [e];
      NumberedConcat(base, a, front, first);
      ReplayConcat(base, a, front);
      NumberedSnoc(base, a + front, e, first);
    }
  }

  /** The chain of a numbered feed counts up. */
  lemma {:induction false} NumberedReplay(base: seq<Block>, es: seq<Event>, first: int)
    requires Consecutive(base, first) && FeedNumbered(base, es, first)
    ensures Consecutive(Replay(base, es), first)
    decreases |es|
  {
    if es != [] {
      NumberedReplay(base, es[..|es| - 1], first);
    }
  }

  lemma {:induction false} RemovalsNumbered(chain: seq<Block>, bs: seq<Block>, first: int)
    ensures FeedNumbered(chain, Removals(bs), first)
    decreases |bs|
  {
    if bs != [] {
      var e, rest := Event(Removed, bs[|bs| - 1]), Removals(bs[..|bs| - 1]);
      NumberedSnoc(chain, [], e, first);
      assert [] + [e] == [e];
      RemovalsNumbered(Replay(chain, [e]), bs[..|bs| - 1], first);
      NumberedConcat(chain, [e], rest, first);
    }
  }

  /** Additions that count up from the chain are numbered, and only they. */
  lemma {:induction false} AdditionsNumbered(chain: seq<Block>, bs: seq<Block>, first: int)
    ensures FeedNumbered(chain, Additions(bs), first) <==> Consecutive(bs, first + |chain|)
    ensures Replay(chain, Additions(bs)) == chain + bs
    decreases |bs|
  {
    if bs == [] {
      assert chain + bs == chain;
    } else {
      var low, b := bs[..|bs| - 1], bs[|bs| - 1];
      AdditionsNumbered(chain, low, first);
      NumberedSnoc(chain, Additions(low), Event(Added, b), first);
      ReplaySnoc(chain, Additions(low), Event(Added, b));
      assert bs == low + [b] && chain + bs == (chain + low) + [b];
      assert Consecutive(bs, first + |chain|) <==> Consecutive(low, first + |chain|) && b.number == first + |chain| + |low|;
    }
  }

  // ---- the events of one rebuild -----------------------------------------------------------

  /** Removal of the given blocks, newest first. */
  function Removals(bs: seq<Block>): (es: seq<Event>)
    ensures |es| == |bs|
  {
    if bs == [] then [] else [Event(Removed, bs[|bs| - 1])] + Removals(bs[..|bs| - 1])
  }

  /** Addition of the given blocks, oldest first. */
  function Additions(bs: seq<Block>): (es: seq<Event>)
    ensures |es| == |bs|
  {
    if bs == [] then [] else Additions(bs[..|bs| - 1]) + [Event(Added, bs[|bs| - 1])]
  }

  lemma AdditionsSnoc(bs: seq<Block>, b: Block)
    ensures Additions(bs + [b]) == Additions(bs) + [Event(Added, b)]
  {
    assert (bs + [b])[..|bs|] == bs;
  }

  /** Removing the top of the chain, newest first, leaves the rest. */
  lemma {:induction false} RemovalsReplay(chain: seq<Block>, top: seq<Block>, roots: set<Block>)
    ensures Replay(chain + top, Removals(top)) == chain
    ensures FeedValid(chain + top, Removals(top), roots)
    decreases |top|
  {
    if top == [] {
      assert chain + top == chain;
    } else {
      var low, b := top[..|top| - 1], top[|top| - 1];
      var first := [Event(Removed, b)];
      assert chain + top == (chain + low) + [b];
      assert first[..0] == [] && Replay(chain + top, []) == chain + top;
      assert (chain + top)[..|chain + top| - 1] == chain + low;
      assert Replay(chain + top, first) == chain + low;
      RemovalsReplay(chain, low, roots);
      ReplayConcat(chain + top, first, Removals(low));
      FeedConcat(chain + top, first, Removals(low), roots);
    }
  }

  /** Adding linked blocks puts them on top of the chain. */
  lemma {:induction false} AdditionsReplay(chain: seq<Block>, bs: seq<Block>, roots: set<Block>)
    requires Linked(bs)
    requires bs != [] && chain != [] ==> Follows(chain[|chain| - 1], bs[0]) || bs[0] in roots
    ensures Replay(chain, Additions(bs)) == chain + bs
    ensures FeedValid(chain, Additions(bs), roots)
    decreases |bs|
  {
    if bs == [] {
      assert chain + bs == chain;
    } else {
      var low, b := bs[..|bs| - 1], bs[|bs| - 1];
      LowLinked(bs);
      AdditionsReplay(chain, low, roots);
      LastStepOk(chain, bs, roots);
      OneMoreAdded(chain, Additions(low), chain + low, b, roots);
      assert chain + bs == (chain + low) + [b];
    }
  }

  lemma LowLinked(bs: seq<Block>)
    requires Linked(bs) && bs != []
    ensures Linked(bs[..|bs| - 1])
  {
    var low := bs[..|bs| - 1];
    assert forall i :: 0 <= i < |low| ==> low[i] == bs[i];
  }

  lemma OneMoreAdded(base: seq<Block>, es: seq<Event>, chain: seq<Block>, b: Block, roots: set<Block>)
    requires Replay(base, es) == chain && FeedValid(base, es, roots) && StepOk(chain, Event(Added, b), roots)
    ensures Replay(base, es + [Event(Added, b)]) == chain + [b] && FeedValid(base, es + [Event(Added, b)], roots)
  {
    ReplaySnoc(base, es, Event(Added, b));
    FeedSnoc(base, es, Event(Added, b), roots);
  }

  lemma LastStepOk(chain: seq<Block>, bs: seq<Block>, roots: set<Block>)
    requires Linked(bs) && bs != []
    requires chain != [] ==> Follows(chain[|chain| - 1], bs[0]) || bs[0] in roots
    ensures StepOk(chain + bs[..|bs| - 1], Event(Added, bs[|bs| - 1]), roots)
  {
    if |bs| > 1 {
      assert Follows(bs[|bs| - 2], bs[|bs| - 1]);
    } else {
      assert chain + bs[..0] == chain;
    }
  }

  /** One rebuild, seen from outside: the blocks above a cut go and linked blocks come. The
      retained chain may be any suffix of the replayed one. */
  lemma RebuildReplay(all: seq<Block>, chain: seq<Block>, kept: nat, added: seq<Block>, roots: set<Block>)
    requires IsSuffix(chain, all) && kept <= |chain| && Linked(added)
    requires added != [] && kept > 0 ==> Follows(chain[kept - 1], added[0])
    requires added != [] && kept == 0 && |all| > |chain| ==> added[0] in roots
    ensures FeedValid(all, Removals(chain[kept..]) + Additions(added), roots)
    ensures IsSuffix(chain[..kept] + added, Replay(all, Removals(chain[kept..]) + Additions(added)))
    ensures Replay(all, Removals(chain[kept..]) + Additions(added)) == all[..|all| - (|chain| - kept)] + added
  {
    var top := chain[kept..];
    var low := all[..|all| - |top|];
    CutSuffix(all, chain, kept);
    RemovalsReplay(low, top, roots);
    AdditionsReplay(low, added, roots);
    ReplayConcat(all, Removals(top), Additions(added));
    FeedConcat(all, Removals(top), Additions(added), roots);
    SuffixConcat(chain[..kept], low, added);
  }

  lemma CutSuffix(all: seq<Block>, chain: seq<Block>, kept: nat)
    requires IsSuffix(chain, all) && kept <= |chain|
    ensures var low := all[..|all| - (|chain| - kept)];
            && all == low + chain[kept..]
            && IsSuffix(chain[..kept], low)
            && (kept > 0 ==> low != [] && low[|low| - 1] == chain[kept - 1])
  {
    var low := all[..|all| - (|chain| - kept)];
    var base := |all| - |chain|;
    assert forall i :: 0 <= i < |chain| ==> chain[i] == all[base + i];
  }

  lemma SuffixConcat<T>(s: seq<T>, r: seq<T>, more: seq<T>)
    requires IsSuffix(s, r)
    ensures IsSuffix(s + more, r + more)
  {
    assert (r + more)[|r| - |s|..] == r[|r| - |s|..] + more;
  }

  lemma RetainSuffix<T>(s: seq<T>, limit: nat, r: seq<T>)
    requires IsSuffix(s, r)
    ensures IsSuffix(Retain(s, limit), r)
  {
  }
}
