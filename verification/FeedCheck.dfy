/** What the chain-watch tool checks of a published feed (cmd/chain-watch/summary.go:217-303). */
module ChainWatch {
  import opened BlockEvents
  import opened ChainMonitor
  import opened MonitorRuns

  /** The number of the newest block after the first i events, going by their kinds alone. */
  ghost function Height(feed: seq<Event>, i: nat): (h: int)
    requires 0 < |feed| && i <= |feed|
  {
    if i == 0 then feed[0].block.number - 1
    else if feed[i - 1].kind == Added then Height(feed, i - 1) + 1
    else Height(feed, i - 1) - 1
  }

  /** Event i adds the next number, or removes the newest one that the feed itself has added. */
  ghost predicate Fits(feed: seq<Event>, i: nat)
    requires i < |feed|
  {
    if feed[i].kind == Added then feed[i].block.number == Height(feed, i) + 1
    else feed[0].block.number <= feed[i].block.number == Height(feed, i)
  }

  /** The numbers of the feed walk up and down one by one, never below the first. */
  ghost predicate Walks(feed: seq<Event>, n: nat)
    requires n <= |feed|
  {
    forall i :: 0 <= i < n ==> Fits(feed, i)
  }

  /** The greatest number in the first i events. */
  ghost function Highest(feed: seq<Event>, i: nat): (h: nat)
    requires 0 < i <= |feed|
  {
    var n := feed[i - 1].block.number;
    if i == 1 || n > Highest(feed, i - 1) then n else Highest(feed, i - 1)
  }

  /** Where the walk stands after i events. */
  ghost predicate Seen(feed: seq<Event>, i: nat, added: set<nat>, latest: int, lowest: nat, highest: nat)
    requires 0 < i <= |feed|
  {
    && lowest == feed[0].block.number && latest == Height(feed, i) && highest == Highest(feed, i)
    && lowest - 1 <= latest <= highest && lowest <= highest && |added| == latest - lowest + 1
    && forall n: nat :: n in added <==> lowest <= n <= latest
  }

  /** feedCheck, all of it. It accepts a feed exactly if its numbers walk up and down one by one
      from the first and end at the highest number they reached. */
  method FeedCheck(feed: seq<Event>) returns (ok: bool)
    ensures ok <==> feed != [] && Walks(feed, |feed|) && Height(feed, |feed|) == Highest(feed, |feed|)
  {
    var added: set<nat>, isFirst, latest: int, lowest: nat, highest: nat := {}, true, 0, 0, 0;
    for i := 0 to |feed|
      invariant (isFirst <==> i == 0) && (isFirst ==> added == {} && lowest == highest == 0)
      invariant Walks(feed, i) && (i > 0 ==> Seen(feed, i, added, latest, lowest, highest))
    {
      var n := feed[i].block.number;
      if isFirst {
        latest, lowest, highest, isFirst := n, n, n, false;
      } else {
        if n < lowest {
          assert !Fits(feed, i);
          return false;
        } else if n > highest {
          highest := n;
        }
        if feed[i].kind == Added {
          if n != latest + 1 {
            assert !Fits(feed, i);
            return false;
          }
          latest := n;
        } else {
          if n != latest {
            assert !Fits(feed, i);
            return false;
          }
          latest := n - 1;
        }
      }
      if feed[i].kind == Added {
        if n in added {
          return false;
        }
        added := added + {n};
      } else {
        if n !in added {
          assert !Fits(feed, i);
          return false;
        }
        added := added - {n};
      }
    }
    for k := lowest to highest + 1
      invariant forall n: nat :: lowest <= n < k ==> n in added
    {
      if k !in added {
        return false;
      }
    }
    assert highest in added;
    if |added| != highest - lowest + 1 {
      return false;
    }
    return true;
  }

  /** A feed whose removals name the newest block passes the event checks exactly if every addition
      has the next number, counted from the first. */
  lemma {:induction false} WalksExactly(feed: seq<Event>, n: nat, roots: set<Block>)
    requires feed != [] && FeedValid([], feed, roots) && n <= |feed|
    ensures Walks(feed, n) <==> FeedNumbered([], feed[..n], feed[0].block.number)
    ensures Height(feed, n) == feed[0].block.number - 1 + |Replay([], feed[..n])|
  {
    if n > 0 {
      var first, front, e := feed[0].block.number, feed[..n - 1], feed[n - 1];
      WalksExactly(feed, n - 1, roots);
      NextEvent(feed, n - 1, roots);
      NumberedSnoc([], front, e, first);
      WalksStep(feed, n - 1);
      if FeedNumbered([], front, first) {
        NumberedReplay([], front, first);
        FitsExactly(feed, n - 1, Replay([], front), roots);
      }
    }
  }

  lemma {:induction false} WalksStep(feed: seq<Event>, i: nat)
    requires i < |feed|
    ensures Walks(feed, i + 1) <==> Walks(feed, i) && Fits(feed, i)
  {
  }

  /** On a chain that counts up from first, an event fits exactly if an addition has the next number. */
  lemma {:induction false} FitsExactly(feed: seq<Event>, i: nat, chain: seq<Block>, roots: set<Block>)
    requires i < |feed| && StepOk(chain, feed[i], roots) && Consecutive(chain, feed[0].block.number)
    requires Height(feed, i) == feed[0].block.number - 1 + |chain|
    ensures Fits(feed, i) <==> NumberOk(chain, feed[i], feed[0].block.number)
  {
  }

  lemma {:induction false} NextEvent(feed: seq<Event>, i: nat, roots: set<Block>)
    requires FeedValid([], feed, roots) && i < |feed|
    ensures feed[..i + 1] == feed[..i] + [feed[i]] && StepOk(Replay([], feed[..i]), feed[i], roots)
    ensures Replay([], feed[..i + 1]) == Apply(Replay([], feed[..i]), feed[i])
  {
    FeedPrefix([], feed, i, roots);
    assert feed[..i + 1] == feed[..i] + [feed[i]];
    ReplaySnoc([], feed[..i], feed[i]);
  }

  /** If the chain has run empty before event i, the feed goes on with the number it began with. */
  ghost predicate Resumes(feed: seq<Event>, i: nat)
    requires i < |feed|
  {
    Replay([], feed[..i]) == [] ==> feed[i].block.number == feed[0].block.number
  }

  /** A valid feed that never starts over passes the event checks exactly if, whenever its chain has
      run empty, it goes on with the number it began with. */
  lemma {:induction false} ValidFeedWalks(feed: seq<Event>, n: nat)
    requires feed != [] && FeedValid([], feed, {}) && n <= |feed|
    ensures Walks(feed, n) <==> forall i :: 0 < i < n ==> Resumes(feed, i)
  {
    WalksExactly(feed, n, {});
    EmptyOnly(feed, n);
  }

  /** On a chain that is not empty a valid addition has the next number anyway. */
  lemma {:induction false} EmptyOnly(feed: seq<Event>, n: nat)
    requires feed != [] && FeedValid([], feed, {}) && n <= |feed|
    ensures FeedNumbered([], feed[..n], feed[0].block.number) <==> forall i :: 0 < i < n ==> Resumes(feed, i)
  {
    if n > 0 {
      EmptyOnly(feed, n - 1);
      OneMore(feed, n - 1);
      assert n > 1 ==>
          ((forall i :: 0 < i < n ==> Resumes(feed, i)) <==> (forall i :: 0 < i < n - 1 ==> Resumes(feed, i)) && Resumes(feed, n - 1));
    }
  }

  lemma {:induction false} OneMore(feed: seq<Event>, i: nat)
    requires FeedValid([], feed, {}) && i < |feed|
    ensures var first := feed[0].block.number;
            FeedNumbered([], feed[..i + 1], first) <==> FeedNumbered([], feed[..i], first) && Resumes(feed, i)
  {
    var first, front, e := feed[0].block.number, feed[..i], feed[i];
    NextEvent(feed, i, {});
    NumberedSnoc([], front, e, first);
    if FeedNumbered([], front, first) {
      NumberedReplay([], front, first);
      NextNumber(Replay([], front), e, first);
    }
  }

  lemma {:induction false} NextNumber(chain: seq<Block>, e: Event, first: int)
    requires Consecutive(chain, first) && StepOk(chain, e, {})
    ensures NumberOk(chain, e, first) <==> (chain == [] ==> e.block.number == first)
  {
  }

  /** So the published feed passes the event checks at every point of every run of the monitor in
      which no publish was dropped and no turn restarted on an emptied chain. */
  lemma {:induction false} PublishedFeedWalks(vs: seq<View>, ms: seq<Move>, i: nat, first: int)
    requires Run(vs, ms) && Initial(vs[0]) && vs[0].base == [] && StartsAt(vs, ms, first)
    requires i < |vs| && !vs[i].dropped && NoRestart(vs, ms, i) && Flat(vs[i].published) != []
    ensures Walks(Flat(vs[i].published), |Flat(vs[i].published)|)
  {
    var feed := Flat(vs[i].published);
    RunNumbers(vs, ms, i, first);
    SubscriberView(vs, ms, i, |feed|);
    PublishedNumbers(vs, ms, i, |feed|, first);
    assert feed[..|feed|] == feed;
    FirstNumber(feed, vs[i].roots, first);
    WalksExactly(feed, |feed|, vs[i].roots);
  }

  lemma {:induction false} FirstNumber(feed: seq<Event>, roots: set<Block>, first: int)
    requires feed != [] && FeedValid([], feed, roots) && FeedNumbered([], feed, first)
    ensures feed[0].block.number == first
  {
    NextEvent(feed, 0, roots);
    PrefixNumbered([], feed[..1], feed, first);
    NumberedSnoc([], feed[..0], feed[0], first);
  }

  /** Without that condition it need not: the feed of the run that loses block 5 is valid and does
      not pass. */
  lemma {:induction false} GapIsNoticed() returns (vs: seq<View>, ms: seq<Move>, feed: seq<Event>)
    ensures Run(vs, ms) && |ms| == 3 && Initial(vs[0]) && vs[0].base == [] && !vs[3].dropped
    ensures feed == Flat(vs[3].published) && |feed| == 3 && FeedValid([], feed, {}) && !Walks(feed, 3)
  {
    vs, ms, feed := GapRun();
    NotResumed(feed);
  }

  lemma {:induction false} NotResumed(feed: seq<Event>)
    requires |feed| == 3 && feed[0].kind == feed[2].kind == Added && feed[1] == Event(Removed, feed[0].block)
    requires feed[2].block.number != feed[0].block.number
    ensures FeedValid([], feed, {}) && !Walks(feed, 3)
  {
    var e1, e2, e3 := feed[0], feed[1], feed[2];
    var f1 := GrowFeed([], [], e1, [e1.block]);
    var f2 := GrowFeed(f1, [e1.block], e2, []);
    var f3 := GrowFeed(f2, [], e3, [e3.block]);
    assert feed[..2] == f2 && feed == f3;
    assert !Resumes(feed, 2);
    ValidFeedWalks(feed, 3);
  }

  /** The check of the whole range is stricter than the feed deserves. Every valid feed that has just
      added a block on top of two others can go on with the first half of a reorg: two blocks go
      and another one comes. The feed is still valid, passes every event check and ends in an
      addition, but it stands lower than it stood before, and the tool refuses it. */
  lemma {:induction false} ReorgInProgress(feed: seq<Event>, chain: seq<Block>, c: Block) returns (more: seq<Event>)
    requires feed != [] && Gives(feed, chain) && Walks(feed, |feed|)
    requires |chain| >= 3 && feed[|feed| - 1] == Event(Added, chain[|chain| - 1]) && Follows(chain[|chain| - 3], c)
    ensures |more| == |feed| + 3 && feed <= more && more[|more| - 1] == Event(Added, c)
    ensures FeedValid([], more, {}) && Walks(more, |more|) && Height(more, |more|) < Highest(more, |more|)
  {
    var n, first := |chain|, feed[0].block.number;
    var r1, r2, a := Event(Removed, chain[n - 1]), Event(Removed, chain[n - 2]), Event(Added, c);
    WalksExactly(feed, |feed|, {});
    assert feed[..|feed|] == feed;
    NumberedReplay([], feed, first);
    var f1 := GrowNumbered(feed, chain, r1, chain[..n - 1], first);
    var f2 := GrowNumbered(f1, chain[..n - 1], r2, chain[..n - 2], first);
    more := GrowNumbered(f2, chain[..n - 2], a, chain[..n - 2] + [c], first);
    WalksExactly(more, |more|, {});
    assert more[..|more|] == more && more[|feed| - 1] == feed[|feed| - 1];
    HighestAtLeast(more, |more|, |feed| - 1);
  }

  lemma {:induction false} GrowNumbered(es: seq<Event>, chain: seq<Block>, e: Event, next: seq<Block>, first: int)
    returns (es': seq<Event>)
    requires Gives(es, chain) && StepOk(chain, e, {}) && Apply(chain, e) == next
    requires FeedNumbered([], es, first) && NumberOk(chain, e, first)
    ensures es' == es + [e] && Gives(es', next) && FeedNumbered([], es', first)
  {
    es' := GrowFeed(es, chain, e, next);
    NumberedSnoc([], es, e, first);
  }

  lemma {:induction false} HighestAtLeast(feed: seq<Event>, i: nat, j: nat)
    requires j < i <= |feed|
    ensures Highest(feed, i) >= feed[j].block.number
    decreases i
  {
    if j < i - 1 {
      HighestAtLeast(feed, i - 1, j);
    }
  }

  /** The feed is valid and stands for this chain. */
  ghost predicate Gives(es: seq<Event>, chain: seq<Block>)
  {
    FeedValid([], es, {}) && Replay([], es) == chain
  }

  lemma {:induction false} GrowFeed(es: seq<Event>, chain: seq<Block>, e: Event, next: seq<Block>) returns (es': seq<Event>)
    requires Gives(es, chain) && StepOk(chain, e, {}) && Apply(chain, e) == next
    ensures es' == es + [e] && Gives(es', next)
  {
    es' := es + [e];
    FeedSnoc([], es, e, {});
    ReplaySnoc([], es, e);
  }
}
