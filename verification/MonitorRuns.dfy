/** Whole runs of the monitor: exactly when every published addition has the next number, and
    how the mismatch error of the queue is reached (ethmonitor/ethmonitor.go:478-640, 951-979). */
module MonitorRuns {
  import opened Wrappers
  import opened BlockEvents
  import opened CanonicalChain
  import opened PublishQueue
  import opened ChainMonitor

  // ---- numbers -----------------------------------------------------------------------------

  /** Turn j adds blocks although an earlier one left the retained chain empty. This happens when
      a reorg goes below the retained chain and fetching a parent fails on the way. */
  ghost predicate Restarts(vs: seq<View>, ms: seq<Move>, j: nat)
    requires |vs| == |ms| + 1 && j < |ms|
  {
    ms[j].Turn? && ms[j].added != [] && vs[j].blocks == [] && vs[j].history != []
  }

  /** None of the first n turns does. */
  ghost predicate NoRestart(vs: seq<View>, ms: seq<Move>, n: nat)
    requires |vs| == |ms| + 1 && n <= |ms|
  {
    forall j :: 0 <= j < n ==> !Restarts(vs, ms, j)
  }

  /** The run counts from first: the number of its first block. */
  ghost predicate StartsAt(vs: seq<View>, ms: seq<Move>, first: int)
    requires |vs| == |ms| + 1
  {
    if vs[0].base != [] then vs[0].base[0].number == first
    else forall j :: 0 <= j < |ms| && ms[j].Turn? && ms[j].added != [] && vs[j].history == [] ==> ms[j].added[0].number == first
  }

  /** All events are numbered. If the retained chain is empty, what will be asked for next is not
      the next number any more, but a later one. */
  ghost predicate Numbers(v: View, first: int)
  {
    && Consecutive(v.base, first) && FeedNumbered(v.base, v.history, first)
    && (v.blocks == [] && v.history == [] ==> v.base == [])
    && (v.blocks == [] && v.history != [] ==>
          v.resume.Some? && v.resume.value > first + |Replay(v.base, v.history)|)
  }

  /** What a subscriber has and will get is numbered too, if nothing was dropped. */
  ghost predicate FeedNumbers(v: View, first: int)
  {
    !v.dropped ==> FeedNumbered(v.base, Flat(v.published) + v.queued, first)
  }

  lemma {:induction false} LinkedConsecutive(chain: seq<Block>)
    requires Linked(chain) && chain != []
    ensures Consecutive(chain, chain[0].number)
  {
    forall i | 0 <= i < |chain| ensures chain[i].number == chain[0].number + i {
      LinkedNumbers(chain, i);
      LinkedNumbers(chain, 0);
    }
  }

  /** The part of a numbered chain below the cut, and the number that comes next. */
  lemma CutNumber(all: seq<Block>, blocks: seq<Block>, kept: nat, first: int)
    requires IsSuffix(blocks, all) && kept <= |blocks| && Consecutive(all, first)
    ensures var n := |all| - (|blocks| - kept);
            && (kept < |blocks| ==> blocks[kept].number == first + n)
            && (kept > 0 ==> blocks[kept - 1].number == first + n - 1)
            && (kept < |blocks| ==> blocks[|blocks| - 1].number >= first + n)
  {
    var d := |all| - |blocks|;
    assert forall i :: 0 <= i < |blocks| ==> blocks[i] == all[d + i];
  }

  /** The events of a rebuild are numbered exactly if the first added block has the next number. */
  lemma {:induction false} MadeNumbered(v: View, kept: nat, added: seq<Block>, first: int)
    requires Followed(v) && Consecutive(v.base, first) && FeedNumbered(v.base, v.history, first)
    requires kept <= |v.blocks| && Linked(added)
    ensures var n := |Replay(v.base, v.history)| - (|v.blocks| - kept);
            && FeedNumbered(v.base, v.history + Made(v, kept, added), first) <==> added == [] || added[0].number == first + n
  {
    var all := Replay(v.base, v.history);
    var top, low := v.blocks[kept..], all[..|all| - (|v.blocks| - kept)];
    CutSuffix(all, v.blocks, kept);
    RemovalsReplay(low, top, {});
    RemovalsNumbered(all, top, first);
    AdditionsNumbered(low, added, first);
    NumberedConcat(all, Removals(top), Additions(added), first);
    NumberedConcat(v.base, v.history, Made(v, kept, added), first);
    if added != [] {
      LinkedConsecutive(added);
    }
  }

  /** A turn that does not restart keeps the numbers. */
  lemma {:induction false} RebuildNumbers(v: View, m: Move, first: int)
    requires Inv(v) && Numbers(v, first) && m.Turn? && RebuildMove(v, m.kept, m.added, m.outcome) && m.limit >= 10
    requires m.added != [] && v.blocks == [] ==> v.history == [] && m.added[0].number == first
    ensures Numbers(AfterRebuild(v, m.kept, m.added, m.limit, m.outcome == Cancelled), first)
  {
    var all, w := Replay(v.base, v.history), AfterRebuild(v, m.kept, m.added, m.limit, m.outcome == Cancelled);
    var made := Made(v, m.kept, m.added);
    NumberedReplay(v.base, v.history, first);
    CutNumber(all, v.blocks, m.kept, first);
    MadeNumbered(v, m.kept, m.added, first);
    if m.added == [] {
      assert v.blocks[..m.kept] + m.added == v.blocks[..m.kept];
      ReplayConcat(v.base, v.history, made);
      CutReplay(v, m.kept);
      if v.blocks == [] {
        assert made == [] && v.history + made == v.history;
      }
    }
  }

  lemma CutReplay(v: View, kept: nat)
    requires Followed(v) && kept <= |v.blocks|
    ensures var all := Replay(v.base, v.history);
            Replay(all, Made(v, kept, [])) == all[..|all| - (|v.blocks| - kept)]
  {
    var all := Replay(v.base, v.history);
    CutSuffix(all, v.blocks, kept);
    RemovalsReplay(all[..|all| - (|v.blocks| - kept)], v.blocks[kept..], {});
    assert Made(v, kept, []) == Removals(v.blocks[kept..]);
  }

  /** A turn that restarts leaves a gap, whatever the provider answers. */
  lemma {:induction false} RestartBreaks(v: View, m: Move, first: int)
    requires Inv(v) && Numbers(v, first) && m.Turn? && RebuildMove(v, m.kept, m.added, m.outcome)
    requires m.added != [] && v.blocks == [] && v.history != []
    ensures !FeedNumbered(v.base, v.history + Made(v, m.kept, m.added), first)
  {
    MadeNumbered(v, m.kept, m.added, first);
  }

  /** Publishing keeps the numbers. */
  lemma {:induction false} PublishNumbers(v: View, p: Publishing, first: int)
    requires Inv(v) && !v.cancelled && PublishMove(v, p) && FeedNumbered(v.base, v.history, first) && FeedNumbers(v, first)
    ensures FeedNumbers(AfterPublish(v, p), first)
  {
    if p.Sent? && !v.dropped {
      FlatSnoc(v.published, p.batch);
      assert p.batch == [] ==> Flat(v.published) + p.batch == Flat(v.published);
      FeedConcat(v.base, v.handed, v.events, v.roots);
      NumberedConcat(v.base, v.handed, v.events, first);
      SentNumbers(v.base, v.roots, v.events, Flat(v.published), v.queued, p.batch, p.left, first);
    } else if p.Stuck? {
      StuckMeansLost(v);
    }
  }

  lemma {:induction false} SentNumbers(base: seq<Block>, roots: set<Block>, es: seq<Event>, pub: seq<Event>, q: seq<Event>,
                                       batch: seq<Event>, left: seq<Event>, first: int)
    requires RemovedThenAdded(q) && FeedValid(base, pub + q, roots) && FeedNumbered(base, pub + q, first)
    requires FeedValid(Replay(base, pub + q), es, roots) && FeedNumbered(Replay(base, pub + q), es, first)
    requires Settle(q, es) == Some(batch + left)
    ensures FeedNumbered(base, (pub + batch) + left, first)
  {
    SettleKeepsNumbers(base, pub, q, es, roots, first);
    assert pub + (batch + left) == (pub + batch) + left;
  }

  lemma {:induction false} MoveNumbers(v: View, m: Move, w: View, first: int)
    requires Inv(v) && Took(v, m, w) && Numbers(v, first) && FeedNumbers(v, first)
    requires m.Turn? && m.added != [] && v.blocks == [] ==> v.history == [] && m.added[0].number == first
    ensures Numbers(w, first) && FeedNumbers(w, first)
  {
    if m.Turn? {
      var mid := AfterRebuild(v, m.kept, m.added, m.limit, m.outcome == Cancelled);
      RebuildNumbers(v, m, first);
      RebuildKeeps(v, m.kept, m.added, m.limit, m.outcome);
      assert FeedNumbers(mid, first);
      if m.publish != NotReached {
        PublishMoves(mid, m.publish, w, first);
      }
    }
  }

  lemma {:induction false} PublishMoves(mid: View, p: Publishing, w: View, first: int)
    requires Inv(mid) && !mid.cancelled && PublishMove(mid, p) && w == AfterPublish(mid, p)
    requires Numbers(mid, first) && FeedNumbers(mid, first)
    ensures Numbers(w, first) && FeedNumbers(w, first)
  {
    PublishNumbers(mid, p, first);
    assert w.base == mid.base && w.history == mid.history && w.blocks == mid.blocks && w.resume == mid.resume;
  }

  /** History only grows. */
  lemma {:induction false} HistoryPrefix(v: View, m: Move, w: View)
    requires Took(v, m, w)
    ensures w.base == v.base && v.history <= w.history
    ensures m.Turn? ==> w.history == v.history + Made(v, m.kept, m.added)
  {
  }

  /** Before the first restart everything is numbered; after it the history never is again. */
  ghost predicate OnTrack(v: View, first: int, good: bool)
  {
    if good then Numbers(v, first) && FeedNumbers(v, first) else !FeedNumbered(v.base, v.history, first)
  }

  lemma {:induction false} RunNumbers(vs: seq<View>, ms: seq<Move>, i: nat, first: int)
    requires Run(vs, ms) && Initial(vs[0]) && Linked(vs[0].base) && StartsAt(vs, ms, first) && i < |vs|
    ensures vs[i].base == vs[0].base && OnTrack(vs[i], first, NoRestart(vs, ms, i))
  {
    if i == 0 {
      InitialNumbers(vs[0], first);
    } else {
      RunNumbers(vs, ms, i - 1, first);
      TurnNumbers(vs, ms, i - 1, first);
    }
  }

  lemma {:induction false} TurnNumbers(vs: seq<View>, ms: seq<Move>, j: nat, first: int)
    requires Run(vs, ms) && Initial(vs[0]) && StartsAt(vs, ms, first) && j < |ms|
    requires vs[j].base == vs[0].base && OnTrack(vs[j], first, NoRestart(vs, ms, j))
    ensures vs[j + 1].base == vs[0].base && OnTrack(vs[j + 1], first, NoRestart(vs, ms, j + 1))
  {
    NoRestartStep(vs, ms, j);
    RunKeeps(vs, ms, j);
    assert TookAt(vs, ms, j);
    FirstTurn(vs, ms, j, first);
    StepNumbers(vs[j], ms[j], vs[j + 1], first, NoRestart(vs, ms, j), Restarts(vs, ms, j));
  }

  lemma {:induction false} NoRestartStep(vs: seq<View>, ms: seq<Move>, j: nat)
    requires |vs| == |ms| + 1 && j < |ms|
    ensures NoRestart(vs, ms, j + 1) <==> NoRestart(vs, ms, j) && !Restarts(vs, ms, j)
  {
  }

  /** One turn: good says that no turn restarted so far. */
  lemma {:induction false} StepNumbers(v: View, m: Move, w: View, first: int, good: bool, restarts: bool)
    requires Inv(v) && Took(v, m, w) && OnTrack(v, first, good)
    requires restarts <==> m.Turn? && m.added != [] && v.blocks == [] && v.history != []
    requires good && m.Turn? && m.added != [] && v.blocks == [] ==> v.history != [] || m.added[0].number == first
    ensures w.base == v.base && OnTrack(w, first, good && !restarts)
  {
    HistoryPrefix(v, m, w);
    if !good {
      StaysBroken(v.base, v.history, w.history, first);
    } else if restarts {
      RestartBreaks(v, m, first);
    } else {
      MoveNumbers(v, m, w, first);
    }
  }

  /** The first blocks of a run that starts empty count from first. */
  lemma {:induction false} FirstTurn(vs: seq<View>, ms: seq<Move>, j: nat, first: int)
    requires |vs| == |ms| + 1 && j < |ms| && StartsAt(vs, ms, first)
    requires vs[j].base == vs[0].base && OnTrack(vs[j], first, NoRestart(vs, ms, j))
    ensures NoRestart(vs, ms, j) && ms[j].Turn? && ms[j].added != [] && vs[j].blocks == [] ==>
              vs[j].history != [] || ms[j].added[0].number == first
  {
  }

  lemma {:induction false} StaysBroken(base: seq<Block>, a: seq<Event>, b: seq<Event>, first: int)
    requires a <= b && !FeedNumbered(base, a, first)
    ensures !FeedNumbered(base, b, first)
  {
    if FeedNumbered(base, b, first) {
      PrefixNumbered(base, a, b, first);
    }
  }

  lemma {:induction false} PrefixNumbered(base: seq<Block>, a: seq<Event>, b: seq<Event>, first: int)
    requires a <= b && FeedNumbered(base, b, first)
    ensures FeedNumbered(base, a, first)
  {
    assert b == a + b[|a|..];
    NumberedConcat(base, a, b[|a|..], first);
  }

  lemma {:induction false} InitialNumbers(v: View, first: int)
    requires Initial(v) && Linked(v.base) && (v.base != [] ==> v.base[0].number == first)
    ensures Numbers(v, first) && FeedNumbers(v, first)
  {
    assert v.published == [] && v.queued == [] && Flat(v.published) + v.queued == [];
    if v.base != [] {
      LinkedConsecutive(v.base);
    }
  }

  /** Over any run, every addition the monitor produces has the next number exactly if no turn
      restarts on an emptied chain. */
  lemma {:induction false} NumberedExactly(vs: seq<View>, ms: seq<Move>, first: int)
    requires Run(vs, ms) && Initial(vs[0]) && Linked(vs[0].base) && StartsAt(vs, ms, first)
    ensures FeedNumbered(vs[0].base, vs[|ms|].history, first) <==> NoRestart(vs, ms, |ms|)
  {
    RunNumbers(vs, ms, |ms|, first);
  }

  /** Then a subscriber from whom nothing was kept sees every addition with the next number, and at
      the end of every prefix a chain that counts up. */
  lemma {:induction false} PublishedNumbers(vs: seq<View>, ms: seq<Move>, i: nat, n: nat, first: int)
    requires Run(vs, ms) && Initial(vs[0]) && Linked(vs[0].base) && StartsAt(vs, ms, first)
    requires i < |vs| && !vs[i].dropped && n <= |Flat(vs[i].published)| && NoRestart(vs, ms, i)
    ensures var feed := Flat(vs[i].published)[..n];
            FeedNumbered(vs[i].base, feed, first) && Consecutive(Replay(vs[i].base, feed), first)
  {
    RunNumbers(vs, ms, i, first);
    var v := vs[i];
    var pub := Flat(v.published);
    NumberedConcat(v.base, pub, v.queued, first);
    PrefixNumbered(v.base, pub[..n], pub, first);
    NumberedReplay(v.base, pub[..n], first);
  }

  // ---- a gap -------------------------------------------------------------------------------

  /** The state after a turn. */
  ghost function AfterTurn(v: View, m: Move): (w: View)
    requires m.Turn? && m.kept <= |v.blocks|
  {
    AfterPublish(AfterRebuild(v, m.kept, m.added, m.limit, m.outcome == Cancelled), m.publish)
  }

  /** The monitor was neither cancelled nor ended by an error. */
  ghost predicate Running(v: View)
  {
    !v.cancelled && !v.failed
  }

  /** One block on top of the chain. */
  lemma {:induction false} ExtendMove(v: View, b: Block)
    requires Running(v) && (v.blocks != [] ==> Follows(v.blocks[|v.blocks| - 1], b))
    requires v.blocks == [] && v.resume.Some? ==> b.number == v.resume.value
    ensures RebuildMove(v, |v.blocks|, [b], Done) && Made(v, |v.blocks|, [b]) == [Event(Added, b)]
    ensures v.blocks[..|v.blocks|] + [b] == v.blocks + [b]
  {
    OneAddition(b);
    assert Removals(v.blocks[|v.blocks|..]) + Additions([b]) == [Event(Added, b)];
    assert v.blocks[..|v.blocks|] == v.blocks;
  }

  lemma {:induction false} OneRemoval(b: Block)
    ensures Removals([b]) == [Event(Removed, b)]
  {
    assert [b][..0] == [];
    assert Removals([]) == [];
  }

  /** The end of a run. */
  ghost function Last(vs: seq<View>): (v: View)
    requires vs != []
  {
    vs[|vs| - 1]
  }

  /** A turn that puts one block on top and sends what the queue gives. */
  lemma {:induction false} AddTurn(vs: seq<View>, ms: seq<Move>, b: Block, batch: seq<Event>, left: seq<Event>)
    returns (m: Move, w: View)
    requires Run(vs, ms)
    requires var v := Last(vs);
             && Running(v) && (v.blocks != [] ==> Follows(v.blocks[|v.blocks| - 1], b))
             && (v.blocks == [] && v.resume.Some? ==> b.number == v.resume.value)
             && Settle(v.queued, v.events + [Event(Added, b)]) == Some(batch + left)
             && (batch != [] ==> batch[|batch| - 1].kind == Added)
    ensures Run(vs + [w], ms + [m]) && m == Turn(|Last(vs).blocks|, [b], 10, Done, Sent(batch, left, false))
    ensures w.blocks == Retain(Last(vs).blocks + [b], 10) && w.events == [] && w.queued == left
    ensures Running(w) && w.dropped == Last(vs).dropped
    ensures w.published == if batch == [] then Last(vs).published else Last(vs).published + [batch]
  {
    var v := Last(vs);
    ExtendMove(v, b);
    m := Turn(|v.blocks|, [b], 10, Done, Sent(batch, left, false));
    w := AfterTurn(v, m);
    RunSnoc(vs, ms, m, w);
  }

  /** A turn that takes the only block off and fails. */
  lemma {:induction false} FailTurn(vs: seq<View>, ms: seq<Move>, b: Block) returns (m: Move, w: View)
    requires Run(vs, ms) && Running(Last(vs)) && Last(vs).blocks == [b]
    ensures Run(vs + [w], ms + [m]) && m == Turn(0, [], 10, Retry, NotReached)
    ensures w.blocks == [] && w.history != [] && w.events == Last(vs).events + [Event(Removed, b)] && w.queued == Last(vs).queued
    ensures Running(w) && w.dropped == Last(vs).dropped && w.published == Last(vs).published && w.resume == Some(b.number + 1)
  {
    var v := Last(vs);
    OneRemoval(b);
    assert v.blocks[0..] == [b] && v.blocks[..0] == [];
    assert Made(v, 0, []) == [Event(Removed, b)];
    m := Turn(0, [], 10, Retry, NotReached);
    w := AfterTurn(v, m);
    RunSnoc(vs, ms, m, w);
  }

  /** Every run that has reached one retained block b, with nothing pending or queued, can go on like
      this: the next block does not fit, b goes, and the parent cannot be fetched. The turn after
      that finds no head, asks for the same number again, and publishes it: the subscriber is told
      to drop b and to add the block after it, and gets no other block for the number of b. */
  lemma {:induction false} GapTurns(vs: seq<View>, ms: seq<Move>, b: Block, c: Block) returns (m0: Move, v1: View, m1: Move, v2: View)
    requires Run(vs, ms) && Running(Last(vs)) && Last(vs).blocks == [b] && Last(vs).events == [] && Last(vs).queued == []
    requires c.number == b.number + 1
    ensures Run(vs + [v1] + [v2], ms + [m0] + [m1])
    ensures m1.Turn? && m1.added == [c] && v1.blocks == [] && v1.history != []
    ensures v2.published == Last(vs).published + [[Event(Removed, b), Event(Added, c)]] && v2.dropped == Last(vs).dropped
  {
    var e, f := Event(Removed, b), Event(Added, c);
    m0, v1 := FailTurn(vs, ms, b);
    SettleTwo(e, f);
    assert [] + [e] == [e] && [e] + [f] == [e, f] && [e, f] + [] == [e, f];
    m1, v2 := AddTurn(vs + [v1], ms + [m0], c, [e, f], []);
  }

  /** The monitor before its first turn, without a chain. */
  ghost function Fresh(): (v: View)
    ensures Initial(v)
  {
    MonitorView([], [], [], [], [], {}, [], [], false, false, false, false, None)
  }

  /** Such a run from the start: block 5 is added, removed, and followed by block 6. */
  lemma {:induction false} GapRun() returns (vs: seq<View>, ms: seq<Move>, feed: seq<Event>)
    ensures Run(vs, ms) && |ms| == 3 && Initial(vs[0]) && vs[0].base == [] && !vs[3].dropped && Restarts(vs, ms, 2)
    ensures Flat(vs[3].published) == feed
    ensures |feed| == 3 && feed[0].kind == feed[2].kind == Added && feed[1] == Event(Removed, feed[0].block)
    ensures feed[0].block.number == 5 && feed[2].block.number == 6
  {
    var b5, b6 := Block(5, 4, 5), Block(60, 50, 6);
    var e := Event(Added, b5);
    SettleAdded([], e);
    assert [] + [e] == [e] && [e] + [] == [e] && [] + [b5] == [b5];
    var m0, v1 := AddTurn([Fresh()], [], b5, [e], []);
    var m1, v2, m2, v3 := GapTurns([Fresh()] + [v1], [] + [m0], b5, b6);
    vs, ms := [Fresh()] + [v1] + [v2] + [v3], [] + [m0] + [m1] + [m2];
    FlatTwo([e], [Event(Removed, b5), Event(Added, b6)]);
    feed := [e] + [Event(Removed, b5), Event(Added, b6)];
    assert [] + [[e]] + [[Event(Removed, b5), Event(Added, b6)]] == [[e], [Event(Removed, b5), Event(Added, b6)]];
  }

  lemma {:induction false} FlatTwo(a: seq<Event>, b: seq<Event>)
    ensures Flat([a, b]) == a + b
  {
    FlatSnoc([a], b);
    FlatSnoc([], a);
    assert [] + [a] == [a] && [a] + [b] == [a, b] && [] + a == a;
  }

  lemma {:induction false} SettleAdded(q: seq<Event>, e: Event)
    requires e.kind == Added
    ensures Settle(q, [e]) == Some(q + [e])
  {
    SettleOne(q, e);
  }

  lemma {:induction false} SettleTwo(e: Event, f: Event)
    requires e.kind == Removed && f.kind == Added
    ensures Settle([], [e, f]) == Some([e, f])
  {
    SettleOne([], e);
    SettleConcat([], [e], [f]);
    SettleOne([e], f);
    assert [e] + [f] == [e, f] && [] + [e] == [e];
  }

  // ---- the mismatch error --------------------------------------------------------------------

  /** No event waiting or made so far, and no block of the chain, has this hash or this parent. */
  ghost predicate Unseen(v: View, h: Hash)
  {
    && (forall i :: 0 <= i < |v.base| ==> v.base[i].hash != h && v.base[i].parent != h)
    && (forall i :: 0 <= i < |v.blocks| ==> v.blocks[i].hash != h && v.blocks[i].parent != h)
    && (forall i :: 0 <= i < |v.queued| ==> v.queued[i].block.hash != h && v.queued[i].block.parent != h)
    && (forall i :: 0 <= i < |v.history| ==> v.history[i].block.hash != h && v.history[i].block.parent != h)
  }

  /** A bound on the hashes of some blocks. */
  ghost function Above(bs: seq<Block>): (h: Hash)
    ensures forall i :: 0 <= i < |bs| ==> bs[i].hash < h && bs[i].parent < h
  {
    if bs == [] then 0
    else
      var rest, b := Above(bs[..|bs| - 1]), bs[|bs| - 1];
      if rest > b.hash && rest > b.parent then rest
      else if b.hash > b.parent then b.hash + 1
      else b.parent + 1
  }

  ghost function BlocksOf(es: seq<Event>): (bs: seq<Block>)
    ensures |bs| == |es| && forall i :: 0 <= i < |es| ==> bs[i] == es[i].block
  {
    if es == [] then [] else BlocksOf(es[..|es| - 1]) + [es[|es| - 1].block]
  }

  /** There are always new hashes. */
  lemma NewHash(v: View) returns (h: Hash)
    ensures forall x :: x >= h ==> Unseen(v, x)
  {
    h := Above(v.base) + Above(v.blocks) + Above(BlocksOf(v.queued)) + Above(BlocksOf(v.history));
    forall x | x >= h ensures Unseen(v, x) {
      assert x >= Above(v.base) && x >= Above(v.blocks);
    }
  }

  /** c can go on top of the chain; so can d instead, with e on top of it. All three are new. */
  ghost predicate NewFork(v: View, c: Block, d: Block, e: Block)
  {
    && (v.blocks != [] ==> Follows(v.blocks[|v.blocks| - 1], c))
    && (v.blocks == [] && v.resume.Some? ==> c.number == v.resume.value)
    && d.parent == c.parent && d.number == c.number && Follows(d, e)
    && Unseen(v, c.hash) && Unseen(v, d.hash) && Unseen(v, e.hash)
    && c.hash != d.hash && d.hash != e.hash && e.hash != c.hash
  }

  /** g says what f says about every hash seen so far, and what it says about the new blocks is true
      of them. */
  ghost predicate StaysHonest(v: View, f: Hash -> int, g: Hash -> int, c: Block, d: Block, e: Block)
  {
    (forall x :: !Unseen(v, x) ==> g(x) == f(x)) && Honest(g, c) && Honest(g, d) && Honest(g, e)
  }

  /** A provider that was honest can always come up with a new fork. */
  lemma {:induction false} ForkAhead(v: View, f: Hash -> int) returns (c: Block, d: Block, e: Block, g: Hash -> int)
    requires AllHonest(f, v.blocks)
    ensures NewFork(v, c, d, e) && StaysHonest(v, f, g, c, d, e)
  {
    var h := NewHash(v);
    var n := |v.blocks|;
    var parent := if n > 0 then v.blocks[n - 1].hash else h;
    var number := if n > 0 then v.blocks[n - 1].number + 1 else if v.resume.Some? then v.resume.value else 0;
    c, d, e := Block(h + 1, parent, number), Block(h + 2, parent, number), Block(h + 3, h + 2, number + 1);
    g := (x: Hash) => if x < h then f(x) else if x == h then number - 1 else if x == h + 3 then number + 1 else number;
    assert Unseen(v, h + 1) && Unseen(v, h + 2) && Unseen(v, h + 3);
    assert n > 0 ==> !Unseen(v, parent);
  }

  /** Every run that has reached a state in which an addition waits in the queue can go on like this:
      the next block is dropped for want of a subscriber, the turn after that replaces it, and the
      queue refuses its removal, which ends the monitor. The three blocks are new, and a provider that
      has been honest so far, with f for its numbers, stays so in answering them. */
  lemma {:induction false} DropThenStuck(vs: seq<View>, ms: seq<Move>, f: Hash -> int)
    returns (m0: Move, v1: View, m1: Move, v2: View, g: Hash -> int)
    requires Run(vs, ms) && Running(Last(vs)) && Waiting(Last(vs).queued) != [] && AllHonest(f, Last(vs).blocks)
    ensures Run(vs + [v1] + [v2], ms + [m0] + [m1])
    ensures m0.Turn? && |m0.added| == 1 && m0.publish == Dropped && v1.lost
    ensures m1.Turn? && |m1.added| == 2 && m1.publish.Stuck? && v2.failed
    ensures NewFork(Last(vs), m0.added[0], m1.added[0], m1.added[1])
    ensures StaysHonest(Last(vs), f, g, m0.added[0], m1.added[0], m1.added[1])
  {
    var c, d, e;
    c, d, e, g := ForkAhead(Last(vs), f);
    m0, v1 := DropTurn(vs, ms, c);
    m1, v2 := ForkTurn(vs, ms, m0, v1, c, d, e);
  }

  lemma {:induction false} ForkTurn(vs: seq<View>, ms: seq<Move>, m0: Move, v1: View, c: Block, d: Block, e: Block)
    returns (m: Move, w: View)
    requires vs != [] && NewFork(Last(vs), c, d, e) && Waiting(Last(vs).queued) != [] && Run(vs + [v1], ms + [m0])
    requires v1.blocks == Retain(Last(vs).blocks + [c], 10) && v1.queued == Last(vs).queued && v1.events == [] && Running(v1)
    ensures Run(vs + [v1] + [w], ms + [m0] + [m]) && m.Turn? && m.added == [d, e] && m.publish.Stuck? && w.failed
  {
    RetainTwo(Last(vs).blocks, c);
    m, w := StuckTurn(vs + [v1], ms + [m0], d, e);
  }

  lemma {:induction false} DropTurn(vs: seq<View>, ms: seq<Move>, c: Block) returns (m: Move, w: View)
    requires Run(vs, ms)
    requires var v := Last(vs);
             && Running(v) && (v.blocks != [] ==> Follows(v.blocks[|v.blocks| - 1], c))
             && (v.blocks == [] && v.resume.Some? ==> c.number == v.resume.value)
    ensures Run(vs + [w], ms + [m]) && m.Turn? && m.added == [c] && m.publish == Dropped
    ensures w.blocks == Retain(Last(vs).blocks + [c], 10) && w.queued == Last(vs).queued && w.events == [] && Running(w)
    ensures w.lost <==> Last(vs).lost || Waiting(Last(vs).queued) != []
  {
    var v := Last(vs);
    ExtendMove(v, c);
    m := Turn(|v.blocks|, [c], 10, Done, Dropped);
    w := AfterTurn(v, m);
    RunSnoc(vs, ms, m, w);
  }

  lemma {:induction false} StuckTurn(vs: seq<View>, ms: seq<Move>, c: Block, d: Block) returns (m: Move, w: View)
    requires Run(vs, ms)
    requires var v := Last(vs);
             && Running(v) && v.events == [] && v.blocks != [] && Follows(c, d) && Replaces(v.blocks, c, d)
             && Waiting(v.queued) != [] && v.queued[|v.queued| - 1].block.hash != v.blocks[|v.blocks| - 1].hash
    ensures Run(vs + [w], ms + [m]) && m.Turn? && m.added == [c, d] && m.publish.Stuck? && w.failed
  {
    var v := Last(vs);
    m := Turn(|v.blocks| - 1, [c, d], 10, Done, Stuck(v.queued));
    ReplaceMove(v, c, d);
    ReplaceMade(v, c, d);
    RefusesRemoval(v.queued, v.blocks[|v.blocks| - 1], c, d);
    w := AfterTurn(v, m);
    RunSnoc(vs, ms, m, w);
  }

  lemma {:induction false} RetainTwo(s: seq<Block>, b: Block)
    ensures var r := Retain(s + [b], 10);
            r != [] && r[|r| - 1] == b && (s == [] <==> |r| == 1) && (s != [] ==> r[|r| - 2] == s[|s| - 1])
  {
  }

  /** c can take the place of the newest block, and d go on top of it. */
  ghost predicate Replaces(blocks: seq<Block>, c: Block, d: Block)
    requires blocks != []
  {
    var k := |blocks| - 1;
    && blocks[k].hash != c.hash && blocks[k].hash != d.hash && blocks[k].number == c.number
    && (k > 0 ==> Follows(blocks[k - 1], c))
  }

  lemma {:induction false} ReplaceMove(v: View, c: Block, d: Block)
    requires Running(v) && v.blocks != [] && Follows(c, d) && Replaces(v.blocks, c, d)
    ensures RebuildMove(v, |v.blocks| - 1, [c, d], Done)
  {
  }

  lemma {:induction false} ReplaceMade(v: View, c: Block, d: Block)
    requires v.blocks != []
    ensures Made(v, |v.blocks| - 1, [c, d])
         == [Event(Removed, v.blocks[|v.blocks| - 1])] + [Event(Added, c), Event(Added, d)]
  {
    var k := |v.blocks| - 1;
    assert v.blocks[k..] == [v.blocks[k]];
    OneRemoval(v.blocks[k]);
    OneAddition(c);
    AdditionsSnoc([c], d);
    assert [c] + [d] == [c, d] && [Event(Added, c)] + [Event(Added, d)] == [Event(Added, c), Event(Added, d)];
  }

  lemma {:induction false} RefusesRemoval(q: seq<Event>, c: Block, c': Block, d': Block)
    requires Waiting(q) != [] && q[|q| - 1].block.hash != c.hash
    ensures Settle(q, [] + ([Event(Removed, c)] + [Event(Added, c'), Event(Added, d')])) == None
  {
    var e, rest := Event(Removed, c), [Event(Added, c'), Event(Added, d')];
    SettleOne(q, e);
    assert [] + ([e] + rest) == [e] + rest && ([e] + rest)[..1] == [e];
    StuckForever(q, [e] + rest, 1);
  }

  /** The first turn adds block 1, which is not ready to be sent. */
  lemma {:induction false} FirstWaits() returns (m: Move, w: View)
    ensures Run([Fresh()] + [w], [] + [m]) && Running(w) && Waiting(w.queued) != [] && w.blocks == [Block(1, 0, 1)] && !w.dropped
  {
    var b := Block(1, 0, 1);
    var e := Event(Added, b);
    SettleAdded([], e);
    assert [] + [e] == [e] && [] + [b] == [b];
    m, w := AddTurn([Fresh()], [], b, [], [e]);
    WaitingSnoc([], e);
  }

  /** So the error is reached: block 1 waits in the queue, block 2 is dropped, and its removal
      does not match block 1. */
  lemma {:induction false} MismatchRun() returns (vs: seq<View>, ms: seq<Move>)
    ensures Run(vs, ms) && |ms| == 3 && Initial(vs[0]) && ms[2].Turn? && ms[2].publish.Stuck?
    ensures !vs[1].dropped && vs[2].lost && vs[3].failed
  {
    var m0, v1 := FirstWaits();
    var m1, v2, m2, v3, _ := DropThenStuck([Fresh()] + [v1], [] + [m0], (x: Hash) => x);
    vs, ms := [Fresh()] + [v1] + [v2] + [v3], [] + [m0] + [m1] + [m2];
  }
}
