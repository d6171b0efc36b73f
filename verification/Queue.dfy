/** The publish queue (ethmonitor/pubsub.go): additions that were not published yet are
    withdrawn instead of being published and then removed. */
module PublishQueue {
  import opened Wrappers
  import opened BlockEvents

  datatype QueueError = Mismatch | QueueFull

  /** What one event does to the queue, or None when it removes something else than the
      newest queued addition. */
  function Cancel(q: seq<Event>, e: Event): (r: Option<seq<Event>>)
  {
    if e.kind == Added || q == [] || q[|q| - 1].kind == Removed then Some(q + [e])
    else if e.block.hash == q[|q| - 1].block.hash then Some(q[..|q| - 1])
    else None
  }

  function Settle(q: seq<Event>, es: seq<Event>): (r: Option<seq<Event>>)
  {
    if es == [] then Some(q)
    else
      var front := Settle(q, es[..|es| - 1]);
      if front == None then None else Cancel(front.value, es[|es| - 1])
  }

  /** Removals first, then additions. */
  ghost predicate RemovedThenAdded(q: seq<Event>)
  {
    forall i, j :: 0 <= i < j < |q| && q[i].kind == Added ==> q[j].kind == Added
  }

  /** The central fact about the queue. As long as the incoming events are right for what was
      published and queued so far, cancelling never gets stuck, keeps removals in front of
      additions, and loses nothing: published events followed by queued ones still replay to
      the chain that all events ever enqueued replay to, and still form a valid feed. */
  lemma {:induction false} SettleKeepsReplay(base: seq<Block>, pub: seq<Event>, q: seq<Event>, es: seq<Event>, roots: set<Block>)
    requires RemovedThenAdded(q) && FeedValid(base, pub + q, roots)
    requires FeedValid(Replay(base, pub + q), es, roots)
    ensures Settle(q, es).Some?
    ensures var q' := Settle(q, es).value;
            && RemovedThenAdded(q')
            && FeedValid(base, pub + q', roots)
            && Replay(base, pub + q') == Replay(Replay(base, pub + q), es)
    decreases |es|
  {
    if es != [] {
      var front, e := es[..|es| - 1], es[|es| - 1];
      SettleKeepsReplay(base, pub, q, front, roots);
      CancelKeepsReplay(base, pub, Settle(q, front).value, e, roots);
    }
  }

  lemma CancelKeepsReplay(base: seq<Block>, pub: seq<Event>, q: seq<Event>, e: Event, roots: set<Block>)
    requires RemovedThenAdded(q) && FeedValid(base, pub + q, roots)
    requires StepOk(Replay(base, pub + q), e, roots)
    ensures Cancel(q, e).Some?
    ensures var q' := Cancel(q, e).value;
            && RemovedThenAdded(q')
            && FeedValid(base, pub + q', roots)
            && Replay(base, pub + q') == Apply(Replay(base, pub + q), e)
  {
    if e.kind == Added || q == [] || q[|q| - 1].kind == Removed {
      assert pub + (q + [e]) == (pub + q) + [e];
      ReplaySnoc(base, pub + q, e);
      FeedSnoc(base, pub + q, e, roots);
    } else {
      var front, last := q[..|q| - 1], q[|q| - 1];
      assert pub + q == (pub + front) + [last];
      ReplaySnoc(base, pub + front, last);
      FeedSnoc(base, pub + front, last, roots);
      UndoAdded(Replay(base, pub + front), last, e, roots);
    }
  }

  /** A removal right after an addition names the block just added and undoes it. */
  lemma UndoAdded(chain: seq<Block>, last: Event, e: Event, roots: set<Block>)
    requires last.kind == Added && e.kind == Removed && StepOk(Apply(chain, last), e, roots)
    ensures e.block == last.block && Apply(Apply(chain, last), e) == chain
  {
  }

  /** So does numbering: what is published and queued is numbered if all events are. */
  lemma {:induction false} SettleKeepsNumbers(base: seq<Block>, pub: seq<Event>, q: seq<Event>, es: seq<Event>, roots: set<Block>,
                                              first: int)
    requires RemovedThenAdded(q) && FeedValid(base, pub + q, roots) && FeedNumbered(base, pub + q, first)
    requires FeedValid(Replay(base, pub + q), es, roots) && FeedNumbered(Replay(base, pub + q), es, first)
    ensures Settle(q, es).Some? && FeedNumbered(base, pub + Settle(q, es).value, first)
    decreases |es|
  {
    SettleKeepsReplay(base, pub, q, es, roots);
    if es != [] {
      var front, e := es[..|es| - 1], es[|es| - 1];
      SettleKeepsReplay(base, pub, q, front, roots);
      SettleKeepsNumbers(base, pub, q, front, roots, first);
      CancelKeepsNumbers(base, pub, Settle(q, front).value, e, first);
    }
  }

  lemma CancelKeepsNumbers(base: seq<Block>, pub: seq<Event>, q: seq<Event>, e: Event, first: int)
    requires FeedNumbered(base, pub + q, first) && NumberOk(Replay(base, pub + q), e, first) && Cancel(q, e).Some?
    ensures FeedNumbered(base, pub + Cancel(q, e).value, first)
  {
    if e.kind == Added || q == [] || q[|q| - 1].kind == Removed {
      assert pub + (q + [e]) == (pub + q) + [e];
      NumberedSnoc(base, pub + q, e, first);
    } else {
      var front, last := q[..|q| - 1], q[|q| - 1];
      assert pub + q == (pub + front) + [last];
      NumberedSnoc(base, pub + front, last, first);
    }
  }

  // ---- exactly when cancelling can get stuck -------------------------------------------------

  /** The blocks of the additions at the end of the queue. */
  ghost function Waiting(q: seq<Event>): (bs: seq<Block>)
  {
    if q == [] || q[|q| - 1].kind == Removed then [] else Waiting(q[..|q| - 1]) + [q[|q| - 1].block]
  }

  /** From the top down, as far as both go, the hashes are the same. */
  ghost predicate Aligned(bs: seq<Block>, chain: seq<Block>)
  {
    bs == [] || chain == [] ||
    (bs[|bs| - 1].hash == chain[|chain| - 1].hash && Aligned(bs[..|bs| - 1], chain[..|chain| - 1]))
  }

  /** These are the blocks of the additions at the end of the queue, back to the last removal. */
  lemma {:induction false} WaitingIs(q: seq<Event>)
    ensures |Waiting(q)| <= |q|
    ensures var n := |q| - |Waiting(q)|;
            && (n > 0 ==> q[n - 1].kind == Removed)
            && forall i :: n <= i < |q| ==> q[i].kind == Added && Waiting(q)[i - n] == q[i].block
    decreases |q|
  {
    if q != [] && q[|q| - 1].kind == Added {
      WaitingIs(q[..|q| - 1]);
    }
  }

  lemma WaitingSnoc(q: seq<Event>, e: Event)
    ensures Waiting(q + [e]) == if e.kind == Added then Waiting(q) + [e.block] else []
  {
    assert (q + [e])[..|q|] == q;
  }

  lemma AlignedSnoc(bs: seq<Block>, b: Block, chain: seq<Block>, c: Block)
    ensures Aligned(bs + [b], chain + [c]) <==> b.hash == c.hash && Aligned(bs, chain)
  {
    assert (bs + [b])[..|bs|] == bs && (chain + [c])[..|chain|] == chain;
  }

  lemma Snoc<T>(s: seq<T>)
    requires s != []
    ensures s == s[..|s| - 1] + [s[|s| - 1]]
  {
  }

  /** An event that is right for the chain is not refused by an aligned queue, and keeps it aligned. */
  lemma CancelAligned(q: seq<Event>, chain: seq<Block>, e: Event, roots: set<Block>)
    requires StepOk(chain, e, roots) && Aligned(Waiting(q), chain)
    ensures Cancel(q, e).Some? && Aligned(Waiting(Cancel(q, e).value), Apply(chain, e))
  {
    WaitingSnoc(q, e);
    if e.kind == Added {
      AlignedSnoc(Waiting(q), e.block, chain, e.block);
    } else if q != [] && q[|q| - 1].kind == Added {
      CancelTop(q, chain, e);
    }
  }

  /** The removal of the chain's top takes the newest addition out of an aligned queue. */
  lemma {:induction false} CancelTop(q: seq<Event>, chain: seq<Block>, e: Event)
    requires q != [] && q[|q| - 1].kind == Added && chain != [] && e == Event(Removed, chain[|chain| - 1])
    ensures Aligned(Waiting(q), chain) <==>
              e.block.hash == q[|q| - 1].block.hash && Aligned(Waiting(q[..|q| - 1]), chain[..|chain| - 1])
  {
    var low, last := q[..|q| - 1], q[|q| - 1];
    Snoc(q);
    Snoc(chain);
    WaitingSnoc(low, last);
    AlignedSnoc(Waiting(low), last.block, chain[..|chain| - 1], e.block);
  }

  lemma {:induction false} SettleAligned(q: seq<Event>, chain: seq<Block>, es: seq<Event>, roots: set<Block>)
    requires FeedValid(chain, es, roots) && Aligned(Waiting(q), chain)
    ensures Settle(q, es).Some? && Aligned(Waiting(Settle(q, es).value), Replay(chain, es))
    decreases |es|
  {
    if es != [] {
      var front, e := es[..|es| - 1], es[|es| - 1];
      SettleAligned(q, chain, front, roots);
      CancelAligned(Settle(q, front).value, Replay(chain, front), e, roots);
    }
  }

  lemma {:induction false} SettleConcat(q: seq<Event>, a: seq<Event>, b: seq<Event>)
    requires Settle(q, a).Some?
    ensures Settle(q, a + b) == Settle(Settle(q, a).value, b)
    decreases |b|
  {
    if b == [] {
      assert a + b == a;
    } else {
      var front := b[..|b| - 1];
      assert (a + b)[..|a + b| - 1] == a + front;
      SettleConcat(q, a, front);
    }
  }

  lemma SettleOne(q: seq<Event>, e: Event)
    ensures Settle(q, [e]) == Cancel(q, e)
  {
    assert [e][..0] == [];
    assert Settle(q, []) == Some(q);
  }

  /** If the queue is not aligned with the chain, removing the chain from the top gets stuck. */
  lemma {:induction false} MisalignedSticks(q: seq<Event>, chain: seq<Block>) returns (es: seq<Event>)
    requires !Aligned(Waiting(q), chain)
    ensures FeedValid(chain, es, {}) && Settle(q, es) == None
    decreases |q|
  {
    var top := chain[|chain| - 1];
    var e := Event(Removed, top);
    CancelTop(q, chain, e);
    SettleOne(q, e);
    FeedSnoc(chain, [], e, {});
    ReplaySnoc(chain, [], e);
    assert [] + [e] == [e];
    if q[|q| - 1].block.hash != top.hash {
      es := [e];
    } else {
      var rest := MisalignedSticks(q[..|q| - 1], chain[..|chain| - 1]);
      es := [e] + rest;
      SettleConcat(q, [e], rest);
      FeedConcat(chain, [e], rest, {});
    }
  }

  /** Cancelling copes with whatever valid events come next exactly if the additions waiting in
      the queue agree, from the top down, with the chain. */
  lemma SettleExactly(q: seq<Event>, chain: seq<Block>, roots: set<Block>)
    ensures (forall es :: FeedValid(chain, es, roots) ==> Settle(q, es).Some?) <==> Aligned(Waiting(q), chain)
  {
    if Aligned(Waiting(q), chain) {
      forall es | FeedValid(chain, es, roots) ensures Settle(q, es).Some? {
        SettleAligned(q, chain, es, roots);
      }
    } else {
      var es := MisalignedSticks(q, chain);
      FeedRoots(chain, es, {}, roots);
    }
  }

  /** Publishing the front of the queue leaves fewer additions waiting. */
  lemma {:induction false} WaitingRest(batch: seq<Event>, rest: seq<Event>, chain: seq<Block>)
    requires Aligned(Waiting(batch + rest), chain)
    ensures Aligned(Waiting(rest), chain)
    decreases |rest|
  {
    if rest != [] && rest[|rest| - 1].kind == Added && chain != [] {
      var low, last, top := rest[..|rest| - 1], rest[|rest| - 1], chain[|chain| - 1];
      Snoc(rest);
      Snoc(chain);
      assert batch + rest == (batch + low) + [last];
      WaitingSnoc(batch + low, last);
      WaitingSnoc(low, last);
      AlignedSnoc(Waiting(batch + low), last.block, chain[..|chain| - 1], top);
      AlignedSnoc(Waiting(low), last.block, chain[..|chain| - 1], top);
      WaitingRest(batch, low, chain[..|chain| - 1]);
    }
  }

  /** An entry may be published: it is ready, and not above the limit (zero is no limit).
      Removed blocks are always ready. */
  predicate MayPublish(e: Event, ready: Block -> bool, maxBlockNum: nat)
  {
    (e.kind == Removed || ready(e.block)) && (maxBlockNum == 0 || e.block.number <= maxBlockNum)
  }

  class Queue {
    var events: seq<Event>
    const cap: nat

    constructor (cap: nat)
      ensures events == [] && this.cap == cap
    {
      events, this.cap := [], cap;
    }

    /** Enqueues the events, cancelling pairs. */
    method Enqueue(es: seq<Event>) returns (err: Option<QueueError>)
      modifies this`events
      ensures err == Some(Mismatch) <==> Settle(old(events), es) == None
      ensures err != Some(Mismatch) ==> Some(events) == Settle(old(events), es)
      ensures err != Some(Mismatch) ==> (err == Some(QueueFull) <==> |events| > cap)
    {
      for i := 0 to |es|
        invariant Some(events) == Settle(old(events), es[..i])
      {
        var e := es[i];
        assert es[..i + 1][..i] == es[..i];
        ghost var now := Cancel(events, e);
        if e.kind == Added {
          events := events + [e];
        } else if |events| > 0 {
          var tail := events[|events| - 1];
          if tail.kind == Added {
            if e.block.hash == tail.block.hash {
              events := events[..|events| - 1];
            } else {
              StuckForever(old(events), es, i + 1);
              return Some(Mismatch);
            }
          } else {
            events := events + [e];
          }
        } else {
          events := events + [e];
        }
        assert now == Some(events);
      }
      assert es[..|es|] == es;
      if |events| > cap {
        return Some(QueueFull);
      }
      return None;
    }

    /** Takes the longest publishable prefix, provided it ends in an addition. */
    method Dequeue(maxBlockNum: nat, ready: Block -> bool) returns (batch: seq<Event>)
      modifies this`events
      ensures old(events) == batch + events
      ensures batch == Outgoing(old(events), ready, maxBlockNum)
    {
      batch := [];
      if |events| == 0 {
        return;
      }
      var n := CollectReady(events, ready, maxBlockNum);
      if n == 0 || events[n - 1].kind != Added {
        return;
      }
      batch := events[..n];
      events := events[n..];
    }
  }

  /** The loop that collects entries until one may not be published. */
  method CollectReady(q: seq<Event>, ready: Block -> bool, maxBlockNum: nat) returns (n: nat)
    ensures n == Publishable(q, ready, maxBlockNum)
  {
    n := 0;
    assert q[0..] == q;
    while n < |q| && MayPublish(q[n], ready, maxBlockNum)
      invariant n <= |q|
      invariant Publishable(q, ready, maxBlockNum) == n + Publishable(q[n..], ready, maxBlockNum)
    {
      assert q[n..][1..] == q[n + 1..];
      n := n + 1;
    }
  }

  /** How many entries at the front of the queue may be published. */
  ghost function Publishable(q: seq<Event>, ready: Block -> bool, maxBlockNum: nat): (n: nat)
    ensures n <= |q|
  {
    if q == [] || !MayPublish(q[0], ready, maxBlockNum) then 0
    else 1 + Publishable(q[1..], ready, maxBlockNum)
  }

  /** What is taken out of the queue. */
  ghost function Outgoing(q: seq<Event>, ready: Block -> bool, maxBlockNum: nat): (batch: seq<Event>)
  {
    var n := Publishable(q, ready, maxBlockNum);
    if n > 0 && q[n - 1].kind == Added then q[..n] else []
  }

  /** All entries up to the first that is neither removed nor ready, or above the limit, go out, if the
      last of them is an addition; otherwise none does. */
  lemma OutgoingExact(q: seq<Event>, ready: Block -> bool, maxBlockNum: nat, n: nat)
    requires n <= |q|
    requires forall i :: 0 <= i < n ==>
               (q[i].kind == Removed || ready(q[i].block)) && (maxBlockNum == 0 || q[i].block.number <= maxBlockNum)
    requires n < |q| ==> (q[n].kind == Added && !ready(q[n].block)) || (maxBlockNum > 0 && q[n].block.number > maxBlockNum)
    ensures Outgoing(q, ready, maxBlockNum) == if n > 0 && q[n - 1].kind == Added then q[..n] else []
  {
    PublishableExact(q, ready, maxBlockNum);
  }

  /** Everything counted is removed or ready, and within the limit if there is one; the next entry is not. */
  lemma {:induction false} PublishableExact(q: seq<Event>, ready: Block -> bool, maxBlockNum: nat)
    ensures var n := Publishable(q, ready, maxBlockNum);
            && (forall i :: 0 <= i < n ==>
                  && (q[i].kind == Removed || ready(q[i].block)) && (maxBlockNum == 0 || q[i].block.number <= maxBlockNum))
            && (n < |q| ==>
                  || (q[n].kind == Added && !ready(q[n].block)) || (maxBlockNum > 0 && q[n].block.number > maxBlockNum))
    decreases |q|
  {
    if q != [] && MayPublish(q[0], ready, maxBlockNum) {
      PublishableExact(q[1..], ready, maxBlockNum);
      var n := Publishable(q, ready, maxBlockNum);
      forall i | 0 <= i < n ensures MayPublish(q[i], ready, maxBlockNum) {
        if i > 0 { assert q[i] == q[1..][i - 1]; }
      }
    }
  }

  lemma {:induction false} StuckForever(q: seq<Event>, es: seq<Event>, n: nat)
    requires n <= |es| && Settle(q, es[..n]) == None
    ensures Settle(q, es) == None
    decreases |es|
  {
    if n < |es| {
      assert es[..|es| - 1][..n] == es[..n];
      StuckForever(q, es[..|es| - 1], n);
    } else {
      assert es[..n] == es;
    }
  }
}
