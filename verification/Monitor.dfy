/** The reorg-aware monitor (ethmonitor/ethmonitor.go): it follows a provider that may fail
    or change its mind, keeps a bounded canonical chain, and publishes add/remove events. */
module ChainMonitor {
  import opened Wrappers
  import opened BlockEvents
  import opened CanonicalChain
  import opened PublishQueue

  const TWO_64: int := 0x1_0000_0000_0000_0000

  /** How a rebuild ended: the chain is rebuilt, a fetch failed and will be retried, or the
      context was cancelled. */
  datatype Outcome = Done | Retry | Cancelled

  /** The node we follow. Every call may fail and may answer from a different fork, but an
      answer is a real block: asked by hash it has that hash, asked by number that number. */
  class Provider {
    const numberOf: Hash -> int
    var failures: nat  // calls of ByHash that failed
    var misses: nat  // calls of ByNumber that failed

    constructor (numberOf: Hash -> int)
      ensures this.numberOf == numberOf && failures == misses == 0
    {
      this.numberOf, failures, misses := numberOf, 0, 0;
    }

    method ByHash(h: Hash) returns (r: Option<Block>)
      modifies this`failures
      ensures r.Some? ==> r.value.hash == h && Honest(numberOf, r.value)
      ensures failures == old(failures) + if r == None then 1 else 0
    {
      var b: Block, ok: bool := *, *;
      r := if ok && b.hash == h && Honest(numberOf, b) then Some(b) else None;
      failures := if r == None then failures + 1 else failures;
    }

    method ByNumber(n: Option<nat>) returns (r: Option<Block>)
      modifies this`misses
      ensures misses == old(misses) + if r == None then 1 else 0
      ensures r.Some? ==> Honest(numberOf, r.value) && (n.Some? ==> r.value.number == n.value)
    {
      var b: Block, ok: bool := *, *;
      r := if ok && Honest(numberOf, b) && (n.Some? ==> b.number == n.value) then Some(b) else None;
      misses := if r == None then misses + 1 else misses;
    }
  }

  // ---- one rebuild ---------------------------------------------------------------------

  /** From chain, the blocks above kept were taken off and added put on, ending in next: added
      hangs together and hangs onto what was kept, and at every height where a block was taken
      off a different one was put on. */
  ghost predicate Rebuilt(chain: seq<Block>, kept: nat, added: seq<Block>, next: Block)
  {
    && kept <= |chain| && |added| == |chain| - kept + 1
    && added[|added| - 1] == next
    && Linked(added)
    && (kept > 0 ==> Follows(chain[kept - 1], added[0]))
    && forall i :: 0 <= i < |chain| - kept ==> chain[kept + i].hash != added[i].hash
  }

  /** The next block sits right on top of the head. */
  ghost predicate NextUp(chain: seq<Block>, next: Block)
  {
    chain != [] ==> next.number == chain[|chain| - 1].number + 1
  }

  /** One level of the recursion: below popped, the rebuild up to next's parent is done. */
  lemma RebuiltSnoc(lower: seq<Block>, popped: Block, kept: nat, below: seq<Block>, parent: Block, next: Block)
    requires Rebuilt(lower, kept, below, parent)
    requires Follows(parent, next) && next.parent != popped.hash
    ensures Rebuilt(lower + [popped], kept, below + [next], next)
  {
    var chain, added := lower + [popped], below + [next];
    forall i | 0 <= i < |chain| - kept ensures chain[kept + i].hash != added[i].hash {
      if i < |lower| - kept {
        assert chain[kept + i] == lower[kept + i] && added[i] == below[i];
      }
    }
  }

  lemma RemovalsTop(lower: seq<Block>, popped: Block, kept: nat)
    requires kept <= |lower|
    ensures Removals((lower + [popped])[kept..]) == [Event(Removed, popped)] + Removals(lower[kept..])
  {
    assert (lower + [popped])[kept..][..|lower| - kept] == lower[kept..];
  }

  /** Stepping down to the parent keeps the numbers aligned. */
  lemma ParentIsUp(numberOf: Hash -> int, lower: seq<Block>, popped: Block, parent: Block, next: Block)
    requires Linked(lower + [popped]) && next.number == popped.number + 1
    requires Honest(numberOf, parent) && Honest(numberOf, next) && parent.hash == next.parent
    ensures NextUp(lower, parent) && Follows(parent, next)
  {
    var chain := lower + [popped];
    if lower != [] {
      assert Follows(chain[|lower| - 1], chain[|lower|]);
    }
  }

  lemma AllHonestFront(numberOf: Hash -> int, lower: seq<Block>, popped: Block)
    requires AllHonest(numberOf, lower + [popped])
    ensures AllHonest(numberOf, lower)
  {
    assert forall i :: 0 <= i < |lower| ==> lower[i] == (lower + [popped])[i];
  }

  /** No block is both taken off and put on. */
  ghost predicate Apart(chain: seq<Block>, kept: nat, added: seq<Block>)
  {
    forall i, j :: kept <= i < |chain| && 0 <= j < |added| ==> chain[i].hash != added[j].hash
  }

  /** The cut is the highest common ancestor: nothing taken off is put on again. */
  lemma NothingReadded(numberOf: Hash -> int, chain: seq<Block>, kept: nat, added: seq<Block>, next: Block)
    requires Linked(chain) && AllHonest(numberOf, chain) && AllHonest(numberOf, added)
    requires Rebuilt(chain, kept, added, next) && NextUp(chain, next)
    ensures Apart(chain, kept, added)
  {
    forall i, j | kept <= i < |chain| && 0 <= j < |added| ensures chain[i].hash != added[j].hash {
      LinkedNumbers(chain, i);
      LinkedNumbers(added, j);
      assert chain[kept + (i - kept)].hash != added[i - kept].hash;
    }
  }

  /** A rebuild of the whole chain puts on a block with the number of the oldest one. */
  lemma NumbersLineUp(chain: seq<Block>, added: seq<Block>, next: Block)
    requires Linked(chain) && chain != [] && Rebuilt(chain, 0, added, next) && NextUp(chain, next)
    ensures added[0].number == chain[0].number
  {
    LinkedNumbers(chain, 0);
    LinkedNumbers(added, 0);
  }

  /** What a rebuild with an honest provider does to the retained chain and to the events it
      was given. A finished rebuild cuts the chain at kept and puts added on top; a failed one
      has only taken blocks off, at least one; in both cases the events say exactly that. */
  ghost predicate BuildPost(numberOf: Hash -> int, before: seq<Block>, limit: nat, pending: seq<Event>, next: Block,
                            out: seq<Event>, outcome: Outcome, kept: nat, added: seq<Block>, after: seq<Block>)
  {
    && kept <= |before| && AllHonest(numberOf, added)
    && match outcome
       case Done =>
         && Rebuilt(before, kept, added, next) && Apart(before, kept, added)
         && out == pending + (Removals(before[kept..]) + Additions(added))
         && after == Retain(before[..kept] + added, limit)
       case Retry =>
         && kept < |before| && added == [] && after == before[..kept]
         && out == pending + Removals(before[kept..])
       case Cancelled => added == [] && after == before[..kept] && out == []
  }

  lemma BuildOnHead(numberOf: Hash -> int, before: seq<Block>, limit: nat, pending: seq<Event>, next: Block)
    requires Honest(numberOf, next) && (before != [] ==> Follows(before[|before| - 1], next))
    ensures BuildPost(numberOf, before, limit, pending, next, pending + [Event(Added, next)], Done, |before|, [next],
                      Retain(before + [next], limit))
  {
    var n := |before|;
    assert before[n..] == [] && before[..n] == before;
    OneAddition(next);
    assert Removals(before[n..]) + Additions([next]) == [Event(Added, next)];
  }

  lemma OneAddition(b: Block)
    ensures Additions([b]) == [Event(Added, b)]
  {
    AdditionsSnoc([], b);
    assert [] + [b] == [b];
  }

  lemma BuildNoParent(numberOf: Hash -> int, lower: seq<Block>, popped: Block, limit: nat, pending: seq<Event>, next: Block)
    ensures BuildPost(numberOf, lower + [popped], limit, pending, next, pending + [Event(Removed, popped)], Retry, |lower|, [], lower)
  {
    RemovalsTop(lower, popped, |lower|);
    assert lower[|lower|..] == [] && (lower + [popped])[..|lower|] == lower;
  }

  /** The rebuild below gave up: so does this one, one block further. */
  lemma BuildGaveUp(numberOf: Hash -> int, lower: seq<Block>, popped: Block, limit: nat, pending: seq<Event>, next: Block, parent: Block,
                    out: seq<Event>, outcome: Outcome, kept: nat, after: seq<Block>)
    requires outcome != Done
    requires BuildPost(numberOf, lower, limit, pending + [Event(Removed, popped)], parent, out, outcome, kept, [], after)
    ensures BuildPost(numberOf, lower + [popped], limit, pending, next, out, outcome, kept, [], after)
  {
    RemovalsTop(lower, popped, kept);
    assert (lower + [popped])[..kept] == lower[..kept];
    assert pending + [Event(Removed, popped)] + Removals(lower[kept..])
        == pending + ([Event(Removed, popped)] + Removals(lower[kept..]));
  }

  /** The rebuild below ended on the parent, and next went on top of it. */
  lemma BuildOnParent(numberOf: Hash -> int, lower: seq<Block>, popped: Block, limit: nat, pending: seq<Event>, next: Block, parent: Block,
                      out: seq<Event>, kept: nat, below: seq<Block>, after: seq<Block>)
    requires limit > 0 && Honest(numberOf, next) && NextUp(lower + [popped], next)
    requires Linked(lower + [popped]) && AllHonest(numberOf, lower + [popped])
    requires BuildPost(numberOf, lower, limit, pending + [Event(Removed, popped)], parent, out, Done, kept, below, after)
    requires Follows(parent, next) && next.parent != popped.hash
    ensures after != [] && after[|after| - 1] == parent
    ensures BuildPost(numberOf, lower + [popped], limit, pending, next, out + [Event(Added, next)], Done, kept, below + [next],
                      Retain(after + [next], limit))
  {
    RebuiltSnoc(lower, popped, kept, below, parent, next);
    NothingReadded(numberOf, lower + [popped], kept, below + [next], next);
    RemovalsTop(lower, popped, kept);
    AdditionsSnoc(below, next);
    RetainLast(lower[..kept] + below, limit);
    RetainSnoc(lower[..kept] + below, next, limit);
    assert (lower + [popped])[..kept] == lower[..kept];
    assert (lower[..kept] + below) + [next] == lower[..kept] + (below + [next]);
    OutAssoc(pending, [Event(Removed, popped)], Removals(lower[kept..]), Additions(below), [Event(Added, next)]);
  }

  lemma OutAssoc<T>(p: seq<T>, a: seq<T>, b: seq<T>, c: seq<T>, d: seq<T>)
    ensures p + a + (b + c) + d == p + ((a + b) + (c + d))
  {
  }

  // ---- what holds in every state -----------------------------------------------------------

  datatype View = MonitorView(
    base: seq<Block>,  // the chain before the first event
    blocks: seq<Block>,  // the retained chain
    history: seq<Event>,  // every event any rebuild produced
    handed: seq<Event>,  // every event handed to publish
    events: seq<Event>,  // events carried over a failed rebuild
    roots: set<Block>,  // blocks added while the retained chain was exhausted
    published: seq<seq<Event>>,
    queued: seq<Event>,
    cancelled: bool,
    failed: bool,  // publish returned an error, which ends the monitor
    dropped: bool,  // some publish found no subscriber
    lost: bool,  // and the queue held an addition then
    resume: Option<nat>)  // the number to ask for when the retained chain is empty

  /** The retained chain is the newest part of what all events so far replay to, pending ones
      included, and those events are a valid feed. */
  ghost predicate Followed(v: View)
  {
    && IsSuffix(v.blocks, Replay(v.base, v.history)) && FeedValid(v.base, v.history, v.roots)
    && v.handed <= v.history && (!v.cancelled ==> v.history == v.handed + v.events)
  }

  /** Published events followed by queued ones are a valid feed that replays to the same
      chain as everything handed to publish. */
  ghost predicate Settled(v: View)
  {
    && RemovedThenAdded(v.queued)
    && FeedValid(v.base, Flat(v.published) + v.queued, v.roots)
    && Replay(v.base, Flat(v.published) + v.queued) == Replay(v.base, v.handed)
  }

  /** The queue can take whatever comes next, unless a publish was dropped while an addition waited. */
  ghost predicate Ready(v: View)
  {
    !v.lost ==> Aligned(Waiting(v.queued), Replay(v.base, v.handed))
  }

  ghost predicate Inv(v: View)
  {
    Followed(v) && (!v.dropped ==> Settled(v)) && Ready(v) && (v.lost ==> v.dropped) && Batched(v.published)
  }

  /** A rebuild that had to start over on an exhausted chain makes its first block a root. */
  ghost function RootsAfter(v: View, kept: nat, added: seq<Block>): (r: set<Block>)
  {
    v.roots + if added != [] && kept == 0 && |Replay(v.base, v.history)| > |v.blocks| then {added[0]} else {}
  }

  /** One turn of the monitor loop: nothing happened, or a rebuild ran, and exactly if it finished its
      events were sent, dropped, or found the queue stuck or full. */
  datatype Move =
    | Idle
    | Turn(kept: nat, added: seq<Block>, limit: nat, outcome: Outcome, publish: Publishing)

  datatype Publishing = NotReached | Dropped | Stuck(left: seq<Event>) | Sent(batch: seq<Event>, left: seq<Event>, full: bool)

  /** A rebuild as buildCanonicalChain does it, while the monitor runs. Only a finished one adds
      blocks: they replace what was taken off, and with it end one number higher. On an empty chain
      it adds the one block it asked for. One that fails has taken a block off. */
  ghost predicate RebuildMove(v: View, kept: nat, added: seq<Block>, outcome: Outcome)
  {
    && !v.cancelled && !v.failed && kept <= |v.blocks|
    && match outcome
       case Done =>
         && added != [] && Rebuilt(v.blocks, kept, added, added[|added| - 1]) && Apart(v.blocks, kept, added)
         && (kept == 0 && v.blocks != [] ==> added[0].number == v.blocks[0].number)
         && (v.blocks == [] && v.resume.Some? ==> added[0].number == v.resume.value)
       case Retry => added == [] && kept < |v.blocks|
       case Cancelled => added == []
  }

  /** The events of a rebuild: removals down to the cut, then additions. */
  ghost function Made(v: View, kept: nat, added: seq<Block>): (es: seq<Event>)
    requires kept <= |v.blocks|
  {
    Removals(v.blocks[kept..]) + Additions(added)
  }

  /** With a head the next block asked for is the one above it; without, the one asked for before. */
  ghost function ResumeAfter(v: View): (r: Option<nat>)
  {
    if v.blocks != [] then Some(v.blocks[|v.blocks| - 1].number + 1) else v.resume
  }

  ghost function AfterRebuild(v: View, kept: nat, added: seq<Block>, limit: nat, cancelled: bool): (w: View)
    requires kept <= |v.blocks|
  {
    v.(blocks := Retain(v.blocks[..kept] + added, limit), history := v.history + Made(v, kept, added),
       events := if cancelled then [] else v.events + Made(v, kept, added),
       roots := RootsAfter(v, kept, added), cancelled := cancelled, resume := ResumeAfter(v))
  }

  ghost predicate PublishMove(v: View, p: Publishing)
  {
    match p
    case NotReached => true
    case Dropped => true
    case Stuck(left) => Settle(v.queued, v.events) == None
    case Sent(batch, left, full) =>
      && Settle(v.queued, v.events) == Some(batch + left)
      && (batch != [] ==> batch[|batch| - 1].kind == Added) && (full ==> batch == [])
  }

  ghost function AfterPublish(v: View, p: Publishing): (w: View)
  {
    match p
    case NotReached => v
    case Dropped =>
      v.(handed := v.handed + v.events, events := [], dropped := true, lost := v.lost || Waiting(v.queued) != [])
    case Stuck(left) => v.(handed := v.handed + v.events, events := [], queued := left, failed := true)
    case Sent(batch, left, full) =>
      v.(handed := v.handed + v.events, events := [], queued := left, failed := full,
         published := if batch == [] then v.published else v.published + [batch])
  }

  /** The transition relation of the monitor. */
  ghost predicate Took(v: View, m: Move, w: View)
  {
    match m
    case Idle => w == v
    case Turn(kept, added, limit, outcome, p) =>
      && RebuildMove(v, kept, added, outcome) && limit >= 10
      && (p == NotReached <==> outcome != Done)
      && var mid := AfterRebuild(v, kept, added, limit, outcome == Cancelled);
         PublishMove(mid, p) && w == AfterPublish(mid, p)
  }

  /** Any rebuild, finished, failed or cancelled, keeps the invariant. */
  lemma RebuildKeeps(v: View, kept: nat, added: seq<Block>, limit: nat, outcome: Outcome)
    requires Inv(v) && RebuildMove(v, kept, added, outcome)
    ensures Inv(AfterRebuild(v, kept, added, limit, outcome == Cancelled))
  {
    var w := AfterRebuild(v, kept, added, limit, outcome == Cancelled);
    RebuildFollowed(v, kept, added, limit, outcome);
    if !v.dropped {
      FeedRoots(v.base, Flat(v.published) + v.queued, v.roots, w.roots);
    }
  }

  lemma RebuildFollowed(v: View, kept: nat, added: seq<Block>, limit: nat, outcome: Outcome)
    requires Followed(v) && RebuildMove(v, kept, added, outcome)
    ensures Followed(AfterRebuild(v, kept, added, limit, outcome == Cancelled))
  {
    var made := Made(v, kept, added);
    HistoryGrows(v.base, v.history, v.blocks, kept, added, limit, v.roots, RootsAfter(v, kept, added));
    Longer(v.handed, v.events, v.history, made);
  }

  lemma Longer<T>(handed: seq<T>, events: seq<T>, history: seq<T>, made: seq<T>)
    requires handed <= history && history == handed + events
    ensures handed <= history + made && history + made == handed + (events + made)
  {
  }

  lemma HistoryGrows(base: seq<Block>, history: seq<Event>, blocks: seq<Block>, kept: nat, added: seq<Block>, limit: nat,
                     roots: set<Block>, more: set<Block>)
    requires IsSuffix(blocks, Replay(base, history)) && FeedValid(base, history, roots) && roots <= more
    requires kept <= |blocks| && Linked(added)
    requires added != [] && kept > 0 ==> Follows(blocks[kept - 1], added[0])
    requires added != [] && kept == 0 && |Replay(base, history)| > |blocks| ==> added[0] in more
    ensures var made := Removals(blocks[kept..]) + Additions(added);
            && IsSuffix(Retain(blocks[..kept] + added, limit), Replay(base, history + made))
            && FeedValid(base, history + made, more)
  {
    var all, made := Replay(base, history), Removals(blocks[kept..]) + Additions(added);
    RebuildReplay(all, blocks, kept, added, more);
    RetainSuffix(blocks[..kept] + added, limit, Replay(all, made));
    ReplayConcat(base, history, made);
    FeedRoots(base, history, roots, more);
    FeedConcat(base, history, made, more);
  }

  /** So does publishing, whether it sends, drops, or gets stuck after an earlier drop. */
  lemma PublishKeeps(v: View, p: Publishing)
    requires Inv(v) && !v.cancelled && PublishMove(v, p)
    ensures Inv(AfterPublish(v, p))
  {
    if p != NotReached {
      PublishFollowed(v, p);
    }
    if p.Sent? {
      SentKeeps(v, p);
    } else if p.Stuck? {
      StuckMeansLost(v);
    }
  }

  lemma SentKeeps(v: View, p: Publishing)
    requires Inv(v) && !v.cancelled && PublishMove(v, p) && p.Sent?
    ensures var w := AfterPublish(v, p); (!w.dropped ==> Settled(w)) && Ready(w) && Batched(w.published)
  {
    BatchedSnoc(v.published, p.batch);
    if !v.dropped {
      SentSettled(v, p.batch, p.left, p.full);
    }
    if !v.lost {
      SentReady(v, p.batch, p.left);
    }
  }

  lemma PublishFollowed(v: View, p: Publishing)
    requires Followed(v) && !v.cancelled && p != NotReached
    ensures Followed(AfterPublish(v, p))
  {
    assert v.history == (v.handed + v.events) + [];
  }

  lemma SentSettled(v: View, batch: seq<Event>, left: seq<Event>, full: bool)
    requires Followed(v) && Settled(v) && !v.cancelled && Settle(v.queued, v.events) == Some(batch + left)
    ensures Settled(AfterPublish(v, Sent(batch, left, full)))
  {
    FlatSnoc(v.published, batch);
    assert batch == [] ==> Flat(v.published) + batch == Flat(v.published);
    FeedConcat(v.base, v.handed, v.events, v.roots);
    QueueSplits(v.base, v.roots, v.handed, v.events, Flat(v.published), v.queued, batch, left);
  }

  /** Moving the front of the queue to the published side changes nothing in sum. */
  lemma QueueSplits(base: seq<Block>, roots: set<Block>, handed: seq<Event>, es: seq<Event>, pub: seq<Event>, q: seq<Event>,
                    batch: seq<Event>, left: seq<Event>)
    requires RemovedThenAdded(q) && FeedValid(base, pub + q, roots) && Replay(base, pub + q) == Replay(base, handed)
    requires FeedValid(Replay(base, handed), es, roots) && Settle(q, es) == Some(batch + left)
    ensures RemovedThenAdded(left) && FeedValid(base, (pub + batch) + left, roots)
    ensures Replay(base, (pub + batch) + left) == Replay(base, handed + es)
  {
    SettleKeepsReplay(base, pub, q, es, roots);
    ReplayConcat(base, handed, es);
    RestAdded(batch + left, batch, left);
    assert pub + (batch + left) == (pub + batch) + left;
  }

  lemma SentReady(v: View, batch: seq<Event>, left: seq<Event>)
    requires Followed(v) && Ready(v) && !v.lost && !v.cancelled && Settle(v.queued, v.events) == Some(batch + left)
    ensures Aligned(Waiting(left), Replay(v.base, v.handed + v.events))
  {
    FeedConcat(v.base, v.handed, v.events, v.roots);
    ReplayConcat(v.base, v.handed, v.events);
    SettleAligned(v.queued, Replay(v.base, v.handed), v.events, v.roots);
    WaitingRest(batch, left, Replay(v.base, v.handed + v.events));
  }

  /** The "removing block ... but last block is ..." error needs a publish that was dropped while
      an addition waited in the queue. */
  lemma StuckMeansLost(v: View)
    requires Inv(v) && !v.cancelled && Settle(v.queued, v.events) == None
    ensures v.lost
  {
    if !v.lost {
      FeedConcat(v.base, v.handed, v.events, v.roots);
      SettleAligned(v.queued, Replay(v.base, v.handed), v.events, v.roots);
    }
  }

  lemma MoveKeeps(v: View, m: Move, w: View)
    requires Inv(v) && Took(v, m, w)
    ensures Inv(w)
  {
    if m.Turn? {
      RebuildKeeps(v, m.kept, m.added, m.limit, m.outcome);
      if m.publish != NotReached {
        PublishKeeps(AfterRebuild(v, m.kept, m.added, m.limit, false), m.publish);
      }
    }
  }

  // ---- whole runs ----------------------------------------------------------------------

  ghost predicate Run(vs: seq<View>, ms: seq<Move>)
  {
    && |vs| == |ms| + 1
    && forall i :: 0 <= i < |ms| ==> TookAt(vs, ms, i)
  }

  ghost predicate TookAt(vs: seq<View>, ms: seq<Move>, i: nat)
    requires |vs| == |ms| + 1 && i < |ms|
  {
    Took(vs[i], ms[i], vs[i + 1])
  }

  /** The monitor before its first turn, on a retained chain that may come from a bootstrap. */
  ghost predicate Initial(v: View)
  {
    v == MonitorView(v.blocks, v.blocks, [], [], [], {}, [], [], false, false, false, false, v.resume)
  }

  lemma InitialInv(v: View)
    requires Initial(v)
    ensures Inv(v)
  {
    assert v.published == [] && v.queued == [] && v.history == [] && v.handed == [] && v.events == [];
    assert Flat(v.published) == [] && Flat(v.published) + v.queued == [];
    assert Replay(v.base, []) == v.base && v.blocks[0..] == v.blocks;
    assert v.history == v.handed + v.events;
  }

  /** In every state of every run the invariant holds. */
  lemma {:induction false} RunKeeps(vs: seq<View>, ms: seq<Move>, i: nat)
    requires Run(vs, ms) && Initial(vs[0]) && i < |vs|
    ensures Inv(vs[i])
  {
    if i == 0 {
      InitialInv(vs[i]);
    } else {
      RunKeeps(vs, ms, i - 1);
      assert TookAt(vs, ms, i - 1);
      MoveKeeps(vs[i - 1], ms[i - 1], vs[i]);
    }
  }

  /** What a subscriber sees at any point of any run in which no publish was dropped: a valid
      feed, whose batches end in additions. Followed by what is queued and what is pending, it
      replays to a chain whose newest part is the retained chain. */
  lemma SubscriberView(vs: seq<View>, ms: seq<Move>, i: nat, n: nat)
    requires Run(vs, ms) && Initial(vs[0]) && i < |vs| && !vs[i].dropped
    requires n <= |Flat(vs[i].published)|
    ensures FeedValid(vs[i].base, Flat(vs[i].published)[..n], vs[i].roots)
    ensures Batched(vs[i].published) && RemovedThenAdded(vs[i].queued)
    ensures !vs[i].cancelled ==>
              IsSuffix(vs[i].blocks, Replay(vs[i].base, Flat(vs[i].published) + vs[i].queued + vs[i].events))
  {
    var v := vs[i];
    RunKeeps(vs, ms, i);
    var pub := Flat(v.published);
    FeedConcat(v.base, pub, v.queued, v.roots);
    FeedPrefix(v.base, pub, n, v.roots);
    if !v.cancelled {
      ReplayConcat(v.base, pub + v.queued, v.events);
      ReplayConcat(v.base, v.handed, v.events);
    }
  }

  /** After every turn whose rebuild finished nothing is pending: everything ever made has been handed
      to publish, and unless something was dropped, what is published and queued replays to the
      same chain as all of it, of which the retained chain is the newest part. */
  lemma CaughtUp(vs: seq<View>, ms: seq<Move>, i: nat)
    requires Run(vs, ms) && Initial(vs[0]) && i < |ms| && ms[i].Turn? && ms[i].outcome == Done
    ensures vs[i + 1].events == [] && vs[i + 1].handed == vs[i + 1].history
    ensures var v := vs[i + 1]; var feed := Flat(v.published) + v.queued;
            !v.dropped ==> Replay(v.base, feed) == Replay(v.base, v.history) && IsSuffix(v.blocks, Replay(v.base, feed))
  {
    RunKeeps(vs, ms, i + 1);
    assert TookAt(vs, ms, i);
    var v := vs[i + 1];
    assert v.events == [] && !v.cancelled;
    assert v.history == v.handed + [];
  }

  /** The blocks at which the feed starts over are few: each was the first that some turn added after it
      had taken off all that was retained of a longer chain. */
  lemma {:induction false} RootsAreRestarts(vs: seq<View>, ms: seq<Move>, i: nat, b: Block)
    requires Run(vs, ms) && Initial(vs[0]) && i < |vs| && b in vs[i].roots
    ensures exists j :: 0 <= j < i && RestartsWith(vs[j], ms[j], b)
  {
    assert TookAt(vs, ms, i - 1);
    RootOfMove(vs[i - 1], ms[i - 1], vs[i], b);
    if b in vs[i - 1].roots {
      RootsAreRestarts(vs, ms, i - 1, b);
    }
  }

  lemma RootOfMove(v: View, m: Move, w: View, b: Block)
    requires Took(v, m, w) && b in w.roots
    ensures b in v.roots || RestartsWith(v, m, b)
  {
  }

  ghost predicate RestartsWith(v: View, m: Move, b: Block)
  {
    && m.Turn? && m.kept == 0 && m.added != [] && m.added[0] == b
    && |Replay(v.base, v.history)| > |v.blocks|
  }

  /** The mismatch error of the queue cannot occur unless a publish was dropped while an addition
      waited in the queue. */
  lemma NeverStuck(vs: seq<View>, ms: seq<Move>, i: nat)
    requires Run(vs, ms) && Initial(vs[0]) && i < |ms| && !vs[i].lost
    ensures !(ms[i].Turn? && ms[i].publish.Stuck?)
  {
    if ms[i].Turn? && ms[i].publish.Stuck? {
      var m := ms[i];
      RunKeeps(vs, ms, i);
      assert TookAt(vs, ms, i);
      RebuildKeeps(vs[i], m.kept, m.added, m.limit, Done);
      StuckMeansLost(AfterRebuild(vs[i], m.kept, m.added, m.limit, false));
    }
  }

  lemma RetainLast<T>(s: seq<T>, limit: nat)
    requires s != [] && limit > 0
    ensures Retain(s, limit) != [] && Retain(s, limit)[|Retain(s, limit)| - 1] == s[|s| - 1]
  {
  }

  lemma RetainHonest(numberOf: Hash -> int, chain: seq<Block>, kept: nat, added: seq<Block>, limit: nat)
    requires AllHonest(numberOf, chain) && AllHonest(numberOf, added) && kept <= |chain|
    ensures AllHonest(numberOf, Retain(chain[..kept] + added, limit))
  {
  }

  class Monitor {
    const chain: Chain
    const queue: Queue
    const provider: Provider
    const trail: nat  // TrailNumBlocksBehindHead
    var subscribers: nat
    var nextBlockNumber: Option<nat>
    var events: seq<Event>  // carried over failed rebuilds
    var cancelled: bool
    var failed: Option<QueueError>
    var published: seq<seq<Event>>  // the batches sent on publishCh
    ghost var base: seq<Block>  // the chain before the first event
    ghost var history: seq<Event>  // every event any rebuild produced
    ghost var handed: seq<Event>  // every event handed to publish
    ghost var roots: set<Block>  // blocks added while the retained chain was exhausted
    ghost var dropped: bool  // some publish found no subscriber
    ghost var lost: bool  // and the queue held an addition then
    ghost var resume: Option<nat>  // what nextBlockNumber is when the chain is empty

    /** The monitor's state as a value. */
    ghost function View(): (v: View)
      reads this, chain, queue
    {
      MonitorView(base, chain.blocks, history, handed, events, roots, published, queue.events, cancelled, failed != None, dropped, lost,
        resume)
    }

    ghost predicate Valid()
      reads this, chain
    {
      && chain.Valid() && chain.initialized && AllHonest(provider.numberOf, chain.blocks)
      && (chain.blocks == [] ==> nextBlockNumber == resume)
    }

    constructor (chain: Chain, queue: Queue, provider: Provider, trail: nat, start: Option<nat>)
      requires chain.Valid() && chain.initialized && AllHonest(provider.numberOf, chain.blocks) && queue.events == []
      ensures Valid() && this.chain == chain && this.queue == queue && this.provider == provider && Initial(View())
    {
      this.chain, this.queue, this.provider, this.trail := chain, queue, provider, trail;
      nextBlockNumber := if chain.blocks != [] then Some(chain.blocks[|chain.blocks| - 1].number + 1) else start;
      subscribers, events, cancelled, failed, published := 0, [], false, None, [];
      base, history, handed, roots, dropped, lost := chain.blocks, [], [], {}, false, false;
      resume := if chain.blocks != [] then None else start;
    }

    /** Asks whether the context is done; once done it stays done. */
    method CtxDone() returns (done: bool)
      modifies this`cancelled
      ensures done == cancelled && (old(cancelled) ==> cancelled)
    {
      if !cancelled {
        cancelled := *;
      }
      done := cancelled;
    }

    /** The base case of the rebuild: next goes on top of the chain. */
    method Extend(next: Block, pending: seq<Event>)
      returns (out: seq<Event>, outcome: Outcome, ghost kept: nat, ghost added: seq<Block>)
      requires chain.Valid() && chain.initialized && !cancelled
      requires Honest(provider.numberOf, next) && NextUp(chain.blocks, next)
      requires chain.blocks == [] || next.parent == chain.blocks[|chain.blocks| - 1].hash
      modifies chain`blocks
      ensures chain.Valid() && outcome == Done
      ensures BuildPost(provider.numberOf, old(chain.blocks), chain.retentionLimit, pending, next, out, outcome, kept, added, chain.blocks)
    {
      ghost var before, limit := chain.blocks, chain.retentionLimit;
      BuildOnHead(provider.numberOf, before, limit, pending, next);
      out := pending + [Event(Added, next)];
      var err := chain.Push(next);
      outcome := if err == None then Done else Retry;
      kept, added := |before|, [next];
    }

    /** Rebuilds the canonical chain up to next: pops blocks that are not its ancestors,
        newest first, fetching its ancestors by hash, then pushes those back, oldest first. */
    method BuildCanonicalChain(next: Block, pending: seq<Event>)
      returns (out: seq<Event>, outcome: Outcome, ghost kept: nat, ghost added: seq<Block>)
      requires chain.Valid() && chain.initialized && AllHonest(provider.numberOf, chain.blocks)
      requires Honest(provider.numberOf, next) && NextUp(chain.blocks, next)
      modifies this`cancelled, chain`blocks, provider`failures
      ensures chain.Valid() && (old(cancelled) ==> cancelled) && (outcome == Cancelled <==> cancelled)
      ensures outcome == Retry <==> provider.failures > old(provider.failures)
      ensures BuildPost(provider.numberOf, old(chain.blocks), chain.retentionLimit, pending, next, out, outcome, kept, added, chain.blocks)
      decreases |chain.blocks|, 1
    {
      ghost var before := chain.blocks;
      var done := CtxDone();
      if done {
        assert before[..|before|] == before;
        return [], Cancelled, |before|, [];
      }
      var head := chain.Head();
      if head == None || next.parent == head.value.hash {
        out, outcome, kept, added := Extend(next, pending);
      } else {
        out, outcome, kept, added := Replace(next, pending);
      }
    }

    /** The other case: the head is not next's parent. It goes, the parent is fetched and becomes
        the head, and next goes on top of it. */
    method Replace(next: Block, pending: seq<Event>)
      returns (out: seq<Event>, outcome: Outcome, ghost kept: nat, ghost added: seq<Block>)
      requires chain.Valid() && chain.initialized && !cancelled && AllHonest(provider.numberOf, chain.blocks)
      requires Honest(provider.numberOf, next) && NextUp(chain.blocks, next)
      requires chain.blocks != [] && next.parent != chain.blocks[|chain.blocks| - 1].hash
      modifies this`cancelled, chain`blocks, provider`failures
      ensures chain.Valid() && (outcome == Cancelled <==> cancelled)
      ensures outcome == Retry <==> provider.failures > old(provider.failures)
      ensures BuildPost(provider.numberOf, old(chain.blocks), chain.retentionLimit, pending, next, out, outcome, kept, added, chain.blocks)
      decreases |chain.blocks|, 0
    {
      ghost var limit := chain.retentionLimit;
      var popped := chain.Pop();
      out := pending + [Event(Removed, popped.value)];
      ghost var lower := chain.blocks;
      assert old(chain.blocks) == lower + [popped.value];
      var parent := provider.ByHash(next.parent);
      if parent == None {
        BuildNoParent(provider.numberOf, lower, popped.value, limit, pending, next);
        return out, Retry, |lower|, [];
      }
      ParentIsUp(provider.numberOf, lower, popped.value, parent.value, next);
      out, outcome, kept, added := OnParent(next, parent.value, out, pending, popped.value);
    }

    /** Rebuilds up to the parent; if that succeeds, next goes on top of it. */
    method OnParent(next: Block, parent: Block, given: seq<Event>, ghost pending: seq<Event>, ghost popped: Block)
      returns (out: seq<Event>, outcome: Outcome, ghost kept: nat, ghost added: seq<Block>)
      requires chain.Valid() && chain.initialized && !cancelled
      requires Linked(chain.blocks + [popped]) && AllHonest(provider.numberOf, chain.blocks + [popped])
      requires Honest(provider.numberOf, next) && NextUp(chain.blocks + [popped], next) && next.parent != popped.hash
      requires Honest(provider.numberOf, parent) && NextUp(chain.blocks, parent) && Follows(parent, next)
      requires given == pending + [Event(Removed, popped)]
      modifies this`cancelled, chain`blocks, provider`failures
      ensures chain.Valid() && (outcome == Cancelled <==> cancelled)
      ensures outcome == Retry <==> provider.failures > old(provider.failures)
      ensures BuildPost(provider.numberOf, old(chain.blocks) + [popped], chain.retentionLimit, pending, next, out, outcome, kept, added,
                        chain.blocks)
      decreases |chain.blocks|, 2
    {
      ghost var lower, limit := chain.blocks, chain.retentionLimit;
      AllHonestFront(provider.numberOf, lower, popped);
      out, outcome, kept, added := BuildCanonicalChain(parent, given);
      if outcome != Done {
        BuildGaveUp(provider.numberOf, lower, popped, limit, pending, next, parent, out, outcome, kept, chain.blocks);
        return;
      }
      BuildOnParent(provider.numberOf, lower, popped, limit, pending, next, parent, out, kept, added, chain.blocks);
      var err := chain.Push(next);
      out := if err == None then out + [Event(Added, next)] else out;
      outcome := if err == None then Done else Retry;
      added := added + [next];
    }

    /** Enqueues the events of a rebuild and sends what may be sent. Without a subscriber the
        events are dropped. */
    method Publish(es: seq<Event>, ready: Block -> bool) returns (ghost p: Publishing)
      requires chain.blocks != []
      modifies this`failed, this`published, this`dropped, this`lost, queue`events
      ensures p != NotReached && (p == Dropped <==> subscribers == 0) && dropped == (old(dropped) || p == Dropped)
      ensures lost == (old(lost) || (p == Dropped && Waiting(queue.events) != []))
      ensures p == Dropped ==> queue.events == old(queue.events)
      ensures p.Stuck? <==> subscribers > 0 && Settle(old(queue.events), es) == None
      ensures p.Stuck? ==> p.left == queue.events
      ensures p.Sent? ==>
                && Settle(old(queue.events), es) == Some(p.batch + p.left) && p.left == queue.events
                && (p.batch != [] ==> p.batch[|p.batch| - 1].kind == Added && Trailing(p.batch))
                && (p.full <==> |p.batch + p.left| > queue.cap) && (p.full ==> p.batch == [])
      ensures SendsReady(p, ready)
      ensures published == if p.Sent? && p.batch != [] then old(published) + [p.batch] else old(published)
      ensures failed == if p.Stuck? then Some(Mismatch) else if p.Sent? && p.full then Some(QueueFull) else old(failed)
    {
      if subscribers == 0 {
        dropped, lost := true, lost || Waiting(queue.events) != [];
        return Dropped;
      }
      var head := chain.blocks[|chain.blocks| - 1];
      var maxBlockNum := if trail > 0 then (head.number - trail) % TWO_64 else 0;
      var err := queue.Enqueue(es);
      if err != None {
        failed := err;
        assert err.value == Mismatch || err.value == QueueFull;
        p := if err == Some(Mismatch) then Stuck(queue.events) else Sent([], queue.events, true);
        assert [] + queue.events == queue.events;
        return;
      }
      p := SendReady(maxBlockNum, ready);
    }

    /** Sends what is ready. */
    method SendReady(maxBlockNum: nat, ready: Block -> bool) returns (ghost p: Publishing)
      requires chain.blocks != []
      requires maxBlockNum == if trail > 0 then (chain.blocks[|chain.blocks| - 1].number - trail) % TWO_64 else 0
      modifies this`published, queue`events
      ensures p.Sent? && !p.full && p.batch + p.left == old(queue.events) && p.left == queue.events
      ensures p.batch != [] ==> p.batch[|p.batch| - 1].kind == Added && Trailing(p.batch)
      ensures published == if p.batch != [] then old(published) + [p.batch] else old(published)
      ensures SendsReady(p, ready)
    {
      var pubEvents := TakeReady(maxBlockNum, ready);
      if pubEvents != [] {
        published := published + [pubEvents];
      }
      p := Sent(pubEvents, queue.events, false);
    }

    /** Of what was queued, exactly the entries up to the first that is not ready or too new go out,
        unless the last of them is a removal. */
    ghost predicate SendsReady(p: Publishing, ready: Block -> bool)
      reads chain
    {
      chain.blocks != [] && p.Sent? && !p.full ==>
        var q, head := p.batch + p.left, chain.blocks[|chain.blocks| - 1];
        p.batch == Outgoing(q, ready, if trail > 0 then (head.number - trail) % TWO_64 else 0)
    }

    /** Dequeues whatever is ready by now; the logs of a block arrive at any time. */
    method TakeReady(maxBlockNum: nat, ready: Block -> bool) returns (batch: seq<Event>)
      modifies queue`events
      ensures old(queue.events) == batch + queue.events
      ensures batch == Outgoing(old(queue.events), ready, maxBlockNum)
      ensures batch != [] ==> batch[|batch| - 1].kind == Added
      ensures maxBlockNum > 0 ==> forall i :: 0 <= i < |batch| ==> batch[i].block.number <= maxBlockNum
    {
      PublishableExact(queue.events, ready, maxBlockNum);
      batch := queue.Dequeue(maxBlockNum, ready);
    }

    /** Nothing newer than the trailing distance goes out, unless the head is that close to
        the start of the chain. */
    ghost predicate Trailing(batch: seq<Event>)
      reads chain
    {
      chain.blocks != [] &&
      var head := chain.blocks[|chain.blocks| - 1];
      trail > 0 && trail < head.number < TWO_64 ==>
        forall i :: 0 <= i < |batch| ==> batch[i].block.number <= head.number - trail
    }

    /** One turn of the monitor loop, on news of a head, with that many subscribers, and for every choice
        of the outside world: failing fetches, forks, cancellation. It does nothing exactly if the
        monitor has ended, the head is not new, or the next block cannot be fetched. A rebuild
        that finishes is published, and nothing is carried over. */
    method Step(newHeadNum: nat, present: nat, ready: Block -> bool) returns (ghost move: Move)
      requires Valid()
      modifies this, chain`blocks, queue`events, provider`failures, provider`misses
      ensures Valid() && Took(old(View()), move, View())
      ensures failed == Some(Mismatch) ==> old(failed) == failed || (move.Turn? && move.publish.Stuck?)
      ensures move == Idle <==>
                || old(cancelled) || old(failed) != None || provider.misses > old(provider.misses)
                || (old(nextBlockNumber).Some? && 0 < newHeadNum < old(nextBlockNumber).value)
      ensures move.Turn? && move.outcome == Done ==>
                events == [] && (move.publish == Dropped <==> present == 0) && SendsReady(move.publish, ready)
      ensures move.Turn? && move.outcome != Done ==> published == old(published) && queue.events == old(queue.events)
    {
      move := Idle;
      if cancelled || failed != None {
        return;
      }
      subscribers := present;
      var next := NextBlock(newHeadNum);
      if next == None {
        return;
      }
      move := Turned(next.value, ready);
    }

    /** The block is the one asked for. */
    ghost predicate Asked(next: Block)
      reads this, chain
    {
      && Honest(provider.numberOf, next) && NextUp(chain.blocks, next)
      && nextBlockNumber == (if chain.blocks != [] then Some(chain.blocks[|chain.blocks| - 1].number + 1) else resume)
      && (nextBlockNumber.Some? ==> next.number == nextBlockNumber.value)
    }

    /** A rebuild and, if it finished, the publishing of all carried events. */
    method Turned(next: Block, ready: Block -> bool) returns (ghost move: Move)
      requires Valid() && !cancelled && failed == None && Asked(next)
      modifies this, chain`blocks, queue`events, provider`failures
      ensures Valid() && Took(old(View()), move, View()) && move.Turn?
      ensures failed == Some(Mismatch) ==> move.publish.Stuck?
      ensures move.outcome == Done ==>
                events == [] && (move.publish == Dropped <==> old(subscribers) == 0) && SendsReady(move.publish, ready)
      ensures move.outcome != Done ==> published == old(published) && queue.events == old(queue.events)
    {
      var outcome;
      outcome, move := Rebuild(next);
      if outcome == Done {
        ghost var p := PublishEvents(ready);
        move := move.(publish := p);
      }
    }

    /** Waits for a head that is new and fetches the block after ours. */
    method NextBlock(newHeadNum: nat) returns (next: Option<Block>)
      requires Valid()
      modifies this`nextBlockNumber, provider`misses
      ensures Valid() && (next.Some? ==> Asked(next.value))
      ensures next == None <==>
                || provider.misses > old(provider.misses)
                || (old(nextBlockNumber).Some? && 0 < newHeadNum < old(nextBlockNumber).value)
    {
      if nextBlockNumber.Some? && newHeadNum > 0 && nextBlockNumber.value > newHeadNum {
        return None;
      }
      var head := chain.Head();
      if head.Some? {
        nextBlockNumber := Some(head.value.number + 1);
      }
      next := provider.ByNumber(nextBlockNumber);
    }

    /** Publishes the accumulated events and clears them. */
    method PublishEvents(ready: Block -> bool) returns (ghost p: Publishing)
      requires chain.blocks != [] && failed == None
      modifies this, queue`events
      ensures p != NotReached && (p == Dropped <==> old(subscribers) == 0) && SendsReady(p, ready)
      ensures PublishMove(old(View()), p) && View() == AfterPublish(old(View()), p)
      ensures failed == Some(Mismatch) ==> p.Stuck?
    {
      ghost var v := View();
      p := Publish(events, ready);
      PublishIsMove(v, p, queue.events, published, failed != None, dropped, lost);
      ClearEvents();
    }

    /** Clears the events sink. */
    method ClearEvents()
      modifies this`handed, this`events
      ensures View() == old(View()).(handed := old(handed) + old(events), events := [])
    {
      handed := handed + events;
      events := [];
    }

    /** Runs buildCanonicalChain on the carried events and accounts for what it did. */
    method Rebuild(next: Block) returns (outcome: Outcome, ghost move: Move)
      requires Valid() && !cancelled && failed == None && Asked(next)
      modifies this`events, this`cancelled, this`history, this`roots, this`resume, chain`blocks, provider`failures
      ensures Valid() && move.Turn? && move.outcome == outcome && move.publish == NotReached && move.limit >= 10
      ensures RebuildMove(old(View()), move.kept, move.added, outcome)
      ensures View() == AfterRebuild(old(View()), move.kept, move.added, move.limit, outcome == Cancelled)
      ensures outcome == Done ==> chain.blocks != [] && chain.blocks[|chain.blocks| - 1] == next
      ensures outcome == Retry <==> provider.failures > old(provider.failures)
    {
      ghost var v := View();
      ghost var kept, added;
      var out;
      out, outcome, kept, added := BuildCanonicalChain(next, events);
      Note(v, next, out, outcome, kept, added);
      move := Turn(kept, added, chain.retentionLimit, outcome, NotReached);
    }

    /** Takes over the events of a rebuild that began at v. */
    method Note(ghost v: View, ghost next: Block, out: seq<Event>, ghost outcome: Outcome, ghost kept: nat, ghost added: seq<Block>)
      requires chain.Valid() && !v.cancelled && !v.failed && Linked(v.blocks) && |v.blocks| <= chain.retentionLimit
      requires AllHonest(provider.numberOf, v.blocks) && NextUp(v.blocks, next)
      requires (v.blocks == [] && v.resume.Some? ==> next.number == v.resume.value) && nextBlockNumber == ResumeAfter(v)
      requires View() == v.(blocks := chain.blocks, cancelled := outcome == Cancelled)
      requires BuildPost(provider.numberOf, v.blocks, chain.retentionLimit, v.events, next, out, outcome, kept, added, chain.blocks)
      modifies this`events, this`history, this`roots, this`resume
      ensures AllHonest(provider.numberOf, chain.blocks) && RebuildMove(v, kept, added, outcome) && resume == nextBlockNumber
      ensures View() == AfterRebuild(v, kept, added, chain.retentionLimit, outcome == Cancelled)
      ensures outcome == Done ==> chain.blocks != [] && chain.blocks[|chain.blocks| - 1] == next
    {
      BuildIsMove(provider.numberOf, v, chain.retentionLimit, next, out, outcome, kept, added, chain.blocks);
      Account(out, v.history + Made(v, kept, added), RootsAfter(v, kept, added));
    }

    /** Notes what a rebuild did. */
    method Account(out: seq<Event>, ghost history': seq<Event>, ghost roots': set<Block>)
      modifies this`events, this`history, this`roots, this`resume
      ensures View() == old(View()).(history := history', events := out, roots := roots', resume := nextBlockNumber)
      ensures resume == nextBlockNumber
    {
      events, resume := out, nextBlockNumber;
      history, roots := history', roots';
    }
  }

  /** So is what publish promises. */
  lemma PublishIsMove(v: View, p: Publishing, queued: seq<Event>, published: seq<seq<Event>>, failed: bool, dropped: bool, lost: bool)
    requires !v.failed && p != NotReached && dropped == (v.dropped || p == Dropped)
    requires lost == (v.lost || (p == Dropped && Waiting(v.queued) != []))
    requires p == Dropped ==> queued == v.queued
    requires p.Stuck? ==> Settle(v.queued, v.events) == None && p.left == queued
    requires p.Sent? ==>
               && Settle(v.queued, v.events) == Some(p.batch + p.left) && p.left == queued
               && (p.batch != [] ==> p.batch[|p.batch| - 1].kind == Added) && (p.full ==> p.batch == [])
    requires published == if p.Sent? && p.batch != [] then v.published + [p.batch] else v.published
    requires failed <==> p.Stuck? || (p.Sent? && p.full)
    ensures PublishMove(v, p)
    ensures AfterPublish(v, p) == v.(handed := v.handed + v.events, events := [], queued := queued, published := published,
                                     failed := failed, dropped := dropped, lost := lost)
  {
  }

  /** What buildCanonicalChain promises is a move of the transition relation. */
  lemma BuildIsMove(numberOf: Hash -> int, v: View, limit: nat, next: Block, out: seq<Event>, outcome: Outcome, kept: nat,
                    added: seq<Block>, after: seq<Block>)
    requires limit > 0 && |v.blocks| <= limit && !v.cancelled && !v.failed && AllHonest(numberOf, v.blocks)
    requires Linked(v.blocks) && NextUp(v.blocks, next) && (v.blocks == [] && v.resume.Some? ==> next.number == v.resume.value)
    requires BuildPost(numberOf, v.blocks, limit, v.events, next, out, outcome, kept, added, after)
    ensures RebuildMove(v, kept, added, outcome)
    ensures AllHonest(numberOf, after)
    ensures outcome == Done ==> after != [] && after[|after| - 1] == next
    ensures AfterRebuild(v, kept, added, limit, outcome == Cancelled)
         == v.(blocks := after, history := v.history + Made(v, kept, added), events := out,
               roots := RootsAfter(v, kept, added), cancelled := outcome == Cancelled, resume := ResumeAfter(v))
  {
    if outcome == Done {
      RetainLast(v.blocks[..kept] + added, limit);
      if kept == 0 && v.blocks != [] {
        NumbersLineUp(v.blocks, added, next);
      }
    } else {
      assert v.blocks[..kept] + added == v.blocks[..kept];
      assert Removals(v.blocks[kept..]) + Additions(added) == Removals(v.blocks[kept..]);
    }
    RetainHonest(numberOf, v.blocks, kept, added, limit);
  }

  /** The monitor loop, for any number of turns. */
  method RunMonitor(m: Monitor, turns: nat) returns (ghost vs: seq<View>, ghost ms: seq<Move>)
    requires m.Valid() && Initial(m.View())
    modifies m, m.chain`blocks, m.queue`events, m.provider`failures, m.provider`misses
    ensures Run(vs, ms) && vs[0] == old(m.View()) && vs[|vs| - 1] == m.View()
    ensures m.Valid() && Inv(m.View())
  {
    vs, ms := [m.View()], [];
    for i := 0 to turns
      invariant m.Valid() && Run(vs, ms) && vs[0] == old(m.View()) && vs[|vs| - 1] == m.View()
    {
      var newHeadNum: nat, present: nat, ready: Block -> bool := *, *, *;
      ghost var move := m.Step(newHeadNum, present, ready);
      RunSnoc(vs, ms, move, m.View());
      vs, ms := vs + [m.View()], ms + [move];
    }
    RunKeeps(vs, ms, |vs| - 1);
  }

  lemma TookSame(vs: seq<View>, ms: seq<Move>, vs': seq<View>, ms': seq<Move>, i: nat)
    requires |vs| == |ms| + 1 && i < |ms| && TookAt(vs, ms, i) && vs <= vs' && ms <= ms' && |vs'| == |ms'| + 1
    ensures TookAt(vs', ms', i)
  {
    assert vs'[i] == vs[i] && vs'[i + 1] == vs[i + 1] && ms'[i] == ms[i];
  }

  lemma TookLast(vs: seq<View>, ms: seq<Move>, m: Move, w: View)
    requires |vs| == |ms| + 1 && Took(vs[|vs| - 1], m, w)
    ensures TookAt(vs + [w], ms + [m], |ms|)
  {
    assert (vs + [w])[|ms|] == vs[|vs| - 1] && (vs + [w])[|ms| + 1] == w && (ms + [m])[|ms|] == m;
  }

  lemma RunSnoc(vs: seq<View>, ms: seq<Move>, m: Move, w: View)
    requires Run(vs, ms) && Took(vs[|vs| - 1], m, w)
    ensures Run(vs + [w], ms + [m])
  {
    var vs', ms' := vs + [w], ms + [m];
    forall i | 0 <= i < |ms'| ensures TookAt(vs', ms', i) {
      if i < |ms| {
        assert TookAt(vs, ms, i);
        TookSame(vs, ms, vs', ms', i);
      } else {
        TookLast(vs, ms, m, w);
      }
    }
  }

  /** All batches in a row. */
  ghost function Flat(batches: seq<seq<Event>>): (es: seq<Event>)
  {
    if batches == [] then [] else Flat(batches[..|batches| - 1]) + batches[|batches| - 1]
  }

  lemma FlatSnoc(batches: seq<seq<Event>>, batch: seq<Event>)
    ensures Flat(batches + [batch]) == Flat(batches) + batch
  {
    assert (batches + [batch])[..|batches|] == batches;
  }

  ghost predicate EndsAdded(batch: seq<Event>)
  {
    batch != [] && batch[|batch| - 1].kind == Added
  }

  /** Every batch ends in an addition. */
  ghost predicate Batched(batches: seq<seq<Event>>)
  {
    forall i :: 0 <= i < |batches| ==> EndsAdded(batches[i])
  }

  lemma BatchedSnoc(batches: seq<seq<Event>>, batch: seq<Event>)
    requires Batched(batches) && (batch != [] ==> batch[|batch| - 1].kind == Added)
    ensures Batched(if batch == [] then batches else batches + [batch])
  {
  }

  lemma RestAdded(q: seq<Event>, batch: seq<Event>, rest: seq<Event>)
    requires RemovedThenAdded(q) && q == batch + rest
    ensures RemovedThenAdded(rest)
  {
    assert forall i :: 0 <= i < |rest| ==> rest[i] == q[|batch| + i];
  }
}
