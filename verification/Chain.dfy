/** The bounded canonical chain (ethmonitor/chain.go, bootstrap.go). */
module CanonicalChain {
  import opened Wrappers
  import opened BlockEvents

  datatype ChainError = UnexpectedParentHash | UnexpectedBlockNumber | NotBootstrapMode | AlreadyBootstrapped

  class Chain {
    var blocks: seq<Block>
    var initialized: bool  // false while blocks is nil, before bootstrapping
    const retentionLimit: nat
    const bootstrapMode: bool

    ghost predicate Valid()
      reads this
    {
      && retentionLimit >= 10
      && Linked(blocks) && |blocks| <= retentionLimit
      && (!initialized ==> blocks == [])
    }

    constructor (limit: nat, bootstrap: bool)
      ensures Valid() && blocks == [] && bootstrapMode == bootstrap && initialized == !bootstrap
      ensures retentionLimit == if limit < 10 then 10 else limit
    {
      retentionLimit := if limit < 10 then 10 else limit;
      bootstrapMode, blocks, initialized := bootstrap, [], !bootstrap;
    }

    function Head(): (b: Option<Block>)
      reads this
      ensures b.Some? <==> blocks != []
      ensures b.Some? ==> b.value == blocks[|blocks| - 1]
    {
      if blocks == [] then None else Some(blocks[|blocks| - 1])
    }

    /** Adds a block on top if it extends the head; the oldest block goes when there are
        too many. A rejected block changes nothing. */
    method Push(next: Block) returns (err: Option<ChainError>)
      requires Valid() && initialized
      modifies this`blocks
      ensures Valid()
      ensures err == None <==> old(blocks) == [] || Follows(old(blocks)[|old(blocks)| - 1], next)
      ensures blocks == if err == None then Retain(old(blocks) + [next], retentionLimit) else old(blocks)
      ensures err == Some(UnexpectedParentHash) <==> old(blocks) != [] && next.parent != old(blocks)[|old(blocks)| - 1].hash
    {
      var n := |blocks|;
      if n > 0 {
        var head := blocks[n - 1];
        if next.parent != head.hash {
          return Some(UnexpectedParentHash);
        }
        if next.number != head.number + 1 {
          return Some(UnexpectedBlockNumber);
        }
      }
      blocks := blocks + [next];
      if |blocks| > retentionLimit {
        blocks := blocks[1..];
      }
      return None;
    }

    /** Takes the newest block off. */
    method Pop() returns (b: Option<Block>)
      requires Valid()
      modifies this`blocks
      ensures Valid()
      ensures old(blocks) == [] ==> b == None && blocks == []
      ensures old(blocks) != [] ==> b == Some(old(blocks)[|old(blocks)| - 1]) && blocks == old(blocks)[..|old(blocks)| - 1]
    {
      if |blocks| == 0 {
        return None;
      }
      var n := |blocks| - 1;
      b := Some(blocks[n]);
      blocks := blocks[..n];
    }

    /** The block k below the head is the one numbered head - k. */
    method LatestFinalBlock(k: nat) returns (b: Option<Block>)
      requires Valid()
      ensures b.Some? <==> k < |blocks|
      ensures b.Some? ==> b.value in blocks && b.value.number == blocks[|blocks| - 1].number - k
    {
      var n := |blocks|;
      if n < k + 1 {
        return None;
      }
      LinkedNumbers(blocks, n - k - 1);
      return Some(blocks[n - k - 1]);
    }

    /** Fills the chain from recorded events, the last ones if there are too many. */
    method BootstrapBlocks(given: seq<Event>) returns (err: Option<ChainError>)
      requires Valid()
      modifies this`blocks, this`initialized
      ensures Valid()
      ensures !bootstrapMode ==> err == Some(NotBootstrapMode) && blocks == old(blocks)
      ensures bootstrapMode && old(initialized) ==> err == Some(AlreadyBootstrapped) && blocks == old(blocks)
      ensures bootstrapMode && !old(initialized) ==> initialized
      ensures bootstrapMode && !old(initialized) && |given| != 1 ==>
                var r := Bootstrapped(Retain(given, retentionLimit + 1), retentionLimit);
                (err == None <==> r.Some?) && (r.Some? ==> blocks == r.value)
      ensures bootstrapMode && !old(initialized) && |given| == 1 ==> err == None && blocks == [given[0].block]
    {
      if !bootstrapMode {
        return Some(NotBootstrapMode);
      }
      if initialized {
        return Some(AlreadyBootstrapped);
      }
      initialized := true;
      err := None;
      if |given| == 0 {
        blocks := [];
        return;
      }
      if |given| == 1 {
        blocks := [given[0].block];
        return;
      }
      blocks := [];
      var es := given;
      if |es| > retentionLimit {
        es := es[|es| - retentionLimit - 1..];
      }
      err := Fill(es);
    }

    /** Pushes additions and pops removals. */
    method Fill(es: seq<Event>) returns (err: Option<ChainError>)
      requires Valid() && initialized && blocks == []
      modifies this`blocks
      ensures Valid()
      ensures err == None <==> Bootstrapped(es, retentionLimit).Some?
      ensures err == None ==> Bootstrapped(es, retentionLimit) == Some(blocks)
    {
      err := None;
      for i := 0 to |es|
        invariant Valid() && err == None
        invariant Some(blocks) == Bootstrapped(es[..i], retentionLimit)
      {
        BootstrapStep(es, i, blocks, retentionLimit);
        if es[i].kind == Added {
          err := Push(es[i].block);
          if err != None {
            BootstrapStuck(es, i + 1, retentionLimit);
            return;
          }
        } else {
          var _ := Pop();
        }
      }
      assert es[..|es|] == es;
    }
  }

  /** What push keeps: all blocks and the new one while there is room, else all but the oldest. */
  lemma PushKeeps(blocks: seq<Block>, next: Block, limit: nat)
    requires |blocks| <= limit && limit > 0
    ensures Retain(blocks + [next], limit) == (if |blocks| < limit then blocks else blocks[1..]) + [next]
  {
  }

  /** What bootstrapping makes of a list of events. */
  function Bootstrapped(es: seq<Event>, limit: nat): (r: Option<seq<Block>>)
  {
    if es == [] then Some([])
    else
      var front, e := Bootstrapped(es[..|es| - 1], limit), es[|es| - 1];
      if front == None then None
      else if e.kind == Removed then Some(Apply(front.value, e))
      else if front.value == [] || Follows(front.value[|front.value| - 1], e.block)
      then Some(Retain(front.value + [e.block], limit))
      else None
  }

  lemma BootstrapStep(es: seq<Event>, i: nat, blocks: seq<Block>, limit: nat)
    requires i < |es| && Bootstrapped(es[..i], limit) == Some(blocks)
    ensures Bootstrapped(es[..i + 1], limit)
         == if es[i].kind == Removed then Some(Apply(blocks, es[i]))
            else if blocks == [] || Follows(blocks[|blocks| - 1], es[i].block)
            then Some(Retain(blocks + [es[i].block], limit)) else None
  {
    assert es[..i + 1] == es[..i] + [es[i]];
    BootstrapSnoc(es[..i], es[i], blocks, limit);
  }

  lemma {:induction false} BootstrapStuck(es: seq<Event>, n: nat, limit: nat)
    requires n <= |es| && Bootstrapped(es[..n], limit) == None
    ensures Bootstrapped(es, limit) == None
    decreases |es|
  {
    if n < |es| {
      assert es[..|es| - 1][..n] == es[..n];
      BootstrapStuck(es[..|es| - 1], n, limit);
    } else {
      assert es[..n] == es;
    }
  }

  /** A linked run of additions bootstraps to itself, cut to the newest blocks, also when
      only the last of the events are looked at. */
  lemma {:induction false} BootstrapKeepsRun(bs: seq<Block>, limit: nat)
    requires Linked(bs) && limit > 0
    ensures Bootstrapped(Retain(Additions(bs), limit + 1), limit) == Some(Retain(bs, limit))
    decreases |bs|, 1
  {
    RunFolds(bs, limit);
    if |bs| > limit + 1 {
      var cut := |bs| - limit - 1;
      AdditionsFrom(bs, cut);
      RunFolds(bs[cut..], limit);
      assert Retain(Additions(bs), limit + 1) == Additions(bs[cut..]);
      assert Retain(bs[cut..], limit) == bs[|bs| - limit..] == Retain(bs, limit);
    } else {
      assert Retain(Additions(bs), limit + 1) == Additions(bs);
    }
  }

  /** From any point of a valid feed on, bootstrapping succeeds, and what it keeps is the newest
      part of the chain the whole feed stands for, removals included. */
  lemma {:induction false} BootstrapSuffix(es: seq<Event>, k: nat, limit: nat)
    requires FeedValid([], es, {}) && k <= |es| && limit > 0
    ensures Bootstrapped(es[k..], limit).Some? && IsSuffix(Bootstrapped(es[k..], limit).value, Replay([], es))
    decreases |es|
  {
    if k < |es| {
      var front, e := es[..|es| - 1], es[|es| - 1];
      BootstrapSuffix(front, k, limit);
      assert es[k..][..|es| - 1 - k] == front[k..];
      KeepsSuffix(Bootstrapped(front[k..], limit).value, Replay([], front), e, limit);
    }
  }

  lemma KeepsSuffix(blocks: seq<Block>, chain: seq<Block>, e: Event, limit: nat)
    requires IsSuffix(blocks, chain) && StepOk(chain, e, {}) && limit > 0
    ensures e.kind == Removed ==> IsSuffix(Apply(blocks, e), Apply(chain, e))
    ensures e.kind == Added ==> (blocks == [] || Follows(blocks[|blocks| - 1], e.block))
                                && IsSuffix(Retain(blocks + [e.block], limit), Apply(chain, e))
  {
    if e.kind == Added {
      SuffixConcat(blocks, chain, [e.block]);
      RetainSuffix(blocks + [e.block], limit, chain + [e.block]);
      SameLast(blocks, chain);
    } else {
      PopSuffix(blocks, chain);
    }
  }

  lemma SameLast<T>(s: seq<T>, r: seq<T>)
    requires IsSuffix(s, r)
    ensures s != [] ==> r != [] && s[|s| - 1] == r[|r| - 1]
  {
  }

  lemma PopSuffix<T>(s: seq<T>, r: seq<T>)
    requires IsSuffix(s, r) && r != []
    ensures IsSuffix(if s == [] then [] else s[..|s| - 1], r[..|r| - 1])
  {
    if s != [] {
      var n := |r| - |s|;
      assert s[..|s| - 1] == r[n..][..|s| - 1];
      assert r[..|r| - 1][n..] == r[n..|r| - 1];
    }
  }

  lemma {:induction false} RunFolds(bs: seq<Block>, limit: nat)
    requires Linked(bs) && limit > 0
    ensures Bootstrapped(Additions(bs), limit) == Some(Retain(bs, limit))
    decreases |bs|, 0
  {
    if bs != [] {
      var front, b := bs[..|bs| - 1], bs[|bs| - 1];
      assert bs == front + [b];
      LowLinked(bs);
      RunFolds(front, limit);
      AdditionsSnoc(front, b);
      BootstrapSnoc(Additions(front), Event(Added, b), Retain(front, limit), limit);
      RetainSnoc(front, b, limit);
      if front != [] {
        assert Follows(bs[|bs| - 2], b);
      }
    }
  }

  lemma BootstrapSnoc(es: seq<Event>, e: Event, blocks: seq<Block>, limit: nat)
    requires Bootstrapped(es, limit) == Some(blocks)
    ensures Bootstrapped(es + [e], limit)
         == if e.kind == Removed then Some(Apply(blocks, e))
            else if blocks == [] || Follows(blocks[|blocks| - 1], e.block)
            then Some(Retain(blocks + [e.block], limit)) else None
  {
    assert (es + [e])[..|es|] == es;
  }

  lemma {:induction false} AdditionsFrom(bs: seq<Block>, i: nat)
    requires i <= |bs|
    ensures Additions(bs)[i..] == Additions(bs[i..])
    decreases |bs|
  {
    if i < |bs| {
      var front := bs[..|bs| - 1];
      AdditionsFrom(front, i);
      assert bs[i..][..|bs| - 1 - i] == front[i..];
    }
  }

  /** Numbers in a linked chain count up by one. */
  lemma {:induction false} LinkedNumbers(chain: seq<Block>, i: nat)
    requires Linked(chain) && i < |chain|
    ensures chain[|chain| - 1].number == chain[i].number + (|chain| - 1 - i)
    decreases |chain| - i
  {
    if i + 1 < |chain| {
      LinkedNumbers(chain, i + 1);
      assert Follows(chain[i], chain[i + 1]);
    }
  }

  lemma RetainSnoc<T>(s: seq<T>, x: T, limit: nat)
    requires limit > 0
    ensures Retain(Retain(s, limit) + [x], limit) == Retain(s + [x], limit)
  {
  }
}
