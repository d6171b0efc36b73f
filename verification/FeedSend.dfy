/** The code of Feed (go-ethereum/event/feed.go:73-222), as steps of the state machine. */
module FeedCode {
  import opened Wrappers
  import opened EventFeed

  /** find: a linear search. */
  method FindCase(cs: seq<Chan>, ch: Chan) returns (i: int)
    ensures i == Find(cs, ch)
  {
    for k := 0 to |cs|
      invariant ch !in cs[..k]
    {
      if cs[k] == ch {
        return k;
      }
    }
    return -1;
  }

  /** deactivate: swaps in place; the prefix one shorter is the new list of waiting cases. */
  function Deactivate(cs: seq<Chan>, active: nat, i: nat): (r: seq<Chan>)
    requires i < active <= |cs|
    ensures |r| == |cs|
  {
    cs[i := cs[active - 1]][active - 1 := cs[i]]
  }

  /** Swapping in the one slice, seen from both sides of the boundary. */
  lemma DeactivateSplit(waiting: seq<Chan>, served: seq<Chan>, i: nat)
    requires i < |waiting|
    ensures Deactivate(waiting + served, |waiting|, i) == SwapOut(waiting, i) + ([waiting[i]] + served)
  {
  }

  /** So is deleting. */
  lemma DeleteSplit(waiting: seq<Chan>, served: seq<Chan>, i: nat)
    requires i < |waiting| + |served|
    ensures i < |waiting| ==> Delete(waiting + served, i) == Delete(waiting, i) + served
    ensures i >= |waiting| ==> Delete(waiting + served, i) == waiting + Delete(served, i - |waiting|)
  {
  }

  // ---- the steps of a send -------------------------------------------------------------------

  /** The feed as the machine sees it, and the channels that have taken a value, in order. */
  datatype Life = Life(state: State, received: seq<Chan>)

  ghost function Do(x: Life, step: Step): (y: Life)
    requires Enabled(x.state, step)
  {
    Life(After(x.state, step), if step.Deliver? then x.received + [x.state.waiting[step.i]] else x.received)
  }

  /** A step that may happen while Send has the send lock. */
  ghost predicate Inside(step: Step)
  {
    step.Subscribe? || step.StartRemove? || step.Deliver? || step.RemoveDuring?
  }

  /** Where a send that began at x is after these steps inside it, if each of them is possible. */
  ghost function During(x: Life, inner: seq<Step>): (r: Option<Life>)
    requires Enabled(x.state, BeginSend)
  {
    if inner == [] then Some(Do(x, BeginSend))
    else
      var n := |inner| - 1;
      var y := During(x, inner[..n]);
      if y.Some? && Inside(inner[n]) && Enabled(y.value.state, inner[n]) then Some(Do(y.value, inner[n])) else None
  }

  lemma {:induction false} DuringSnoc(x: Life, inner: seq<Step>, y: Life, step: Step)
    requires Enabled(x.state, BeginSend) && During(x, inner) == Some(y) && Inside(step) && Enabled(y.state, step)
    ensures During(x, inner + [step]) == Some(Do(y, step))
  {
    assert (inner + [step])[..|inner|] == inner;
  }

  /** The steps lead the machine from x to y, and what was received on the way are their receipts. */
  ghost predicate Leads(x: Life, ss: seq<State>, steps: seq<Step>, y: Life)
  {
    && Run(ss, steps) && ss[0] == x.state && ss[|steps|] == y.state
    && y.received == x.received + Receipts(ss, steps, 0, |steps|)
  }

  /** A send is a part of a run of the machine. */
  lemma {:induction false} DuringIsRun(x: Life, inner: seq<Step>, y: Life) returns (ss: seq<State>)
    requires Enabled(x.state, BeginSend) && During(x, inner) == Some(y)
    ensures Leads(x, ss, [BeginSend] + inner, y)
    decreases |inner|
  {
    ConsSnoc(BeginSend, inner);
    if inner == [] {
      ss := BeginIsRun(x);
    } else {
      var front, step := inner[..|inner| - 1], inner[|inner| - 1];
      var z := DuringFront(x, inner);
      var below := DuringIsRun(x, front, z);
      ss := LeadsOn(x, below, [BeginSend] + front, z, step, [BeginSend] + inner);
    }
  }

  lemma ConsSnoc<T>(x: T, s: seq<T>)
    ensures s == [] ==> [x] + s == [x]
    ensures s != [] ==> [x] + s == ([x] + s[..|s| - 1]) + [s[|s| - 1]]
  {
  }

  lemma {:induction false} AllInside(x: Life, inner: seq<Step>, i: nat)
    requires Enabled(x.state, BeginSend) && During(x, inner).Some? && i < |inner|
    ensures Inside(inner[i])
    decreases |inner|
  {
    if i < |inner| - 1 {
      AllInside(x, inner[..|inner| - 1], i);
    }
  }

  lemma {:induction false} DuringFront(x: Life, inner: seq<Step>) returns (y: Life)
    requires Enabled(x.state, BeginSend) && During(x, inner).Some? && inner != []
    ensures var step := inner[|inner| - 1];
            && During(x, inner[..|inner| - 1]) == Some(y) && Inside(step)
            && Enabled(y.state, step) && During(x, inner) == Some(Do(y, step))
  {
    y := During(x, inner[..|inner| - 1]).value;
  }

  lemma BeginIsRun(x: Life) returns (ss: seq<State>)
    requires Enabled(x.state, BeginSend)
    ensures Leads(x, ss, [BeginSend], Do(x, BeginSend))
  {
    ss := [x.state, Do(x, BeginSend).state];
    assert Receipts(ss, [BeginSend], 0, 1) == [] + [];
  }

  /** The books of a send are the steps made in it. */
  lemma {:induction false} DuringRecords(x: Life, inner: seq<Step>)
    requires Enabled(x.state, BeginSend) && During(x, inner).Some?
    ensures var y := During(x, inner).value;
            && y.state.sending.Some? && y.state.sending.value.snapshot == SendCases(x.state) + x.state.inbox
            && y.received == x.received + y.state.sending.value.delivered
  {
    var ss := DuringIsRun(x, inner, During(x, inner).value);
    forall i | 0 <= i < |inner| ensures Inside(inner[i]) {
      AllInside(x, inner, i);
    }
    SendingRecords(ss, [BeginSend] + inner, 0, |inner| + 1);
  }

  /** Every channel subscribed at x has taken the value, exactly as often as it was subscribed, or
      left before its turn; n counts those that took it. */
  ghost predicate Settled(x: Life, y: Life, n: nat)
  {
    && y.state.sending.Some?
    && var t := y.state.sending.value;
       && t.snapshot == SendCases(x.state) + x.state.inbox
       && y.received == x.received + t.delivered && n == |t.delivered|
       && multiset(t.snapshot) == multiset(t.delivered) + multiset(t.removed)
  }

  lemma LeadsOn(x: Life, ss: seq<State>, steps: seq<Step>, y: Life, step: Step, all: seq<Step>) returns (r: seq<State>)
    requires Leads(x, ss, steps, y) && Enabled(y.state, step) && all == steps + [step]
    ensures Leads(x, r, all, Do(y, step))
  {
    r := ss + [After(y.state, step)];
    RunSnoc(ss, steps, step);
    ReceiptsSnoc(ss, steps, After(y.state, step), step, 0, |steps|);
    var got := Receipts(ss, steps, 0, |steps|);
    assert all[|steps|] == step && r[|steps|] == y.state;
    assert Receipts(r, all, 0, |all|) == got + Got(y.state, step);
    assert got + [] == got;
  }

  /** A channel can be unsubscribed as long as it is in the inbox or among the cases more often than
      it is being removed. */
  lemma CanLeave(s: State, ch: Chan)
    requires Inv(s)
    ensures s.removing[ch] < multiset(s.inbox)[ch] + multiset(s.waiting + s.served)[ch] <==> Enabled(s, StartRemove(ch))
  {
    assert multiset(s.waiting + s.served) == multiset(s.waiting) + multiset(s.served);
  }

  class Feed {
    var sendCases: seq<Chan>  // without slot 0
    var inbox: seq<Chan>
    var removing: multiset<Chan>  // goroutines blocked in remove's select
    var received: seq<Chan>  // the channels that took a value, in order: what the feed does to the world
    ghost var waiting: seq<Chan>  // the prefix of sendCases that Send calls cases
    ghost var served: seq<Chan>
    ghost var live: multiset<Chan>
    ghost var sending: Option<Sending>

    ghost function View(): (s: State)
      reads this
    {
      State(waiting, served, inbox, removing, live, sending)
    }

    ghost predicate Valid()
      reads this
    {
      sendCases == waiting + served && Inv(View())
    }

    constructor ()
      ensures Valid() && View() == EMPTY && received == []
    {
      sendCases, inbox, removing, received := [], [], multiset{}, [];
      waiting, served, live, sending := [], [], multiset{}, None;
    }

    method Subscribe(ch: Chan)
      requires Valid()
      modifies this`inbox, this`live
      ensures Valid() && View() == After(old(View()), EventFeed.Subscribe(ch))
      ensures multiset(inbox) + multiset(sendCases) == old(multiset(inbox) + multiset(sendCases)) + multiset{ch}
    {
      StepKeeps(View(), EventFeed.Subscribe(ch));
      AddToInbox(ch);
    }

    method AddToInbox(ch: Chan)
      modifies this`inbox, this`live
      ensures View() == After(old(View()), EventFeed.Subscribe(ch)) && inbox == old(inbox) + [ch]
    {
      inbox := inbox + [ch];
      live := live + multiset{ch};
    }

    /** remove, until it has either deleted the channel from the inbox or starts to wait. */
    method StartRemove(ch: Chan)
      requires Valid() && Enabled(View(), EventFeed.StartRemove(ch))
      modifies this`inbox, this`removing, this`live
      ensures Valid() && View() == After(old(View()), EventFeed.StartRemove(ch))
      ensures ch in old(inbox) ==>
                multiset(inbox) + multiset{ch} == multiset(old(inbox)) && removing == old(removing)
      ensures ch !in old(inbox) ==> inbox == old(inbox) && removing == old(removing) + multiset{ch}
    {
      StepKeeps(View(), EventFeed.StartRemove(ch));
      TakeFromInbox(ch);
    }

    method TakeFromInbox(ch: Chan)
      requires Enabled(View(), EventFeed.StartRemove(ch))
      modifies this`inbox, this`removing, this`live
      ensures View() == After(old(View()), EventFeed.StartRemove(ch))
      ensures ch in old(inbox) ==>
                multiset(inbox) + multiset{ch} == multiset(old(inbox)) && removing == old(removing)
      ensures ch !in old(inbox) ==> inbox == old(inbox) && removing == old(removing) + multiset{ch}
    {
      var index := FindCase(inbox, ch);
      if index != -1 {
        DeleteMultiset(inbox, index);
        inbox := Delete(inbox, index);
        live := live - multiset{ch};
      } else {
        removing := removing + multiset{ch};
      }
    }

    /** remove, when it gets the send lock. The search cannot fail. */
    method RemoveIdle(ch: Chan)
      requires Valid() && Enabled(View(), EventFeed.RemoveIdle(ch))
      modifies this`sendCases, this`removing, this`waiting, this`served, this`live
      ensures Valid() && View() == After(old(View()), EventFeed.RemoveIdle(ch))
      ensures multiset(sendCases) + multiset{ch} == multiset(old(sendCases))
      ensures removing + multiset{ch} == old(removing) && inbox == old(inbox)
    {
      StepKeeps(View(), EventFeed.RemoveIdle(ch));
      ForgetOne(ch);
    }

    method ForgetOne(ch: Chan)
      requires sendCases == waiting + served && Find(SendCases(View()), ch) >= 0 && ch in removing
      modifies this`sendCases, this`waiting, this`served, this`removing, this`live
      ensures sendCases == waiting + served
      ensures View() == DeleteFound(old(View()), ch).(removing := old(removing) - multiset{ch}, live := old(live) - multiset{ch})
      ensures multiset(sendCases) + multiset{ch} == multiset(old(sendCases)) && removing + multiset{ch} == old(removing)
    {
      DeleteMultiset(sendCases, Find(sendCases, ch));
      var _ := Forget(ch);
    }

    /** Finds and deletes a channel of the cases and lets its unsubscriber go. */
    method Forget(ch: Chan) returns (index: nat)
      requires sendCases == waiting + served && Find(SendCases(View()), ch) >= 0
      modifies this`sendCases, this`waiting, this`served, this`removing, this`live
      ensures sendCases == waiting + served && index == Find(SendCases(old(View())), ch)
      ensures View() == DeleteFound(old(View()), ch).(removing := old(removing) - multiset{ch}, live := old(live) - multiset{ch})
      ensures |sendCases| == |old(sendCases)| - 1 && sendCases == Delete(old(sendCases), index)
      ensures |waiting| == if index < |old(waiting)| then |old(waiting)| - 1 else |old(waiting)|
    {
      index := FindCase(sendCases, ch);
      DeleteAt(index, ch);
      removing := removing - multiset{ch};
      live := live - multiset{ch};
    }

    /** delete from the one slice. */
    method DeleteAt(index: nat, ghost ch: Chan)
      requires sendCases == waiting + served && index < |sendCases| && index == Find(SendCases(View()), ch)
      modifies this`sendCases, this`waiting, this`served
      ensures sendCases == waiting + served && View() == DeleteFound(old(View()), ch)
      ensures |sendCases| == |old(sendCases)| - 1 && sendCases == Delete(old(sendCases), index)
      ensures |waiting| == if index < |old(waiting)| then |old(waiting)| - 1 else |old(waiting)|
    {
      DeleteSplit(waiting, served, index);
      sendCases := Delete(sendCases, index);
      if index < |waiting| {
        waiting := Delete(waiting, index);
      } else {
        served := Delete(served, index - |waiting|);
      }
    }

    // ---- Send: x is the feed when it was called, inner are the steps made since -----------------

    /** Other goroutines subscribe and start to unsubscribe, any number of times. */
    method Others(ghost active: nat, ghost nsent: nat, ghost x: Life, ghost before: seq<Step>) returns (ghost inner: seq<Step>)
      requires InSend(active, nsent) && Follows(x, before)
      modifies this`inbox, this`removing, this`live
      ensures InSend(active, nsent) && Follows(x, inner)
    {
      inner := before;
      var rounds: nat := *;
      while rounds > 0
        invariant InSend(active, nsent) && Follows(x, inner)
      {
        var ch: Chan, subscribe: bool := *, *;
        if subscribe {
          inner := Join(ch, x, inner);
        } else {
          inner := Leave(ch, x, inner);
        }
        rounds := rounds - 1;
      }
    }

    method Join(ch: Chan, ghost x: Life, ghost before: seq<Step>) returns (ghost inner: seq<Step>)
      requires Valid() && Follows(x, before)
      modifies this`inbox, this`live
      ensures Valid() && Follows(x, inner)
    {
      DuringSnoc(x, before, Now(), EventFeed.Subscribe(ch));
      Subscribe(ch);
      inner := before + [EventFeed.Subscribe(ch)];
    }

    /** An unsubscriber exists only for a live subscription that is not being removed yet. */
    method Leave(ch: Chan, ghost x: Life, ghost before: seq<Step>) returns (ghost inner: seq<Step>)
      requires Valid() && Follows(x, before)
      modifies this`inbox, this`removing, this`live
      ensures Valid() && Follows(x, inner)
    {
      inner := before;
      CanLeave(View(), ch);
      if removing[ch] < multiset(inbox)[ch] + multiset(sendCases)[ch] {
        DuringSnoc(x, before, Now(), EventFeed.StartRemove(ch));
        StartRemove(ch);
        inner := before + [EventFeed.StartRemove(ch)];
      }
    }

    /** Delivers to every channel that is subscribed when the send lock is taken and stays so
        until its turn comes, exactly once each, and reports how many that were. It does so by the
        inner steps, which lead from BeginSend to the state done, in which EndSend is possible. */
    method Send() returns (nsent: nat, ghost inner: seq<Step>, ghost done: Life)
      requires Valid() && sending == None
      modifies this
      ensures Valid() && During(old(Now()), inner) == Some(done)
      ensures Enabled(done.state, EndSend) && Now() == Do(done, EndSend)
      ensures Settled(old(Now()), done, nsent)
    {
      ghost var x := Now();
      var active := Begin();
      nsent, inner := Serve(active, x);
      done := Finish(nsent, x, inner);
    }

    /** The loop of Send: all cases without blocking, then one choice of Select, until none is left. */
    method Serve(n: nat, ghost x: Life) returns (nsent: nat, ghost inner: seq<Step>)
      requires InSend(n, 0) && Follows(x, [])
      modifies this
      ensures InSend(0, nsent) && Follows(x, inner)
    {
      var active := n;
      nsent, inner := 0, [];
      while true
        invariant InSend(active, nsent) && Follows(x, inner)
        decreases |sendCases| + active
      {
        active, nsent, inner := FastPath(active, nsent, x, inner);
        if active == 0 {
          break;
        }
        active, nsent, inner := Select(active, nsent, x, inner);
      }
    }

    method Begin() returns (active: nat)
      requires Valid() && sending == None
      modifies this`sendCases, this`inbox, this`waiting, this`served, this`sending
      ensures InSend(active, 0) && Follows(old(Now()), [])
    {
      StepKeeps(View(), BeginSend);
      MergeInbox();
      active := |sendCases|;
    }

    /** Hands the send lock back. */
    ghost method Finish(nsent: nat, x: Life, inner: seq<Step>) returns (done: Life)
      requires InSend(0, nsent) && Follows(x, inner)
      modifies this`sending
      ensures Valid() && done == old(Now()) && Enabled(done.state, EndSend) && Now() == Do(done, EndSend)
      ensures Settled(x, done, nsent)
    {
      done := Now();
      DuringRecords(x, inner);
      EndOfSend(View());
      StepKeeps(View(), EndSend);
      sending := None;
    }

    /** Takes in the new subscribers; every case waits for the value. */
    method MergeInbox()
      requires sendCases == waiting + served && sending == None
      modifies this`sendCases, this`inbox, this`waiting, this`served, this`sending
      ensures sendCases == waiting + served && View() == After(old(View()), BeginSend)
      ensures |sendCases| == |waiting| && sending == Some(Sending(old(sendCases) + old(inbox), 0, [], []))
    {
      sendCases := sendCases + inbox;
      inbox := [];
      waiting, served, sending := sendCases, [], Some(Sending(sendCases, 0, [], []));
    }

    /** In the middle of a send: active cases wait and nsent have been served. */
    ghost predicate InSend(active: nat, nsent: nat)
      reads this
    {
      Valid() && active == |waiting| && sending.Some? && sending.value.nsent == nsent
    }

    ghost function Now(): (x: Life)
      reads this
    {
      Life(View(), received)
    }

    /** The steps have led here. */
    ghost predicate Follows(x: Life, inner: seq<Step>)
      reads this
    {
      Enabled(x.state, BeginSend) && During(x, inner) == Some(Now())
    }

    /** Tries every waiting channel once without blocking. */
    method FastPath(n: nat, sent: nat, ghost x: Life, ghost before: seq<Step>)
      returns (active: nat, nsent: nat, ghost inner: seq<Step>)
      requires InSend(n, sent) && Follows(x, before)
      modifies this
      ensures InSend(active, nsent) && Follows(x, inner) && active <= n && |sendCases| == |old(sendCases)|
    {
      active, nsent, inner := n, sent, before;
      var i := 0;
      while i < active
        invariant InSend(active, nsent) && Follows(x, inner) && active <= n && |sendCases| == |old(sendCases)|
        decreases active - i
      {
        inner := Others(active, nsent, x, inner);
        var accepted: bool := *;
        if accepted {
          active, nsent, inner := DeliverTo(active, i, nsent, x, inner);
        } else {
          i := i + 1;
        }
      }
    }

    method DeliverTo(n: nat, i: nat, sent: nat, ghost x: Life, ghost before: seq<Step>)
      returns (active: nat, nsent: nat, ghost inner: seq<Step>)
      requires InSend(n, sent) && Follows(x, before) && i < n
      modifies this`sendCases, this`received, this`waiting, this`served, this`sending
      ensures InSend(active, nsent) && Follows(x, inner) && active == n - 1 && |sendCases| == |old(sendCases)|
    {
      DuringSnoc(x, before, Now(), Deliver(i));
      active, nsent := ServeCase(n, i, sent);
      inner := before + [Deliver(i)];
    }

    /** Case i takes the value and moves behind the waiting ones. */
    method ServeCase(n: nat, i: nat, sent: nat) returns (active: nat, nsent: nat)
      requires InSend(n, sent) && i < n
      modifies this`sendCases, this`received, this`waiting, this`served, this`sending
      ensures InSend(active, nsent) && active == n - 1 && |sendCases| == |old(sendCases)|
      ensures Now() == Do(old(Now()), Deliver(i))
    {
      StepKeeps(View(), Deliver(i));
      MoveBehind(n, i);
      active, nsent := n - 1, sent + 1;
    }

    method MoveBehind(n: nat, i: nat)
      requires sendCases == waiting + served && sending.Some? && i < n == |waiting|
      modifies this`sendCases, this`received, this`waiting, this`served, this`sending
      ensures sendCases == waiting + served && |sendCases| == |old(sendCases)|
      ensures View() == After(old(View()), Deliver(i)) && received == old(received) + [old(waiting)[i]]
    {
      DeactivateSplit(waiting, served, i);
      received := received + [sendCases[i]];
      sendCases := Deactivate(sendCases, n, i);
      ghost var t, ch := sending.value, waiting[i];
      sending := Some(t.(nsent := t.nsent + 1, delivered := t.delivered + [ch]));
      waiting, served := SwapOut(waiting, i), [ch] + served;
    }

    /** Blocks until a waiting channel takes the value or somebody unsubscribes. */
    method Select(n: nat, sent: nat, ghost x: Life, ghost before: seq<Step>)
      returns (active: nat, nsent: nat, ghost inner: seq<Step>)
      requires InSend(n, sent) && Follows(x, before) && n > 0
      modifies this
      ensures InSend(active, nsent) && Follows(x, inner) && |sendCases| + active < |old(sendCases)| + n
    {
      inner := Others(n, sent, x, before);
      var removal: bool, chosen: nat := *, *;
      if removal && removing != multiset{} {
        var ch :| ch in removing;
        active, inner := RemoveFrom(n, ch, sent, x, inner);
        nsent := sent;
      } else {
        active, nsent, inner := DeliverTo(n, chosen % n, sent, x, inner);
      }
    }

    method RemoveFrom(n: nat, ch: Chan, ghost sent: nat, ghost x: Life, ghost before: seq<Step>)
      returns (active: nat, ghost inner: seq<Step>)
      requires InSend(n, sent) && Follows(x, before) && n > 0 && ch in removing
      modifies this`sendCases, this`removing, this`waiting, this`served, this`live, this`sending
      ensures InSend(active, sent) && Follows(x, inner) && |sendCases| == |old(sendCases)| - 1 && active <= n
    {
      DuringSnoc(x, before, Now(), RemoveDuring(ch));
      active := RemoveNow(n, ch, sent);
      inner := before + [RemoveDuring(ch)];
    }

    /** An unsubscription that reached Send through removeSub. */
    method RemoveNow(n: nat, ch: Chan, ghost sent: nat) returns (active: nat)
      requires InSend(n, sent) && n > 0 && ch in removing
      modifies this`sendCases, this`removing, this`waiting, this`served, this`live, this`sending
      ensures InSend(active, sent) && |sendCases| == |old(sendCases)| - 1 && active <= n
      ensures Now() == Do(old(Now()), RemoveDuring(ch))
    {
      StepKeeps(View(), RemoveDuring(ch));
      active := ForgetDuring(n, ch);
    }

    method ForgetDuring(n: nat, ch: Chan) returns (active: nat)
      requires sendCases == waiting + served && Find(SendCases(View()), ch) >= 0
      requires n == |waiting| && Enabled(View(), RemoveDuring(ch))
      modifies this`sendCases, this`removing, this`waiting, this`served, this`live, this`sending
      ensures sendCases == waiting + served && active == |waiting| <= n && |sendCases| == |old(sendCases)| - 1
      ensures View() == After(old(View()), RemoveDuring(ch))
      ensures sending.Some? && sending.value.nsent == old(sending).value.nsent
    {
      ghost var t := WithoutFound(View(), ch);
      var index := Forget(ch);
      active := if index < n then n - 1 else n;
      sending := Some(t);
    }
  }
}
