/** One-to-many event delivery (go-ethereum/event/feed.go). Goroutines subscribe, unsubscribe
    and send concurrently; every section under a lock is one step of a state machine. */
module EventFeed {
  import opened Wrappers

  /** A subscribed channel. Two subscriptions may share one, so channels form multisets. */
  type Chan = nat

  /** A send in progress: what it started with, who got the value, who left while waiting. */
  datatype Sending = Sending(snapshot: seq<Chan>, nsent: nat, delivered: seq<Chan>, removed: seq<Chan>)

  /** sendCases without slot 0 (which receives removals) is waiting followed by served: the
      prefix that Send still tries, then the cases moved behind it. */
  datatype State = State(
    waiting: seq<Chan>,
    served: seq<Chan>,
    inbox: seq<Chan>,
    removing: multiset<Chan>,  // unsubscribers past the inbox, waiting for the send lock or for Send
    live: multiset<Chan>,  // channels of subscriptions not yet removed
    sending: Option<Sending>)  // Some while the send lock is held by Send

  ghost function SendCases(s: State): (cs: seq<Chan>) { s.waiting + s.served }

  // ---- case lists ------------------------------------------------------------------------

  /** The index of the first case with the given channel, or -1. */
  function Find(cs: seq<Chan>, ch: Chan): (i: int)
    ensures -1 <= i < |cs|
    ensures i >= 0 ==> cs[i] == ch && ch !in cs[..i]
    ensures i == -1 <==> ch !in cs
  {
    if cs == [] then -1
    else if cs[0] == ch then 0
    else
      var i := Find(cs[1..], ch);
      assert cs == [cs[0]] + cs[1..];
      if i == -1 then -1
      else
        assert cs[..i + 1] == [cs[0]] + cs[1..][..i];
        i + 1
  }

  function Delete(cs: seq<Chan>, i: nat): (r: seq<Chan>)
    requires i < |cs|
    ensures |r| == |cs| - 1
  {
    cs[..i] + cs[i + 1..]
  }

  /** Swaps a case with the last waiting one and shortens the waiting prefix. */
  function SwapOut(cs: seq<Chan>, i: nat): (r: seq<Chan>)
    requires i < |cs|
    ensures |r| == |cs| - 1
  {
    cs[i := cs[|cs| - 1]][..|cs| - 1]
  }

  lemma DeleteMultiset(cs: seq<Chan>, i: nat)
    requires i < |cs|
    ensures multiset(cs) == multiset(Delete(cs, i)) + multiset{cs[i]}
  {
    assert cs == cs[..i] + [cs[i]] + cs[i + 1..];
  }

  /** Exactly the chosen case leaves the waiting prefix. */
  lemma SwapOutMultiset(cs: seq<Chan>, i: nat)
    requires i < |cs|
    ensures multiset(cs) == multiset(SwapOut(cs, i)) + multiset{cs[i]}
  {
    var last := |cs| - 1;
    var x, y := cs[i], cs[last];
    if i == last {
      assert SwapOut(cs, i) == cs[..last];
      assert cs == cs[..last] + [x];
    } else {
      var a, b := cs[..i], cs[i + 1..last];
      assert SwapOut(cs, i) == a + [y] + b;
      assert cs == a + [x] + b + [y];
    }
  }

  lemma SnocMultiset(s: seq<Chan>, x: Chan)
    ensures multiset(s + [x]) == multiset(s) + multiset{x}
    ensures multiset([x] + s) == multiset(s) + multiset{x}
  {
  }

  // ---- steps -----------------------------------------------------------------------------

  datatype Step =
    | Subscribe(ch: Chan)
    | StartRemove(ch: Chan)  // remove up to releasing mu
    | RemoveIdle(ch: Chan)  // remove, having obtained the send lock
    | BeginSend
    | Deliver(i: nat)  // TrySend or Select chose case i
    | RemoveDuring(ch: Chan)  // Select chose the removal channel
    | EndSend

  ghost predicate Enabled(s: State, step: Step)
  {
    match step
    case Subscribe(_) => true
    case StartRemove(ch) => s.removing[ch] < s.live[ch]
    case RemoveIdle(ch) => ch in s.removing && s.sending == None
    case BeginSend => s.sending == None
    case Deliver(i) => s.sending.Some? && i < |s.waiting|
    case RemoveDuring(ch) => ch in s.removing && s.sending.Some? && s.waiting != []
    case EndSend => s.sending.Some? && s.waiting == []
  }

  /** Deletes the found case; find returning -1 would make the program panic. */
  ghost function DeleteFound(s: State, ch: Chan): (r: State)
  {
    var i := Find(SendCases(s), ch);
    if i < 0 then s
    else if i < |s.waiting| then s.(waiting := Delete(s.waiting, i))
    else s.(served := Delete(s.served, i - |s.waiting|))
  }

  /** A removal during a send counts only if the case still waited. */
  ghost function WithoutFound(s: State, ch: Chan): (t: Sending)
    requires s.sending.Some?
  {
    var t, i := s.sending.value, Find(SendCases(s), ch);
    if 0 <= i < |s.waiting| then t.(removed := t.removed + [ch]) else t
  }

  ghost function After(s: State, step: Step): (r: State)
    requires Enabled(s, step)
  {
    match step
    case Subscribe(ch) => s.(inbox := s.inbox + [ch], live := s.live + multiset{ch})
    case StartRemove(ch) =>
      var i := Find(s.inbox, ch);
      if i >= 0 then s.(inbox := Delete(s.inbox, i), live := s.live - multiset{ch})
      else s.(removing := s.removing + multiset{ch})
    case RemoveIdle(ch) =>
      DeleteFound(s, ch).(removing := s.removing - multiset{ch}, live := s.live - multiset{ch})
    case BeginSend =>
      var cs := SendCases(s) + s.inbox;
      s.(waiting := cs, served := [], inbox := [], sending := Some(Sending(cs, 0, [], [])))
    case Deliver(i) =>
      var t, ch := s.sending.value, s.waiting[i];
      s.(waiting := SwapOut(s.waiting, i), served := [ch] + s.served,
         sending := Some(t.(nsent := t.nsent + 1, delivered := t.delivered + [ch])))
    case RemoveDuring(ch) =>
      DeleteFound(s, ch).(removing := s.removing - multiset{ch}, live := s.live - multiset{ch},
                          sending := Some(WithoutFound(s, ch)))
    case EndSend => s.(sending := None)
  }

  // ---- what every interleaving keeps ---------------------------------------------------------

  /** Inbox and cases together are the live subscriptions; every waiting unsubscriber's channel
      is among the cases. */
  ghost predicate Conserved(s: State)
  {
    Balanced(multiset(s.inbox), multiset(s.waiting), multiset(s.served), s.removing, s.live)
  }

  ghost predicate Balanced(inbox: multiset<Chan>, waiting: multiset<Chan>, served: multiset<Chan>,
                           removing: multiset<Chan>, live: multiset<Chan>)
  {
    inbox + waiting + served == live && removing <= waiting + served
  }

  /** Every channel the send started with still waits, has the value, or was removed while it
      waited, each exactly once; the cases behind the waiting ones all have the value. */
  ghost predicate Accounted(waiting: seq<Chan>, served: seq<Chan>, t: Sending)
  {
    && t.nsent == |t.delivered|
    && multiset(t.snapshot) == multiset(waiting) + multiset(t.delivered) + multiset(t.removed)
    && multiset(served) <= multiset(t.delivered)
  }

  ghost predicate Inv(s: State)
  {
    Conserved(s) && (s.sending.Some? ==> Accounted(s.waiting, s.served, s.sending.value))
  }

  const EMPTY: State := State([], [], [], multiset{}, multiset{}, None)

  lemma SubscribeKeeps(s: State, ch: Chan)
    requires Inv(s)
    ensures Inv(After(s, Subscribe(ch)))
  {
    SnocMultiset(s.inbox, ch);
  }

  lemma StartRemoveKeeps(s: State, ch: Chan)
    requires Inv(s) && Enabled(s, StartRemove(ch))
    ensures Inv(After(s, StartRemove(ch)))
  {
    var i := Find(s.inbox, ch);
    if i >= 0 {
      DeleteMultiset(s.inbox, i);
    } else {
      assert multiset(s.inbox)[ch] == 0;
    }
  }

  /** Where find looks, and that it finds. */
  lemma FindSplit(s: State, ch: Chan)
    requires Conserved(s) && ch in s.removing
    ensures var i := Find(SendCases(s), ch);
            && i >= 0
            && (i < |s.waiting| ==> s.waiting[i] == ch)
            && (i >= |s.waiting| ==> s.served[i - |s.waiting|] == ch)
  {
    assert ch in multiset(s.waiting) + multiset(s.served);
    assert ch in s.waiting || ch in s.served;
    assert ch in SendCases(s);
  }

  lemma DeleteFoundConserves(s: State, ch: Chan)
    requires Conserved(s) && ch in s.removing
    ensures var r := DeleteFound(s, ch);
            && r.inbox == s.inbox
            && Balanced(multiset(s.inbox), multiset(r.waiting), multiset(r.served), s.removing - multiset{ch}, s.live - multiset{ch})
  {
    FindSplit(s, ch);
    var i := Find(SendCases(s), ch);
    if i < |s.waiting| {
      DeleteMultiset(s.waiting, i);
      WaitingLeaves(multiset(s.inbox), multiset(Delete(s.waiting, i)), multiset(s.served), s.removing, s.live, ch);
    } else {
      DeleteMultiset(s.served, i - |s.waiting|);
      ServedLeaves(multiset(s.inbox), multiset(s.waiting), multiset(Delete(s.served, i - |s.waiting|)), s.removing, s.live, ch);
    }
  }

  /** One channel leaves the cases, the live ones and the waiting unsubscribers together. */
  lemma WaitingLeaves(inbox: multiset<Chan>, w: multiset<Chan>, v: multiset<Chan>, removing: multiset<Chan>, live: multiset<Chan>, x: Chan)
    requires x in removing && Balanced(inbox, w + multiset{x}, v, removing, live)
    ensures Balanced(inbox, w, v, removing - multiset{x}, live - multiset{x})
  {
  }

  lemma ServedLeaves(inbox: multiset<Chan>, w: multiset<Chan>, v: multiset<Chan>, removing: multiset<Chan>, live: multiset<Chan>, x: Chan)
    requires x in removing && Balanced(inbox, w, v + multiset{x}, removing, live)
    ensures Balanced(inbox, w, v, removing - multiset{x}, live - multiset{x})
  {
  }

  lemma BeginSendKeeps(s: State)
    requires Inv(s) && Enabled(s, BeginSend)
    ensures Inv(After(s, BeginSend))
  {
    var cs := SendCases(s) + s.inbox;
    assert multiset(cs) == multiset(s.waiting) + multiset(s.served) + multiset(s.inbox);
  }

  lemma DeliverKeeps(s: State, i: nat)
    requires Inv(s) && Enabled(s, Deliver(i))
    ensures Inv(After(s, Deliver(i)))
  {
    SwapOutMultiset(s.waiting, i);
    SnocMultiset(s.served, s.waiting[i]);
    SnocMultiset(s.sending.value.delivered, s.waiting[i]);
  }

  lemma RemoveDuringKeeps(s: State, ch: Chan)
    requires Inv(s) && Enabled(s, RemoveDuring(ch))
    ensures Inv(After(s, RemoveDuring(ch)))
  {
    DeleteFoundConserves(s, ch);
    DeleteFoundAccounts(s, ch);
  }

  lemma DeleteFoundAccounts(s: State, ch: Chan)
    requires Inv(s) && ch in s.removing && s.sending.Some?
    ensures Accounted(DeleteFound(s, ch).waiting, DeleteFound(s, ch).served, WithoutFound(s, ch))
  {
    FindSplit(s, ch);
    FoundAccounts(s, ch, Find(SendCases(s), ch));
  }

  lemma FoundAccounts(s: State, ch: Chan, i: int)
    requires s.sending.Some? && Accounted(s.waiting, s.served, s.sending.value) && i == Find(SendCases(s), ch)
    requires 0 <= i < |s.waiting| + |s.served|
    requires i < |s.waiting| ==> s.waiting[i] == ch
    ensures Accounted(DeleteFound(s, ch).waiting, DeleteFound(s, ch).served, WithoutFound(s, ch))
  {
    if i < |s.waiting| {
      RemoveWaiting(s.waiting, s.served, s.sending.value, i);
    } else {
      RemoveServed(s.waiting, s.served, s.sending.value, i - |s.waiting|);
    }
  }

  /** A case removed while it waits will not get the value. */
  lemma RemoveWaiting(waiting: seq<Chan>, served: seq<Chan>, t: Sending, i: nat)
    requires Accounted(waiting, served, t) && i < |waiting|
    ensures Accounted(Delete(waiting, i), served, t.(removed := t.removed + [waiting[i]]))
  {
    DeleteMultiset(waiting, i);
    SnocMultiset(t.removed, waiting[i]);
  }

  /** Removing a case that has the value already does not take it back. */
  lemma RemoveServed(waiting: seq<Chan>, served: seq<Chan>, t: Sending, i: nat)
    requires Accounted(waiting, served, t) && i < |served|
    ensures Accounted(waiting, Delete(served, i), t)
  {
    DeleteMultiset(served, i);
  }

  /** No step of any goroutine breaks the bookkeeping, and find before delete succeeds. */
  lemma StepKeeps(s: State, step: Step)
    requires Inv(s) && Enabled(s, step)
    ensures Inv(After(s, step))
    ensures (step.RemoveIdle? || step.RemoveDuring?) ==> Find(SendCases(s), step.ch) >= 0
  {
    match step
    case Subscribe(ch) => SubscribeKeeps(s, ch);
    case StartRemove(ch) => StartRemoveKeeps(s, ch);
    case RemoveIdle(ch) => FindSplit(s, ch); DeleteFoundConserves(s, ch);
    case BeginSend => BeginSendKeeps(s);
    case Deliver(i) => DeliverKeeps(s, i);
    case RemoveDuring(ch) => FindSplit(s, ch); RemoveDuringKeeps(s, ch);
    case EndSend =>
  }

  /** When a send ends, every channel it started with got the value exactly as often as it was
      subscribed, less the times it was removed while still waiting; the result counts the
      deliveries. */
  lemma EndOfSend(s: State)
    requires Inv(s) && Enabled(s, EndSend)
    ensures var t := s.sending.value;
            multiset(t.snapshot) == multiset(t.delivered) + multiset(t.removed) && t.nsent == |t.delivered|
  {
  }

  /** Every choice of Select makes the send shorter: cases plus waiting cases fall. */
  lemma SelectProgress(s: State, step: Step)
    requires Inv(s) && Enabled(s, step) && (step.Deliver? || step.RemoveDuring?)
    ensures var r := After(s, step);
            |SendCases(r)| + |r.waiting| < |SendCases(s)| + |s.waiting|
  {
    if step.RemoveDuring? {
      FindSplit(s, step.ch);
    }
  }

  // ---- whole runs ----------------------------------------------------------------------------

  ghost predicate Run(ss: seq<State>, steps: seq<Step>)
  {
    && |ss| == |steps| + 1
    && forall i :: 0 <= i < |steps| ==> Enabled(ss[i], steps[i]) && ss[i + 1] == After(ss[i], steps[i])
  }

  /** In every interleaving of subscribers, unsubscribers and one sender at a time, every state
      satisfies the invariant and no removal fails to find its channel. */
  lemma {:induction false} RunKeeps(ss: seq<State>, steps: seq<Step>, i: nat)
    requires Run(ss, steps) && ss[0] == EMPTY && i < |ss|
    ensures Inv(ss[i])
    ensures i < |steps| && (steps[i].RemoveIdle? || steps[i].RemoveDuring?) ==> Find(SendCases(ss[i]), steps[i].ch) >= 0
  {
    if i > 0 {
      RunKeeps(ss, steps, i - 1);
      StepKeeps(ss[i - 1], steps[i - 1]);
    }
    if i < |steps| {
      StepKeeps(ss[i], steps[i]);
    }
  }

  lemma RunSnoc(ss: seq<State>, steps: seq<Step>, step: Step)
    requires Run(ss, steps) && Enabled(ss[|steps|], step)
    ensures Run(ss + [After(ss[|steps|], step)], steps + [step])
  {
  }

  // ---- counting steps --------------------------------------------------------------------------

  /** How often ch was subscribed in the first n steps. */
  ghost function Subscribed(steps: seq<Step>, n: nat, ch: Chan): (k: nat)
    requires n <= |steps|
  {
    if n == 0 then 0 else Subscribed(steps, n - 1, ch) + if steps[n - 1] == Subscribe(ch) then 1 else 0
  }

  /** How often its unsubscription was begun. */
  ghost function Begun(steps: seq<Step>, n: nat, ch: Chan): (k: nat)
    requires n <= |steps|
  {
    if n == 0 then 0 else Begun(steps, n - 1, ch) + if steps[n - 1] == StartRemove(ch) then 1 else 0
  }

  /** How often it was completed: at once if the channel was in the inbox, otherwise by whoever had the
      send lock. */
  ghost function Completed(ss: seq<State>, steps: seq<Step>, n: nat, ch: Chan): (k: nat)
    requires |ss| == |steps| + 1 && n <= |steps|
  {
    if n == 0 then 0
    else
      var s, step := ss[n - 1], steps[n - 1];
      Completed(ss, steps, n - 1, ch)
      + if step == RemoveIdle(ch) || step == RemoveDuring(ch) || (step == StartRemove(ch) && ch in s.inbox) then 1 else 0
  }

  /** In every run a channel is in the inbox and among the cases as often as it was subscribed, less
      the unsubscriptions completed; those begun and not completed are waiting. */
  lemma {:induction false} RunCounts(ss: seq<State>, steps: seq<Step>, n: nat, ch: Chan)
    requires Run(ss, steps) && ss[0] == EMPTY && n <= |steps|
    ensures var s := ss[n];
            && (multiset(s.inbox) + multiset(s.waiting) + multiset(s.served))[ch] + Completed(ss, steps, n, ch)
               == Subscribed(steps, n, ch)
            && s.removing[ch] + Completed(ss, steps, n, ch) == Begun(steps, n, ch)
  {
    if n > 0 {
      RunCounts(ss, steps, n - 1, ch);
      RunKeeps(ss, steps, n - 1);
      StepCounts(ss[n - 1], steps[n - 1], ch);
    }
  }

  /** What one step does to the number of times a channel is in the inbox and among the cases, and to
      the number of its waiting unsubscribers. */
  lemma {:induction false} StepCounts(s: State, step: Step, ch: Chan)
    requires Inv(s) && Enabled(s, step)
    ensures var r := After(s, step);
            var gone := step == RemoveIdle(ch) || step == RemoveDuring(ch) || (step == StartRemove(ch) && ch in s.inbox);
            && (multiset(r.inbox) + multiset(r.waiting) + multiset(r.served))[ch]
               == (multiset(s.inbox) + multiset(s.waiting) + multiset(s.served))[ch]
                  + (if step == Subscribe(ch) then 1 else 0) - (if gone then 1 else 0)
            && r.removing[ch] == s.removing[ch] + (if step == StartRemove(ch) then 1 else 0) - (if gone then 1 else 0)
  {
    var r := After(s, step);
    StepKeeps(s, step);
    LiveCounts(s, step, ch);
    assert multiset(r.inbox) + multiset(r.waiting) + multiset(r.served) == r.live;
    assert multiset(s.inbox) + multiset(s.waiting) + multiset(s.served) == s.live;
  }

  /** The live channels, counted. */
  lemma {:induction false} LiveCounts(s: State, step: Step, ch: Chan)
    requires Inv(s) && Enabled(s, step)
    ensures var r := After(s, step);
            var gone := step == RemoveIdle(ch) || step == RemoveDuring(ch) || (step == StartRemove(ch) && ch in s.inbox);
            && r.live[ch] == s.live[ch] + (if step == Subscribe(ch) then 1 else 0) - (if gone then 1 else 0)
            && r.removing[ch] == s.removing[ch] + (if step == StartRemove(ch) then 1 else 0) - (if gone then 1 else 0)
  {
    match step
    case StartRemove(c) =>
      if c in s.inbox {
        assert multiset(s.inbox)[c] > 0 && multiset(s.inbox)[c] <= s.live[c];
      }
    case RemoveIdle(c) => assert s.removing[c] <= s.live[c];
    case RemoveDuring(c) => assert s.removing[c] <= s.live[c];
    case _ =>
  }

  // ---- what a send amounts to --------------------------------------------------------------

  /** The channel that takes the value in this step, if any. */
  ghost function Got(s: State, step: Step): (cs: seq<Chan>)
    requires Enabled(s, step)
  {
    if step.Deliver? then [s.waiting[step.i]] else []
  }

  /** The channel that leaves while it waits for the value, if any. */
  ghost function Gone(s: State, step: Step): (cs: seq<Chan>)
    requires Enabled(s, step)
  {
    if step.RemoveDuring? && 0 <= Find(SendCases(s), step.ch) < |s.waiting| then [step.ch] else []
  }

  /** Who took the value in steps a to b of a run, in order. */
  ghost function Receipts(ss: seq<State>, steps: seq<Step>, a: nat, b: nat): (cs: seq<Chan>)
    requires Run(ss, steps) && a <= b <= |steps|
  {
    if a == b then [] else Receipts(ss, steps, a, b - 1) + Got(ss[b - 1], steps[b - 1])
  }

  ghost function Departures(ss: seq<State>, steps: seq<Step>, a: nat, b: nat): (cs: seq<Chan>)
    requires Run(ss, steps) && a <= b <= |steps|
  {
    if a == b then [] else Departures(ss, steps, a, b - 1) + Gone(ss[b - 1], steps[b - 1])
  }

  /** Receipts does not look behind b. */
  lemma {:induction false} ReceiptsSnoc(ss: seq<State>, steps: seq<Step>, s: State, step: Step, a: nat, b: nat)
    requires Run(ss, steps) && Run(ss + [s], steps + [step]) && a <= b <= |steps|
    ensures Receipts(ss + [s], steps + [step], a, b) == Receipts(ss, steps, a, b)
    decreases b
  {
    if a < b {
      ReceiptsSnoc(ss, steps, s, step, a, b - 1);
    }
  }

  /** Steps a to z of a run are one call of Send, among the steps of other goroutines. */
  ghost predicate IsSend(steps: seq<Step>, a: nat, z: nat)
  {
    a < z < |steps| && steps[a] == BeginSend && steps[z] == EndSend && forall i :: a < i < z ==> steps[i] != EndSend
  }

  /** The books of a send record exactly the steps made since it began. */
  lemma {:induction false} SendingRecords(ss: seq<State>, steps: seq<Step>, a: nat, b: nat)
    requires Run(ss, steps) && a < b <= |steps| && steps[a] == BeginSend && forall i :: a < i < b ==> steps[i] != EndSend
    ensures var got, gone := Receipts(ss, steps, a, b), Departures(ss, steps, a, b);
            ss[b].sending == Some(Sending(SendCases(ss[a]) + ss[a].inbox, |got|, got, gone))
    decreases b
  {
    if b == a + 1 {
      FirstStep(ss, steps, a);
    } else {
      SendingRecords(ss, steps, a, b - 1);
      var s, step := ss[b - 1], steps[b - 1];
      assert ss[b] == After(s, step);
      RecordStep(s, step, SendCases(ss[a]) + ss[a].inbox, Receipts(ss, steps, a, b - 1), Departures(ss, steps, a, b - 1));
    }
  }

  /** Taking the lock serves and removes nobody. */
  lemma {:induction false} FirstStep(ss: seq<State>, steps: seq<Step>, a: nat)
    requires Run(ss, steps) && a < |steps| && steps[a] == BeginSend
    ensures Receipts(ss, steps, a, a + 1) == Departures(ss, steps, a, a + 1) == []
  {
    assert Receipts(ss, steps, a, a) == Departures(ss, steps, a, a) == [];
  }

  lemma {:induction false} RecordStep(s: State, step: Step, snapshot: seq<Chan>, got: seq<Chan>, gone: seq<Chan>)
    requires Enabled(s, step) && s.sending == Some(Sending(snapshot, |got|, got, gone)) && step != EndSend
    ensures After(s, step).sending == Some(Sending(snapshot, |got + Got(s, step)|, got + Got(s, step), gone + Gone(s, step)))
  {
    assert got + [] == got && gone + [] == gone;
  }

  /** In every run, each Send serves the channels subscribed when it took the send lock, exactly as
      often as they were subscribed, except those that were removed before their turn came. */
  lemma {:induction false} SendDelivers(ss: seq<State>, steps: seq<Step>, a: nat, z: nat)
    requires Run(ss, steps) && ss[0] == EMPTY && IsSend(steps, a, z)
    ensures multiset(SendCases(ss[a]) + ss[a].inbox)
            == multiset(Receipts(ss, steps, a, z)) + multiset(Departures(ss, steps, a, z))
    ensures ss[z].sending.Some? && ss[z].sending.value.nsent == |Receipts(ss, steps, a, z)|
  {
    SendingRecords(ss, steps, a, z);
    RunKeeps(ss, steps, z);
    EndOfSend(ss[z]);
  }
}
