/** Chain configurations (go-ethereum/params/config.go): which fork is active when, whether
    a new schedule may replace a stored one, and whether a schedule is in order. */
module ForkSchedule {
  import opened Wrappers

  /** The schedule: forks by block number up to the merge, then by time. None is no fork. */
  datatype Config = Config(
    chainID: Option<nat>,
    homestead: Option<nat>, dao: Option<nat>, daoSupport: bool,
    eip150: Option<nat>, eip155: Option<nat>, eip158: Option<nat>,
    byzantium: Option<nat>, constantinople: Option<nat>, petersburg: Option<nat>, istanbul: Option<nat>,
    muirGlacier: Option<nat>, berlin: Option<nat>, london: Option<nat>,
    arrowGlacier: Option<nat>, grayGlacier: Option<nat>, mergeNetsplit: Option<nat>,
    shanghai: Option<nat>, cancun: Option<nat>, prague: Option<nat>, verkle: Option<nat>)

  /** A fork scheduled at s is active at head. */
  predicate Forked(s: Option<nat>, head: nat)
  {
    s.Some? && s.value <= head
  }

  /** A fork at s1 cannot be moved to s2 because head is already past one of them. */
  predicate Incompatible(s1: Option<nat>, s2: Option<nat>, head: nat)
  {
    (Forked(s1, head) || Forked(s2, head)) && s1 != s2
  }

  // ---- compatibility ----------------------------------------------------------------------

  /** Where the chain must be rewound to; a block conflict has time zero and the reverse. */
  datatype CompatError = CompatError(rewindToBlock: nat, rewindToTime: nat)

  /** The earlier of two schedules, as newBlockCompatError and newTimestampCompatError pick it. */
  function Earlier(stored: Option<nat>, new_: Option<nat>): (r: Option<nat>)
  {
    if stored == None then new_
    else if new_ == None || stored.value < new_.value then stored
    else new_
  }

  /** One before the earlier schedule, or zero. */
  function Before(stored: Option<nat>, new_: Option<nat>): (n: nat)
  {
    var r := Earlier(stored, new_);
    if r.Some? && r.value > 0 then r.value - 1 else 0
  }

  /** The kinds of test in checkCompatible, with the two schedules they compare. */
  datatype Check =
    | BlockFork(s1: Option<nat>, s2: Option<nat>)
    | Setting(s1: Option<nat>, s2: Option<nat>, differs: bool)  // a setting fixed once fork s1 is active
    | Petersburg(s1: Option<nat>, s2: Option<nat>, constantinople: Option<nat>)
    | TimeFork(s1: Option<nat>, s2: Option<nat>)

  /** k fails at this head. */
  predicate Conflict(k: Check, head: nat, time: nat)
  {
    match k
    case BlockFork(s1, s2) => Incompatible(s1, s2, head)
    case Setting(s1, _, differs) => Forked(s1, head) && differs
    case Petersburg(s1, s2, c1) => Incompatible(s1, s2, head) && Incompatible(c1, s2, head)
    case TimeFork(s1, s2) => Incompatible(s1, s2, time)
  }

  /** What the failed test k returns. */
  function ErrorOf(k: Check): (e: CompatError)
  {
    if k.TimeFork? then CompatError(0, Before(k.s1, k.s2)) else CompatError(Before(k.s1, k.s2), 0)
  }

  /** The tests in the order they are made. */
  function Checks(c: Config, n: Config): (ks: seq<Check>)
  {
    [ BlockFork(c.homestead, n.homestead),
      BlockFork(c.dao, n.dao),
      Setting(c.dao, n.dao, c.daoSupport != n.daoSupport),
      BlockFork(c.eip150, n.eip150),
      BlockFork(c.eip155, n.eip155),
      BlockFork(c.eip158, n.eip158),
      Setting(c.eip158, n.eip158, c.chainID != n.chainID),
      BlockFork(c.byzantium, n.byzantium),
      BlockFork(c.constantinople, n.constantinople),
      Petersburg(c.petersburg, n.petersburg, c.constantinople),
      BlockFork(c.istanbul, n.istanbul),
      BlockFork(c.muirGlacier, n.muirGlacier),
      BlockFork(c.berlin, n.berlin),
      BlockFork(c.london, n.london),
      BlockFork(c.arrowGlacier, n.arrowGlacier),
      BlockFork(c.grayGlacier, n.grayGlacier),
      BlockFork(c.mergeNetsplit, n.mergeNetsplit),
      TimeFork(c.shanghai, n.shanghai),
      TimeFork(c.cancun, n.cancun),
      TimeFork(c.prague, n.prague),
      TimeFork(c.verkle, n.verkle) ]
  }

  /** checkCompatible: the first test that fails. */
  function FirstConflict(ks: seq<Check>, head: nat, time: nat): (e: Option<CompatError>)
  {
    if ks == [] then None
    else if Conflict(ks[0], head, time) then Some(ErrorOf(ks[0]))
    else FirstConflict(ks[1..], head, time)
  }

  /** Some test by block number fails at this block, whatever the time is. */
  ghost predicate BlockConflict(ks: seq<Check>, head: nat)
  {
    exists i :: 0 <= i < |ks| && !ks[i].TimeFork? && Conflict(ks[i], head, 0)
  }

  /** Some test by time fails at this time, whatever the block is. */
  ghost predicate TimeConflict(ks: seq<Check>, time: nat)
  {
    exists i :: 0 <= i < |ks| && ks[i].TimeFork? && Conflict(ks[i], 0, time)
  }

  /** The configurations agree up to this head: no test fails there. */
  ghost predicate Agree(c: Config, n: Config, head: nat, time: nat)
  {
    AgreeAt(Checks(c, n), head, time)
  }

  ghost predicate AgreeAt(ks: seq<Check>, head: nat, time: nat)
  {
    !BlockConflict(ks, head) && !TimeConflict(ks, time)
  }

  /** Up to head, a fork scheduled at s1 is active exactly when one scheduled at s2 is. */
  ghost predicate SameUpTo(s1: Option<nat>, s2: Option<nat>, head: nat)
  {
    forall b: nat :: b <= head ==> (Forked(s1, b) <==> Forked(s2, b))
  }

  lemma SameIs(s1: Option<nat>, s2: Option<nat>, head: nat)
    ensures SameUpTo(s1, s2, head) <==> !Incompatible(s1, s2, head)
  {
    if Incompatible(s1, s2, head) {
      var b := Earlier(s1, s2).value;
      assert Forked(s1, b) != Forked(s2, b);
    }
  }

  /** Up to this block the same forks are active at every block. The DAO flag and the chain ID are
      settings of their forks. Petersburg may also have moved to where Constantinople is. */
  ghost predicate SameBlocks(c: Config, n: Config, head: nat)
  {
    && SameUpTo(c.homestead, n.homestead, head) && SameUpTo(c.dao, n.dao, head)
    && (Forked(c.dao, head) ==> c.daoSupport == n.daoSupport)
    && SameUpTo(c.eip150, n.eip150, head) && SameUpTo(c.eip155, n.eip155, head) && SameUpTo(c.eip158, n.eip158, head)
    && (Forked(c.eip158, head) ==> c.chainID == n.chainID)
    && SameUpTo(c.byzantium, n.byzantium, head) && SameUpTo(c.constantinople, n.constantinople, head)
    && (SameUpTo(c.petersburg, n.petersburg, head) || SameUpTo(c.constantinople, n.petersburg, head))
    && SameUpTo(c.istanbul, n.istanbul, head) && SameUpTo(c.muirGlacier, n.muirGlacier, head)
    && SameUpTo(c.berlin, n.berlin, head) && SameUpTo(c.london, n.london, head)
    && SameUpTo(c.arrowGlacier, n.arrowGlacier, head) && SameUpTo(c.grayGlacier, n.grayGlacier, head)
    && SameUpTo(c.mergeNetsplit, n.mergeNetsplit, head)
  }

  /** The same for forks by time. */
  ghost predicate SameTimes(c: Config, n: Config, time: nat)
  {
    && SameUpTo(c.shanghai, n.shanghai, time) && SameUpTo(c.cancun, n.cancun, time)
    && SameUpTo(c.prague, n.prague, time) && SameUpTo(c.verkle, n.verkle, time)
  }

  /** Agreement, in the terms of the schedules: no test fails exactly if the same forks are active. */
  lemma AgreeMeans(c: Config, n: Config, head: nat, time: nat)
    ensures Agree(c, n, head, time) <==> SameBlocks(c, n, head) && SameTimes(c, n, time)
  {
    BlocksMean(c, n, head);
    TimesMean(c, n, time);
  }

  lemma BlocksMean(c: Config, n: Config, head: nat)
    ensures !BlockConflict(Checks(c, n), head) <==> SameBlocks(c, n, head)
  {
    if !BlockConflict(Checks(c, n), head) {
      NoConflictSame(c, n, head);
    }
    if SameBlocks(c, n, head) {
      forall i | 0 <= i < |Checks(c, n)| && !Checks(c, n)[i].TimeFork? ensures !Conflict(Checks(c, n)[i], head, 0) {
        SameNoConflict(c, n, head, i);
      }
    }
  }

  lemma NoConflictSame(c: Config, n: Config, head: nat)
    requires !BlockConflict(Checks(c, n), head)
    ensures SameBlocks(c, n, head)
  {
    NoConflictEarly(c, n, head);
    NoConflictLate(c, n, head);
  }

  lemma NoConflictEarly(c: Config, n: Config, head: nat)
    requires !BlockConflict(Checks(c, n), head)
    ensures SameUpTo(c.homestead, n.homestead, head) && SameUpTo(c.dao, n.dao, head)
    ensures Forked(c.dao, head) ==> c.daoSupport == n.daoSupport
    ensures SameUpTo(c.eip150, n.eip150, head) && SameUpTo(c.eip155, n.eip155, head) && SameUpTo(c.eip158, n.eip158, head)
    ensures Forked(c.eip158, head) ==> c.chainID == n.chainID
  {
    var ks := Checks(c, n);
    assert !Conflict(ks[0], head, 0) && !Conflict(ks[1], head, 0) && !Conflict(ks[2], head, 0) && !Conflict(ks[3], head, 0);
    assert !Conflict(ks[4], head, 0) && !Conflict(ks[5], head, 0) && !Conflict(ks[6], head, 0);
  }

  lemma NoConflictLate(c: Config, n: Config, head: nat)
    requires !BlockConflict(Checks(c, n), head)
    ensures SameUpTo(c.byzantium, n.byzantium, head) && SameUpTo(c.constantinople, n.constantinople, head)
    ensures SameUpTo(c.petersburg, n.petersburg, head) || SameUpTo(c.constantinople, n.petersburg, head)
    ensures SameUpTo(c.istanbul, n.istanbul, head) && SameUpTo(c.muirGlacier, n.muirGlacier, head)
    ensures SameUpTo(c.berlin, n.berlin, head) && SameUpTo(c.london, n.london, head)
    ensures SameUpTo(c.arrowGlacier, n.arrowGlacier, head) && SameUpTo(c.grayGlacier, n.grayGlacier, head)
    ensures SameUpTo(c.mergeNetsplit, n.mergeNetsplit, head)
  {
    var ks := Checks(c, n);
    assert !Conflict(ks[7], head, 0) && !Conflict(ks[8], head, 0) && !Conflict(ks[9], head, 0) && !Conflict(ks[10], head, 0);
    assert !Conflict(ks[11], head, 0) && !Conflict(ks[12], head, 0) && !Conflict(ks[13], head, 0);
    assert !Conflict(ks[14], head, 0) && !Conflict(ks[15], head, 0) && !Conflict(ks[16], head, 0);
  }

  lemma SameNoConflict(c: Config, n: Config, head: nat, i: nat)
    requires SameBlocks(c, n, head) && i < |Checks(c, n)| && !Checks(c, n)[i].TimeFork?
    ensures !Conflict(Checks(c, n)[i], head, 0)
  {
    var k := Checks(c, n)[i];
    SameIs(k.s1, k.s2, head);
    SameIs(c.constantinople, n.petersburg, head);
  }

  lemma TimesMean(c: Config, n: Config, time: nat)
    ensures !TimeConflict(Checks(c, n), time) <==> SameTimes(c, n, time)
  {
    var ks := Checks(c, n);
    SameIs(c.shanghai, n.shanghai, time);
    SameIs(c.cancun, n.cancun, time);
    SameIs(c.prague, n.prague, time);
    SameIs(c.verkle, n.verkle, time);
    assert ks[17] == TimeFork(c.shanghai, n.shanghai) && ks[18] == TimeFork(c.cancun, n.cancun);
    assert ks[19] == TimeFork(c.prague, n.prague) && ks[20] == TimeFork(c.verkle, n.verkle);
  }

  /** Conflicts are upward closed, so configurations that agree somewhere agree earlier too. */
  lemma AgreeEarlier(c: Config, n: Config, head: nat, time: nat, head': nat, time': nat)
    requires Agree(c, n, head, time) && head' <= head && time' <= time
    ensures Agree(c, n, head', time')
  {
    var ks := Checks(c, n);
    BlockConflictUpward(ks, head', head);
    TimeConflictUpward(ks, time', time);
  }

  lemma BlockConflictUpward(ks: seq<Check>, low: nat, high: nat)
    requires low <= high
    ensures BlockConflict(ks, low) ==> BlockConflict(ks, high)
  {
    if BlockConflict(ks, low) {
      var i :| 0 <= i < |ks| && !ks[i].TimeFork? && Conflict(ks[i], low, 0);
      assert Conflict(ks[i], high, 0);
    }
  }

  lemma TimeConflictUpward(ks: seq<Check>, low: nat, high: nat)
    requires low <= high
    ensures TimeConflict(ks, low) ==> TimeConflict(ks, high)
  {
    if TimeConflict(ks, low) {
      var i :| 0 <= i < |ks| && ks[i].TimeFork? && Conflict(ks[i], 0, low);
      assert Conflict(ks[i], 0, high);
    }
  }

  /** The stored schedule has Petersburg only at or after Constantinople, or Constantinople at
      block one or earlier, below which there is no rewind to go too far. */
  predicate PetersburgInPlace(c: Config)
  {
    c.petersburg.Some? ==>
      c.constantinople.Some? && (c.constantinople.value <= c.petersburg.value || c.constantinople.value <= 1)
  }

  /** The first failed test, by its place in the list. */
  lemma {:induction false} FirstConflictAt(ks: seq<Check>, head: nat, time: nat) returns (i: nat)
    ensures i <= |ks| && forall j :: 0 <= j < i ==> !Conflict(ks[j], head, time)
    ensures i < |ks| ==> Conflict(ks[i], head, time) && FirstConflict(ks, head, time) == Some(ErrorOf(ks[i]))
    ensures i == |ks| ==> FirstConflict(ks, head, time) == None
    decreases |ks|
  {
    if ks == [] || Conflict(ks[0], head, time) {
      i := 0;
    } else {
      var k := FirstConflictAt(ks[1..], head, time);
      i := k + 1;
      forall j | 0 <= j < i ensures !Conflict(ks[j], head, time) {
        assert j > 0 ==> ks[j] == ks[1..][j - 1];
      }
    }
  }

  /** Error e at this head rewinds in one coordinate, strictly back or to zero. */
  ghost predicate GoesBack(ks: seq<Check>, e: CompatError, head: nat, time: nat)
  {
    if BlockConflict(ks, head)
    then e.rewindToTime == 0 && (e.rewindToBlock == 0 || e.rewindToBlock < head)
    else e.rewindToBlock == 0 && TimeConflict(ks, time) && (e.rewindToTime == 0 || e.rewindToTime < time)
  }

  /** One step above the rewind there is still a conflict. */
  ghost predicate Tight(ks: seq<Check>, e: CompatError, head: nat)
  {
    if BlockConflict(ks, head) then BlockConflict(ks, e.rewindToBlock + 1) else TimeConflict(ks, e.rewindToTime + 1)
  }

  /** What checkCompatible finds: nothing exactly where the configurations agree; else a rewind
      that goes back, and no further than it must if the stored schedule has Petersburg in place. */
  lemma FirstConflictMeans(c: Config, n: Config, head: nat, time: nat)
    ensures var e := FirstConflict(Checks(c, n), head, time);
            && (e == None <==> Agree(c, n, head, time))
            && (e.Some? ==> GoesBack(Checks(c, n), e.value, head, time))
            && (e.Some? && PetersburgInPlace(c) ==> Tight(Checks(c, n), e.value, head))
  {
    var ks := Checks(c, n);
    var i := FirstConflictAt(ks, head, time);
    if i < |ks| {
      ConflictGoesBack(c, n, head, time, i);
      if PetersburgInPlace(c) {
        ConflictTight(c, n, head, time, i);
      }
    } else {
      if BlockConflict(ks, head) {
        var j :| 0 <= j < |ks| && !ks[j].TimeFork? && Conflict(ks[j], head, 0);
        assert Conflict(ks[j], head, time);
      }
      if TimeConflict(ks, time) {
        var j :| 0 <= j < |ks| && ks[j].TimeFork? && Conflict(ks[j], 0, time);
        assert Conflict(ks[j], head, time);
      }
    }
  }

  /** Test i is the first to fail at this head. */
  ghost predicate FirstAt(ks: seq<Check>, i: nat, head: nat, time: nat)
  {
    i < |ks| && Conflict(ks[i], head, time) && forall j :: 0 <= j < i ==> !Conflict(ks[j], head, time)
  }

  /** Tests by block come before tests by time, so a time test fails first only if no block test does. */
  lemma ConflictCoordinate(c: Config, n: Config, head: nat, time: nat, i: nat)
    requires FirstAt(Checks(c, n), i, head, time)
    ensures Checks(c, n)[i].TimeFork? ==> !BlockConflict(Checks(c, n), head) && TimeConflict(Checks(c, n), time)
    ensures !Checks(c, n)[i].TimeFork? ==> BlockConflict(Checks(c, n), head)
  {
    var ks := Checks(c, n);
    if ks[i].TimeFork? {
      assert Conflict(ks[i], 0, time);
      forall j | 0 <= j < |ks| && !ks[j].TimeFork? ensures !Conflict(ks[j], head, 0) {
        BlocksBeforeTimes(c, n, j, i);
        assert !Conflict(ks[j], head, time);
      }
    } else {
      assert Conflict(ks[i], head, 0);
    }
  }

  lemma BlocksBeforeTimes(c: Config, n: Config, j: nat, i: nat)
    requires j < |Checks(c, n)| && i < |Checks(c, n)| && !Checks(c, n)[j].TimeFork? && Checks(c, n)[i].TimeFork?
    ensures j < i
  {
  }

  lemma ConflictGoesBack(c: Config, n: Config, head: nat, time: nat, i: nat)
    requires FirstAt(Checks(c, n), i, head, time)
    ensures GoesBack(Checks(c, n), ErrorOf(Checks(c, n)[i]), head, time)
  {
    ConflictCoordinate(c, n, head, time, i);
  }

  lemma ConflictTight(c: Config, n: Config, head: nat, time: nat, i: nat)
    requires FirstAt(Checks(c, n), i, head, time) && PetersburgInPlace(c)
    ensures Tight(Checks(c, n), ErrorOf(Checks(c, n)[i]), head)
  {
    var ks := Checks(c, n);
    ConflictCoordinate(c, n, head, time, i);
    if ks[i].TimeFork? {
      assert Conflict(ks[i], 0, ErrorOf(ks[i]).rewindToTime + 1);
    } else {
      SettingAfterFork(c, n, i);
      if ks[i].Setting? {
        assert !Conflict(ks[i - 1], head, time);
      }
      var above := ErrorOf(ks[i]).rewindToBlock + 1;
      if above <= head {
        assert Conflict(ks[i], above, 0);
      } else {
        BlockConflictUpward(ks, head, above);
      }
    }
  }

  /** The setting tests come right after the test of their fork; Petersburg knows Constantinople. */
  lemma SettingAfterFork(c: Config, n: Config, i: nat)
    requires i < |Checks(c, n)|
    ensures var ks := Checks(c, n);
            && (ks[i].Setting? ==> i > 0 && ks[i - 1] == BlockFork(ks[i].s1, ks[i].s2))
            && (ks[i].Petersburg? ==> ks[i] == Petersburg(c.petersburg, n.petersburg, c.constantinople))
  {
  }

  /** A new schedule and a head that show it if Petersburg is not in place. */
  function TooFarInput(c: Config): (r: (Config, nat))
    requires !PetersburgInPlace(c)
  {
    var p, k := c.petersburg.value, c.constantinople;
    (c.(petersburg := if k.Some? then None else Some(p + 2)), if k.Some? then k.value else p + 2)
  }

  /** Whenever Petersburg is not in place the rewind can go too far: for that schedule and that head
      the two still agree one block above the rewind. */
  lemma RewindTooFar(c: Config)
    requires !PetersburgInPlace(c)
    ensures var (n, head) := TooFarInput(c); var e := FirstConflict(Checks(c, n), head, 0);
            && e.Some? && e.value.rewindToTime == 0 && e.value.rewindToBlock < head
            && BlockConflict(Checks(c, n), head) && Agree(c, n, e.value.rewindToBlock + 1, 0)
  {
    var (n, head) := TooFarInput(c);
    OnlyPetersburg(c, n, head);
    OnlyPetersburg(c, n, Before(c.petersburg, n.petersburg) + 1);
    PetersburgConflict(c, n, head);
  }

  lemma PetersburgConflict(c: Config, n: Config, head: nat)
    requires Conflict(Petersburg(c.petersburg, n.petersburg, c.constantinople), head, 0)
    ensures BlockConflict(Checks(c, n), head)
  {
    assert Checks(c, n)[9] == Petersburg(c.petersburg, n.petersburg, c.constantinople);
  }

  /** No rewind of any comparison with c goes further than it must. */
  ghost predicate NeverTooFar(c: Config)
  {
    forall n: Config, head: nat, time: nat ::
      var e := FirstConflict(Checks(c, n), head, time); e.Some? ==> Tight(Checks(c, n), e.value, head)
  }

  /** That is so exactly if Petersburg is in place. */
  lemma NeverTooFarExactly(c: Config)
    ensures NeverTooFar(c) <==> PetersburgInPlace(c)
  {
    if PetersburgInPlace(c) {
      forall n: Config, head: nat, time: nat | FirstConflict(Checks(c, n), head, time).Some?
        ensures Tight(Checks(c, n), FirstConflict(Checks(c, n), head, time).value, head)
      {
        FirstConflictMeans(c, n, head, time);
      }
    } else {
      RewindTooFar(c);
      var (n, head) := TooFarInput(c);
      assert !Tight(Checks(c, n), FirstConflict(Checks(c, n), head, 0).value, head);
    }
  }

  /** If only Petersburg is moved, only its test can fail. */
  lemma OnlyPetersburg(c: Config, n: Config, head: nat)
    requires n == c.(petersburg := n.petersburg)
    ensures var k := Petersburg(c.petersburg, n.petersburg, c.constantinople);
            FirstConflict(Checks(c, n), head, 0) == if Conflict(k, head, 0) then Some(ErrorOf(k)) else None
    ensures FirstConflict(Checks(c, n), head, 0) == None ==> Agree(c, n, head, 0)
  {
    var ks := Checks(c, n);
    var i := FirstConflictAt(ks, head, 0);
    FirstConflictMeans(c, n, head, 0);
    if i < |ks| {
      Unmoved(c, n, i, head);
    }
    if Conflict(ks[9], head, 0) {
      assert i <= 9;
    }
  }

  lemma Unmoved(c: Config, n: Config, i: nat, head: nat)
    requires n == c.(petersburg := n.petersburg) && i < |Checks(c, n)| && Conflict(Checks(c, n)[i], head, 0)
    ensures i == 9
  {
  }

  /** Time tests do not look at the block: once no block test fails, a lower block changes nothing. */
  lemma {:induction false} TimeErrorStays(ks: seq<Check>, head: nat, head': nat, time: nat)
    requires !BlockConflict(ks, head) && head' <= head
    ensures FirstConflict(ks, head', time) == FirstConflict(ks, head, time)
    decreases |ks|
  {
    if ks != [] {
      var k := ks[0];
      assert !k.TimeFork? ==> !Conflict(k, head, 0);
      assert Conflict(k, head, time) == Conflict(k, head', time);
      forall i | 0 <= i < |ks[1..]| && !ks[1..][i].TimeFork? ensures !Conflict(ks[1..][i], head, 0) {
        assert ks[1..][i] == ks[i + 1];
      }
      TimeErrorStays(ks[1..], head, head', time);
    }
  }

  /** Between a point of agreement and conflicts one step above it, agreement is decided. */
  lemma Greatest(ks: seq<Check>, height: nat, time: nat, block: nat, at: nat, b: nat, t: nat)
    requires AgreeAt(ks, block, at) && b <= height && t <= time
    requires block < height ==> BlockConflict(ks, block + 1)
    requires at < time ==> TimeConflict(ks, at + 1)
    ensures AgreeAt(ks, b, t) <==> b <= block && t <= at
  {
    if b <= block && t <= at {
      BlockConflictUpward(ks, b, block);
      TimeConflictUpward(ks, t, at);
    } else if b > block {
      BlockConflictUpward(ks, block + 1, b);
    } else {
      TimeConflictUpward(ks, at + 1, t);
    }
  }

  /** What a list of tests reports anywhere: nothing where there is agreement, else a way back, and
      if tight, no further back than needed. */
  ghost predicate Reports(ks: seq<Check>, tight: bool, head: nat, time: nat)
  {
    var e := FirstConflict(ks, head, time);
    && (e == None <==> AgreeAt(ks, head, time))
    && (e.Some? ==> GoesBack(ks, e.value, head, time) && (tight ==> Tight(ks, e.value, head)))
  }

  /** Where the rewind loop stands. If stuck, the next test repeats the last error. */
  ghost predicate Rewinding(ks: seq<Check>, tight: bool, height: nat, time: nat,
                            lasterr: Option<CompatError>, bhead: nat, btime: nat, stuck: bool)
  {
    && bhead <= height && btime <= time && (btime < time ==> !BlockConflict(ks, bhead))
    && (lasterr == None ==> bhead == height && btime == time && !stuck)
    && (lasterr.Some? ==> !AgreeAt(ks, height, time))
    && (lasterr.Some? && lasterr.value.rewindToTime > 0 ==> lasterr.value == CompatError(0, btime))
    && (lasterr.Some? && lasterr.value.rewindToBlock > 0 ==> lasterr.value == CompatError(bhead, 0) && btime == time)
    && (stuck ==> lasterr == Some(CompatError(0, 0)) && lasterr == FirstConflict(ks, bhead, btime))
    && (tight ==>
          && (bhead < height && !stuck ==> BlockConflict(ks, bhead + 1))
          && (btime < time ==> TimeConflict(ks, btime + 1))
          && (lasterr == Some(CompatError(0, 0)) ==> BlockConflict(ks, 1) || TimeConflict(ks, 1)))
  }

  /** One turn of the loop. */
  lemma RewindStep(ks: seq<Check>, tight: bool, height: nat, time: nat,
                   lasterr: Option<CompatError>, bhead: nat, btime: nat, stuck: bool) returns (stuck': bool)
    requires Rewinding(ks, tight, height, time, lasterr, bhead, btime, stuck) && Reports(ks, tight, bhead, btime)
    requires var e := FirstConflict(ks, bhead, btime); e.Some? && e != lasterr
    ensures var e := FirstConflict(ks, bhead, btime);
            var b, t := After(e.value, bhead, btime).0, After(e.value, bhead, btime).1;
            && Rewinding(ks, tight, height, time, e, b, t, stuck')
            && (b + t < bhead + btime || (b + t == bhead + btime && stuck' && !stuck))
  {
    var e := FirstConflict(ks, bhead, btime).value;
    if e.rewindToTime > 0 {
      stuck' := false;
    } else if BlockConflict(ks, bhead) {
      stuck' := bhead == 0;
    } else {
      stuck' := true;
      TimeErrorStays(ks, bhead, e.rewindToBlock, btime);
      BlockConflictUpward(ks, e.rewindToBlock, bhead);
    }
  }

  /** Where an error sends the chain. */
  function After(e: CompatError, bhead: nat, btime: nat): (r: (nat, nat))
  {
    if e.rewindToTime > 0 then (bhead, e.rewindToTime) else (e.rewindToBlock, btime)
  }

  /** CheckCompatible. It returns no error exactly where the configurations agree. Otherwise it
      stops at (block, at) where they agree, or with a rewind to the genesis block. With
      Petersburg in place the stop is the greatest point below the head at which they agree, and
      a rewind to genesis means a fork moved at block or time one or earlier. If the first rewind
      already leads to agreement, it is the one returned. */
  method CheckCompatible(c: Config, n: Config, height: nat, time: nat)
    returns (lasterr: Option<CompatError>, ghost block: nat, ghost at: nat)
    ensures lasterr == None <==> Agree(c, n, height, time)
    ensures lasterr == None <==> SameBlocks(c, n, height) && SameTimes(c, n, time)
    ensures block <= height && at <= time
    ensures lasterr != Some(CompatError(0, 0)) ==> Agree(c, n, block, at)
    ensures lasterr.Some? && lasterr.value.rewindToTime > 0 ==> lasterr.value == CompatError(0, at)
    ensures lasterr.Some? && lasterr.value.rewindToBlock > 0 ==> lasterr.value == CompatError(block, 0) && at == time
    ensures PetersburgInPlace(c) && lasterr != Some(CompatError(0, 0)) ==>
              forall b: nat, t: nat | b <= height && t <= time :: Agree(c, n, b, t) <==> b <= block && t <= at
    ensures PetersburgInPlace(c) && lasterr == Some(CompatError(0, 0)) ==>
              BlockConflict(Checks(c, n), 1) || TimeConflict(Checks(c, n), 1)
    ensures var e := FirstConflict(Checks(c, n), height, time);
            e.Some? && Agree(c, n, After(e.value, height, time).0, After(e.value, height, time).1) ==> lasterr == e
  {
    forall head: nat, t: nat ensures Reports(Checks(c, n), PetersburgInPlace(c), head, t) {
      FirstConflictMeans(c, n, head, t);
    }
    AgreeMeans(c, n, height, time);
    lasterr, block, at := Rewind(Checks(c, n), PetersburgInPlace(c), height, time);
    if PetersburgInPlace(c) && lasterr != Some(CompatError(0, 0)) {
      forall b: nat, t: nat | b <= height && t <= time ensures Agree(c, n, b, t) <==> b <= block && t <= at {
        Greatest(Checks(c, n), height, time, block, at, b, t);
      }
    }
  }

  /** Its loop. */
  method Rewind(ks: seq<Check>, ghost tight: bool, height: nat, time: nat)
    returns (lasterr: Option<CompatError>, ghost block: nat, ghost at: nat)
    requires forall head: nat, t: nat :: Reports(ks, tight, head, t)
    ensures Rewinding(ks, tight, height, time, lasterr, block, at, false)
            || (Rewinding(ks, tight, height, time, lasterr, block, at, true) && lasterr == Some(CompatError(0, 0)))
    ensures lasterr != Some(CompatError(0, 0)) ==> AgreeAt(ks, block, at)
    ensures lasterr == None ==> AgreeAt(ks, height, time)
    ensures var e := FirstConflict(ks, height, time);
            e.Some? && AgreeAt(ks, After(e.value, height, time).0, After(e.value, height, time).1) ==> lasterr == e
  {
    var bhead: nat, btime: nat := height, time;
    lasterr := None;
    ghost var stuck := false;
    ghost var first := FirstConflict(ks, height, time);
    while true
      invariant Rewinding(ks, tight, height, time, lasterr, bhead, btime, stuck)
      invariant lasterr.Some? ==> first.Some?
      invariant lasterr.Some? && AgreeAt(ks, After(first.value, height, time).0, After(first.value, height, time).1) ==>
                  lasterr == first && (bhead, btime) == After(first.value, height, time)
      decreases bhead + btime, if stuck then 0 else 1
    {
      var err := FirstConflict(ks, bhead, btime);
      assert Reports(ks, tight, bhead, btime);
      if err == None || (lasterr.Some? && err == lasterr) {
        break;
      }
      stuck := RewindStep(ks, tight, height, time, lasterr, bhead, btime, stuck);
      lasterr := err;
      if err.value.rewindToTime > 0 {
        btime := err.value.rewindToTime;
      } else {
        bhead := err.value.rewindToBlock;
      }
    }
    block, at := bhead, btime;
  }

  /** The loop does not repair a rewind that goes too far: with Petersburg out of place it stops
      below a block at which the configurations agree. */
  method StopsTooLow(c: Config) returns (n: Config, head: nat, err: Option<CompatError>)
    requires !PetersburgInPlace(c)
    ensures err.Some? && err.value.rewindToTime == 0 && err.value.rewindToBlock < head
    ensures Agree(c, n, err.value.rewindToBlock + 1, 0) && !Agree(c, n, head, 0)
  {
    n, head := TooFarInput(c).0, TooFarInput(c).1;
    RewindTooFar(c);
    ghost var e := FirstConflict(Checks(c, n), head, 0).value;
    AgreeEarlier(c, n, e.rewindToBlock + 1, 0, e.rewindToBlock, 0);
    ghost var block, at;
    err, block, at := CheckCompatible(c, n, head, 0);
  }

  // ---- fork order -------------------------------------------------------------------------

  /** An entry of the list in CheckConfigForkOrder. */
  datatype Fork = Fork(name: string, block: Option<nat>, timestamp: Option<nat>, optional: bool)
  {
    predicate Enabled() { block.Some? || timestamp.Some? }

    /** It takes part in the comparison. */
    predicate Kept() { !optional || Enabled() }
  }

  function ByBlock(name: string, block: Option<nat>, optional: bool): Fork
  {
    Fork(name, block, None, optional)
  }

  function ByTime(name: string, timestamp: Option<nat>, optional: bool): Fork
  {
    Fork(name, None, timestamp, optional)
  }

  /** The forks in their official order. */
  function Forks(c: Config): (fs: seq<Fork>)
  {
    [ ByBlock("homesteadBlock", c.homestead, false),
      ByBlock("daoForkBlock", c.dao, true),
      ByBlock("eip150Block", c.eip150, false),
      ByBlock("eip155Block", c.eip155, false),
      ByBlock("eip158Block", c.eip158, false),
      ByBlock("byzantiumBlock", c.byzantium, false),
      ByBlock("constantinopleBlock", c.constantinople, false),
      ByBlock("petersburgBlock", c.petersburg, false),
      ByBlock("istanbulBlock", c.istanbul, false),
      ByBlock("muirGlacierBlock", c.muirGlacier, true),
      ByBlock("berlinBlock", c.berlin, false),
      ByBlock("londonBlock", c.london, false),
      ByBlock("arrowGlacierBlock", c.arrowGlacier, true),
      ByBlock("grayGlacierBlock", c.grayGlacier, true),
      ByBlock("mergeNetsplitBlock", c.mergeNetsplit, true),
      ByTime("shanghaiTime", c.shanghai, false),
      ByTime("cancunTime", c.cancun, true),
      ByTime("pragueTime", c.prague, true),
      ByTime("verkleTime", c.verkle, true) ]
  }

  /** The errors, with the two forks they name. */
  datatype OrderError =
    | NotEnabled(last: string, cur: string)
    | OutOfOrder(last: string, cur: string)
    | BackToBlocks(last: string, cur: string)

  /** What the order demands of two forks, the earlier one first: if the later one is enabled
      then so is the earlier one, unless that is optional, and it is no later on the same scale. */
  predicate PairInOrder(f: Fork, g: Fork)
  {
    && (g.Enabled() && !f.optional ==> f.Enabled())
    && (f.block.Some? && g.block.Some? ==> f.block.value <= g.block.value)
    && (f.timestamp.Some? && g.timestamp.Some? ==> f.timestamp.value <= g.timestamp.value)
  }

  /** Every pair of the list is in order. */
  ghost predicate InOrder(fs: seq<Fork>)
  {
    forall i, j :: 0 <= i < j < |fs| ==> PairInOrder(fs[i], fs[j])
  }

  /** Forks by block come before forks by time, and no fork is both. */
  ghost predicate BlocksThenTimes(fs: seq<Fork>, split: nat)
  {
    && (forall i :: 0 <= i < |fs| && i < split ==> fs[i].timestamp == None)
    && (forall i :: 0 <= i < |fs| && i >= split ==> fs[i].block == None)
  }

  /** The comparison with the last kept fork. */
  function CompareForks(last: Fork, cur: Fork): (e: Option<OrderError>)
  {
    if !last.Enabled() && cur.Enabled() then
      Some(NotEnabled(last.name, cur.name))
    else if (last.block.Some? && cur.block.Some?) || (last.timestamp.Some? && cur.timestamp.Some?) then
      if last.block.Some? && cur.block.Some? && last.block.value > cur.block.value then
        Some(OutOfOrder(last.name, cur.name))
      else if last.timestamp.Some? && cur.timestamp.Some? && last.timestamp.value > cur.timestamp.value then
        Some(OutOfOrder(last.name, cur.name))
      else if last.timestamp.Some? && cur.block.Some? then
        Some(BackToBlocks(last.name, cur.name))
      else None
    else None
  }

  /** last is the last kept fork among the first i. */
  ghost predicate LastKept(fs: seq<Fork>, i: nat, last: Option<nat>)
  {
    && i <= |fs|
    && (last.Some? ==> last.value < i && fs[last.value].Kept())
    && forall p :: 0 <= p < i && (last == None || p > last.value) ==> !fs[p].Kept()
  }

  /** Comparing with the last kept fork only compares with every earlier one. */
  lemma OneComparisonSuffices(fs: seq<Fork>, split: nat, i: nat, l: nat, p: nat)
    requires BlocksThenTimes(fs, split) && i < |fs| && LastKept(fs, i, Some(l)) && InOrder(fs[..i])
    requires CompareForks(fs[l], fs[i]) == None && p < i
    ensures PairInOrder(fs[p], fs[i])
  {
    if p < l {
      assert fs[..i][p] == fs[p] && fs[..i][l] == fs[l];
      assert PairInOrder(fs[p], fs[l]);
    }
  }

  /** If both forks are scheduled, the first is not later. */
  predicate NotAfter(s1: Option<nat>, s2: Option<nat>)
  {
    s1.Some? && s2.Some? ==> s1.value <= s2.value
  }

  /** A fork at s2 comes with one at s1, no later. */
  predicate Precedes(s1: Option<nat>, s2: Option<nat>)
  {
    s2.Some? ==> s1.Some? && s1.value <= s2.value
  }

  /** The order of the official networks, in the terms of the schedule: each mandatory fork comes with
      all before it, no later; the optional ones (DAO, the glaciers, the merge, and those after
      Shanghai) come with the mandatory ones before them and are in order among themselves. */
  ghost predicate OfficialOrder(c: Config)
  {
    && Precedes(c.homestead, c.dao) && NotAfter(c.dao, c.eip150)
    && Precedes(c.homestead, c.eip150) && Precedes(c.eip150, c.eip155) && Precedes(c.eip155, c.eip158)
    && Precedes(c.eip158, c.byzantium) && Precedes(c.byzantium, c.constantinople) && Precedes(c.constantinople, c.petersburg)
    && Precedes(c.petersburg, c.istanbul) && Precedes(c.istanbul, c.muirGlacier) && NotAfter(c.muirGlacier, c.berlin)
    && Precedes(c.istanbul, c.berlin) && Precedes(c.berlin, c.london)
    && Precedes(c.london, c.arrowGlacier) && Precedes(c.london, c.grayGlacier) && Precedes(c.london, c.mergeNetsplit)
    && NotAfter(c.arrowGlacier, c.grayGlacier) && NotAfter(c.arrowGlacier, c.mergeNetsplit)
    && NotAfter(c.grayGlacier, c.mergeNetsplit)
    && (c.shanghai.Some? ==> c.london.Some?)
    && Precedes(c.shanghai, c.cancun) && Precedes(c.shanghai, c.prague) && Precedes(c.shanghai, c.verkle)
    && NotAfter(c.cancun, c.prague) && NotAfter(c.cancun, c.verkle) && NotAfter(c.prague, c.verkle)
  }

  /** The list is in order exactly if the schedule has the official order. */
  lemma OrderMeans(c: Config)
    ensures InOrder(Forks(c)) <==> OfficialOrder(c)
  {
    var fs := Forks(c);
    if InOrder(fs) {
      EarlyForksPrecede(c);
      LateForksPrecede(c);
      OptionalForks(c);
    }
    if OfficialOrder(c) {
      forall i, j | 0 <= i < j < |fs| ensures PairInOrder(fs[i], fs[j]) {
        OfficialPair(c, i, j);
      }
    }
  }

  lemma OptionalForks(c: Config)
    requires InOrder(Forks(c))
    ensures Precedes(c.homestead, c.dao) && NotAfter(c.dao, c.eip150)
    ensures Precedes(c.istanbul, c.muirGlacier) && NotAfter(c.muirGlacier, c.berlin)
    ensures Precedes(c.london, c.arrowGlacier) && Precedes(c.london, c.grayGlacier) && Precedes(c.london, c.mergeNetsplit)
    ensures NotAfter(c.arrowGlacier, c.grayGlacier) && NotAfter(c.arrowGlacier, c.mergeNetsplit)
    ensures NotAfter(c.grayGlacier, c.mergeNetsplit) && (c.shanghai.Some? ==> c.london.Some?)
    ensures NotAfter(c.cancun, c.prague) && NotAfter(c.cancun, c.verkle) && NotAfter(c.prague, c.verkle)
  {
    var fs := Forks(c);
    assert PairInOrder(fs[0], fs[1]) && PairInOrder(fs[1], fs[2]) && PairInOrder(fs[8], fs[9]) && PairInOrder(fs[9], fs[10]);
    assert PairInOrder(fs[11], fs[12]) && PairInOrder(fs[11], fs[13]) && PairInOrder(fs[11], fs[14]);
    assert PairInOrder(fs[12], fs[13]) && PairInOrder(fs[12], fs[14]) && PairInOrder(fs[13], fs[14]);
    assert PairInOrder(fs[11], fs[15]) && PairInOrder(fs[16], fs[17]) && PairInOrder(fs[16], fs[18]) && PairInOrder(fs[17], fs[18]);
  }

  lemma OfficialPair(c: Config, i: nat, j: nat)
    requires OfficialOrder(c) && i < j < |Forks(c)|
    ensures PairInOrder(Forks(c)[i], Forks(c)[j])
  {
    if j < 8 {
      OfficialEarly(c, i, j);
    } else if j < 15 {
      OfficialLate(c, i, j);
    } else {
      OfficialTimes(c, i, j);
    }
  }

  lemma OfficialEarly(c: Config, i: nat, j: nat)
    requires OfficialOrder(c) && i < j < 8
    ensures PairInOrder(Forks(c)[i], Forks(c)[j])
  {
  }

  lemma OfficialLate(c: Config, i: nat, j: nat)
    requires OfficialOrder(c) && i < j && 8 <= j < 15
    ensures PairInOrder(Forks(c)[i], Forks(c)[j])
  {
  }

  lemma OfficialTimes(c: Config, i: nat, j: nat)
    requires OfficialOrder(c) && i < j && 15 <= j < 19
    ensures PairInOrder(Forks(c)[i], Forks(c)[j])
  {
  }

  lemma TimesLast(c: Config)
    ensures BlocksThenTimes(Forks(c), 15)
  {
  }

  /** CheckConfigForkOrder succeeds exactly if every two forks, and not only neighbours, are in
      order; optional forks that are not enabled are skipped. */
  method CheckConfigForkOrder(c: Config) returns (err: Option<OrderError>)
    ensures err == None <==> InOrder(Forks(c))
    ensures err == None <==> OfficialOrder(c)
  {
    OrderMeans(c);
    TimesLast(c);
    err := CheckForks(Forks(c), 15);
  }

  /** Its loop. */
  method CheckForks(forks: seq<Fork>, ghost split: nat) returns (err: Option<OrderError>)
    requires BlocksThenTimes(forks, split)
    ensures err == None <==> InOrder(forks)
  {
    var lastFork: Option<Fork> := None;
    ghost var l: Option<nat> := None;
    for i := 0 to |forks|
      invariant LastKept(forks, i, l) && (l == None <==> lastFork == None)
      invariant l.Some? ==> lastFork == Some(forks[l.value])
      invariant InOrder(forks[..i])
    {
      var cur := forks[i];
      if lastFork.Some? {
        err := CompareForks(lastFork.value, cur);
        if err.Some? {
          assert !PairInOrder(forks[l.value], forks[i]);
          return;
        }
        forall p | 0 <= p < i ensures PairInOrder(forks[p], forks[i]) {
          OneComparisonSuffices(forks, split, i, l.value, p);
        }
      }
      if cur.Kept() {
        lastFork := Some(cur);
        l := Some(i);
      }
    }
    assert forks[..|forks|] == forks;
    err := None;
  }

  // ---- rules ------------------------------------------------------------------------------

  /** Which rules hold at a block; EIP-2929 and EIP-4762 follow from the others. */
  datatype Rules = Rules(
    chainID: nat,
    homestead: bool, eip150: bool, eip155: bool, eip158: bool,
    byzantium: bool, constantinople: bool, petersburg: bool, istanbul: bool,
    berlin: bool, eip2929: bool, london: bool, merge: bool,
    shanghai: bool, cancun: bool, prague: bool, verkle: bool, eip4762: bool)

  predicate IsPetersburg(c: Config, num: nat)
  {
    Forked(c.petersburg, num) || (c.petersburg == None && Forked(c.constantinople, num))
  }

  /** A fork by time needs London first. */
  predicate TimeForked(c: Config, s: Option<nat>, num: nat, time: nat)
  {
    Forked(c.london, num) && Forked(s, time)
  }

  function RulesAt(c: Config, num: nat, isMerge: bool, time: nat): (r: Rules)
  {
    var merge := isMerge && Forked(c.london, num);
    var verkle := merge && TimeForked(c, c.verkle, num, time);
    Rules(
      if c.chainID.Some? then c.chainID.value else 0,
      Forked(c.homestead, num), Forked(c.eip150, num), Forked(c.eip155, num), Forked(c.eip158, num),
      Forked(c.byzantium, num), Forked(c.constantinople, num), IsPetersburg(c, num), Forked(c.istanbul, num),
      Forked(c.berlin, num), Forked(c.berlin, num) && !verkle, Forked(c.london, num), merge,
      merge && TimeForked(c, c.shanghai, num, time), merge && TimeForked(c, c.cancun, num, time),
      merge && TimeForked(c, c.prague, num, time), verkle, verkle)
  }

  /** Each rule implies the mandatory ones before it. */
  predicate Nested(r: Rules)
  {
    && (r.cancun || r.prague || r.verkle ==> r.shanghai)
    && (r.shanghai ==> r.merge) && (r.merge ==> r.london)
    && (r.london ==> r.berlin) && (r.berlin ==> r.istanbul) && (r.istanbul ==> r.petersburg)
    && (r.petersburg ==> r.constantinople) && (r.constantinople ==> r.byzantium)
    && (r.byzantium ==> r.eip158) && (r.eip158 ==> r.eip155) && (r.eip155 ==> r.eip150) && (r.eip150 ==> r.homestead)
  }

  /** The mandatory forks by block, up to Petersburg, follow each other. */
  lemma EarlyForksPrecede(c: Config)
    requires InOrder(Forks(c))
    ensures Precedes(c.homestead, c.eip150) && Precedes(c.eip150, c.eip155) && Precedes(c.eip155, c.eip158)
    ensures Precedes(c.eip158, c.byzantium) && Precedes(c.byzantium, c.constantinople)
    ensures Precedes(c.constantinople, c.petersburg)
  {
    var fs := Forks(c);
    assert PairInOrder(fs[0], fs[2]) && PairInOrder(fs[2], fs[3]) && PairInOrder(fs[3], fs[4]);
    assert PairInOrder(fs[4], fs[5]) && PairInOrder(fs[5], fs[6]) && PairInOrder(fs[6], fs[7]);
  }

  /** So do those from Petersburg on, and Shanghai precedes every later fork by time. */
  lemma LateForksPrecede(c: Config)
    requires InOrder(Forks(c))
    ensures Precedes(c.petersburg, c.istanbul) && Precedes(c.istanbul, c.berlin) && Precedes(c.berlin, c.london)
    ensures Precedes(c.shanghai, c.cancun) && Precedes(c.shanghai, c.prague) && Precedes(c.shanghai, c.verkle)
  {
    var fs := Forks(c);
    assert PairInOrder(fs[7], fs[8]) && PairInOrder(fs[8], fs[10]) && PairInOrder(fs[10], fs[11]);
    assert PairInOrder(fs[15], fs[16]) && PairInOrder(fs[15], fs[17]) && PairInOrder(fs[15], fs[18]);
  }

  /** A schedule in order gives nested rules at every block, before and after the merge. */
  lemma OrderedRulesNested(c: Config, num: nat, isMerge: bool, time: nat)
    requires InOrder(Forks(c))
    ensures Nested(RulesAt(c, num, isMerge, time))
  {
    EarlyForksPrecede(c);
    LateForksPrecede(c);
  }

  /** Where the Petersburg rules start: without a fork of their own, with Constantinople. */
  function PetersburgStart(c: Config): (s: Option<nat>)
  {
    if c.petersburg.Some? then c.petersburg else c.constantinople
  }

  /** The same rules, whatever the chain ID. */
  ghost predicate Alike(r: Rules, s: Rules)
  {
    && r.homestead == s.homestead && r.eip150 == s.eip150 && r.eip155 == s.eip155 && r.eip158 == s.eip158
    && r.byzantium == s.byzantium && r.constantinople == s.constantinople && r.petersburg == s.petersburg
    && r.istanbul == s.istanbul && r.berlin == s.berlin && r.eip2929 == s.eip2929 && r.london == s.london
    && r.merge == s.merge && r.shanghai == s.shanghai && r.cancun == s.cancun && r.prague == s.prague
    && r.verkle == s.verkle && r.eip4762 == s.eip4762
  }

  /** The same rules hold at every block and time up to the head. */
  ghost predicate SameRules(c: Config, n: Config, head: nat, time: nat)
  {
    forall b: nat, m: bool, t: nat :: b <= head && t <= time ==> Alike(RulesAt(c, b, m, t), RulesAt(n, b, m, t))
  }

  /** What agreement is for: schedules that agree at a head have had the same rules all the way up to
      it, exactly if the Petersburg rules start in both at the same block or above the head. */
  lemma AgreedRules(c: Config, n: Config, head: nat, time: nat)
    requires Agree(c, n, head, time)
    ensures SameRules(c, n, head, time) <==> SameUpTo(PetersburgStart(c), PetersburgStart(n), head)
  {
    AgreeMeans(c, n, head, time);
    if SameUpTo(PetersburgStart(c), PetersburgStart(n), head) {
      forall b: nat, m: bool, t: nat | b <= head && t <= time
        ensures Alike(RulesAt(c, b, m, t), RulesAt(n, b, m, t))
      {
        RulesFollow(c, n, head, time, b, m, t);
      }
    } else {
      var b: nat :| b <= head && Forked(PetersburgStart(c), b) != Forked(PetersburgStart(n), b);
      assert !Alike(RulesAt(c, b, false, 0), RulesAt(n, b, false, 0));
    }
  }

  lemma RulesFollow(c: Config, n: Config, head: nat, time: nat, b: nat, m: bool, t: nat)
    requires SameBlocks(c, n, head) && SameTimes(c, n, time) && SameUpTo(PetersburgStart(c), PetersburgStart(n), head)
    requires b <= head && t <= time
    ensures Alike(RulesAt(c, b, m, t), RulesAt(n, b, m, t))
  {
    SameEarly(c, n, head, b);
    SameLate(c, n, head, b);
    SameTime(c, n, time, t);
    assert Forked(PetersburgStart(c), b) == Forked(PetersburgStart(n), b);
    EarlyAlike(c, n, b, m, t);
    LateAlike(c, n, b, m, t);
  }

  /** The rules depend on which forks are active, and on nothing else. */
  lemma EarlyAlike(c: Config, n: Config, b: nat, m: bool, t: nat)
    requires Forked(c.homestead, b) == Forked(n.homestead, b) && Forked(c.eip150, b) == Forked(n.eip150, b)
    requires Forked(c.eip155, b) == Forked(n.eip155, b) && Forked(c.eip158, b) == Forked(n.eip158, b)
    requires Forked(c.byzantium, b) == Forked(n.byzantium, b) && Forked(c.constantinople, b) == Forked(n.constantinople, b)
    requires Forked(PetersburgStart(c), b) == Forked(PetersburgStart(n), b) && Forked(c.istanbul, b) == Forked(n.istanbul, b)
    ensures var r, s := RulesAt(c, b, m, t), RulesAt(n, b, m, t);
            && r.homestead == s.homestead && r.eip150 == s.eip150 && r.eip155 == s.eip155 && r.eip158 == s.eip158
            && r.byzantium == s.byzantium && r.constantinople == s.constantinople && r.petersburg == s.petersburg
            && r.istanbul == s.istanbul
  {
  }

  lemma LateAlike(c: Config, n: Config, b: nat, m: bool, t: nat)
    requires Forked(c.berlin, b) == Forked(n.berlin, b) && Forked(c.london, b) == Forked(n.london, b)
    requires Forked(c.shanghai, t) == Forked(n.shanghai, t) && Forked(c.cancun, t) == Forked(n.cancun, t)
    requires Forked(c.prague, t) == Forked(n.prague, t) && Forked(c.verkle, t) == Forked(n.verkle, t)
    ensures var r, s := RulesAt(c, b, m, t), RulesAt(n, b, m, t);
            && r.berlin == s.berlin && r.eip2929 == s.eip2929 && r.london == s.london && r.merge == s.merge
            && r.shanghai == s.shanghai && r.cancun == s.cancun && r.prague == s.prague
            && r.verkle == s.verkle && r.eip4762 == s.eip4762
  {
  }

  lemma SameTime(c: Config, n: Config, time: nat, t: nat)
    requires SameTimes(c, n, time) && t <= time
    ensures Forked(c.shanghai, t) == Forked(n.shanghai, t) && Forked(c.cancun, t) == Forked(n.cancun, t)
    ensures Forked(c.prague, t) == Forked(n.prague, t) && Forked(c.verkle, t) == Forked(n.verkle, t)
  {
  }

  lemma SameEarly(c: Config, n: Config, head: nat, b: nat)
    requires SameBlocks(c, n, head) && b <= head
    ensures Forked(c.homestead, b) == Forked(n.homestead, b) && Forked(c.eip150, b) == Forked(n.eip150, b)
    ensures Forked(c.eip155, b) == Forked(n.eip155, b) && Forked(c.eip158, b) == Forked(n.eip158, b)
    ensures Forked(c.byzantium, b) == Forked(n.byzantium, b)
  {
  }

  lemma SameLate(c: Config, n: Config, head: nat, b: nat)
    requires SameBlocks(c, n, head) && b <= head
    ensures Forked(c.constantinople, b) == Forked(n.constantinople, b) && Forked(c.istanbul, b) == Forked(n.istanbul, b)
    ensures Forked(c.berlin, b) == Forked(n.berlin, b) && Forked(c.london, b) == Forked(n.london, b)
  {
  }

  /** It need not be so: if Petersburg is stored after Constantinople, a new schedule that moves it to
      Constantinople is accepted at every head, and the blocks in between had other rules. */
  lemma PetersburgMovesUnseen(c: Config, head: nat, time: nat)
    requires c.constantinople.Some? && c.petersburg.Some? && c.constantinople.value < c.petersburg.value
    ensures var n := c.(petersburg := c.constantinople);
            && Agree(c, n, head, time)
            && (c.constantinople.value <= head ==> !SameRules(c, n, head, time))
  {
    var n := c.(petersburg := c.constantinople);
    AgreeMeans(c, n, head, time);
    if c.constantinople.value <= head {
      var b := c.constantinople.value;
      AgreedRules(c, n, head, time);
      assert Forked(PetersburgStart(c), b) != Forked(PetersburgStart(n), b);
    }
  }

  /** A stored schedule in order has Petersburg in place, so CheckCompatible rewinds no further
      than it must. */
  lemma OrderedPetersburgInPlace(c: Config)
    requires InOrder(Forks(c))
    ensures PetersburgInPlace(c)
  {
    EarlyForksPrecede(c);
  }
}
