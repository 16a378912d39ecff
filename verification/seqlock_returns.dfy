/** What the retry loops of the readers return when things go wrong: a snapshot
    that retries, and a loop left at an odd counter (src/orderbook/order_book.cpp). */
module SeqlockReturns {
  import opened Types
  import opened DepthWalk
  import opened PriceLevels
  import opened BookRuns
  import opened OrderBooks
  import opened Seqlock

  // ----- snapshots that retry -----

  /** No pass found more levels on a side than the pass before it. */
  ghost predicate NeverGrew(passes: seq<Outcome>) {
    forall k :: 0 < k < |passes| && passes[k].Depth? && passes[k - 1].Depth? ==>
      |passes[k].bids| <= |passes[k - 1].bids| && |passes[k].asks| <= |passes[k - 1].asks|
  }

  ghost predicate PassInv(rd: Reader) {
    && (rd.passes != [] ==> rd.result == rd.passes[|rd.passes| - 1])
    && ((rd.pc == AtCheck || rd.pc == Returned) && rd.seen % 2 == 0 ==> rd.passes != [])
    && (rd.kind.TopLevels? ==>
         && (forall k :: 0 <= k < |rd.passes| ==> rd.passes[k].Depth?)
         && (rd.passes == [] ==> rd.roomBids == rd.roomAsks == MinNat(rd.kind.depth, TOP_LEVELS))
         && (rd.passes != [] ==>
              var last := rd.passes[|rd.passes| - 1];
              rd.roomBids == |last.bids| && rd.roomAsks == |last.asks|)
         && (rd.defined <==> NeverGrew(rd.passes)))
  }

  lemma FoundWithinDepth(depth: nat, log: seq<Value>)
    requires PassOver(TopLevels(depth), log)
    ensures var found := Found(TopLevels(depth), log);
      found.Depth? && |found.bids| <= MinNat(depth, TOP_LEVELS) && |found.asks| <= MinNat(depth, TOP_LEVELS)
  {
  }

  lemma GrewOrNot(passes: seq<Outcome>, found: Outcome)
    requires found.Depth? && forall k :: 0 <= k < |passes| ==> passes[k].Depth?
    ensures passes == [] ==> NeverGrew(passes) && NeverGrew(passes + [found])
    ensures passes != [] ==>
      var last := passes[|passes| - 1];
      NeverGrew(passes + [found]) <==> NeverGrew(passes) && |found.bids| <= |last.bids| && |found.asks| <= |last.asks|
  {
    var more, n := passes + [found], |passes|;
    if n > 0 {
      assert more[n] == found && more[n - 1] == passes[n - 1];
      if NeverGrew(more) {
        forall k | 0 < k < n
          ensures |passes[k].bids| <= |passes[k - 1].bids| && |passes[k].asks| <= |passes[k - 1].asks|
        {
          assert more[k] == passes[k] && more[k - 1] == passes[k - 1];
        }
      }
    }
  }

  lemma FetchKeepsPassInv(rd: Reader, m: Memory)
    requires PassInv(rd)
    ensures PassInv(AfterFetch(rd, m))
  {
    hide NextWord, NeverGrew;
    if NextWord(rd.kind, rd.log).None? && rd.kind.TopLevels? {
      FoundWithinDepth(rd.kind.depth, rd.log);
      hide Found;
      GrewOrNot(rd.passes, Found(rd.kind, rd.log));
    }
  }

  lemma NewPassInv(kind: Kind, started: nat)
    ensures PassInv(NewReader(kind, started))
  {
  }

  ghost predicate AllPassInv(s: State) {
    forall r :: r in s.readers ==> PassInv(s.readers[r])
  }

  lemma PerformKeepsPassInv(s: State, a: Action)
    requires AllPassInv(s) && Enabled(s, a)
    ensures AllPassInv(Perform(s, a))
  {
    hide NeverGrew, AfterFetch, NewReader, SyncWrites, Step, Fresh;
    match a
    case Call(r, kind) =>
      NewPassInv(kind, if s.versions == [] then 0 else |s.versions| - 1);
    case Fetch(r) =>
      FetchKeepsPassInv(s.readers[r], s.memory);
    case _ =>
  }

  lemma {:induction false} RunKeepsPassInv(states: seq<State>, actions: seq<Action>, i: nat)
    requires Seqlock.IsRun(states, actions) && i < |states|
    ensures AllPassInv(states[i])
  {
    hide PassInv, Perform, Enabled;
    if i > 0 {
      RunKeepsPassInv(states, actions, i - 1);
      PerformKeepsPassInv(states[i - 1], actions[i - 1]);
    }
  }

  /** In every state of every run a snapshot is still defined exactly when none
      of its passes found more levels on a side than the pass before. */
  lemma DefinedIffNeverGrew(states: seq<State>, actions: seq<Action>, i: nat, r: nat)
    requires Seqlock.IsRun(states, actions) && i < |states| && r in states[i].readers
      && states[i].readers[r].kind.TopLevels?
    ensures states[i].readers[r].defined <==> NeverGrew(states[i].readers[r].passes)
  {
    hide NeverGrew;
    RunKeepsPassInv(states, actions, i);
  }

  /** What a snapshot that leaves its loop on an even counter returns: the top
      levels of one published version, the newest at that moment, provided it is
      defined, which it is exactly if none of its passes grew. */
  lemma SnapshotReturn(states: seq<State>, actions: seq<Action>, i: nat, r: nat)
    requires Seqlock.IsRun(states, actions) && i < |actions| && actions[i] == Check(r)
    requires var rd := states[i + 1].readers[r]; rd.pc == Returned && rd.seen % 2 == 0 && rd.kind.TopLevels?
    ensures var rd, s := states[i + 1].readers[r], states[i + 1];
      && (rd.defined <==> NeverGrew(rd.passes))
      && rd.started <= rd.seen / 2 == |s.versions| - 1
      && rd.passes != [] && rd.result == rd.passes[|rd.passes| - 1] == Expected(rd.kind, s.versions[rd.seen / 2])
  {
    EvenReturnIsOneVersion(states, actions, i, r);
    RunKeepsPassInv(states, actions, i + 1);
    hide Expected, Perform, Enabled, GoodBook, NeverGrew;
    assert PassInv(states[i + 1].readers[r]);
  }

  /** So one that succeeds on its first pass is defined. */
  lemma FirstPassIsDefined(states: seq<State>, actions: seq<Action>, i: nat, r: nat)
    requires Seqlock.IsRun(states, actions) && i < |actions| && actions[i] == Check(r)
    requires var rd := states[i + 1].readers[r];
      rd.pc == Returned && rd.seen % 2 == 0 && rd.kind.TopLevels? && |rd.passes| == 1
    ensures var rd, s := states[i + 1].readers[r], states[i + 1];
      && rd.defined
      && rd.started <= rd.seen / 2 == |s.versions| - 1
      && rd.result == Expected(rd.kind, s.versions[rd.seen / 2])
  {
    hide Expected, Perform, Enabled;
    SnapshotReturn(states, actions, i, r);
  }

  // ----- reachable states -----

  ghost predicate Reachable(s: State) {
    exists states, actions :: Seqlock.IsRun(states, actions) && states[|states| - 1] == s
  }

  lemma StartReachable()
    ensures Reachable(START)
  {
    assert Seqlock.IsRun([START], []);
    assert [START][|[START]| - 1] == START;
  }

  lemma ReachNext(s: State, a: Action)
    requires Reachable(s) && Enabled(s, a)
    ensures Reachable(Perform(s, a))
  {
    hide Enabled, Perform;
    var states, actions :| Seqlock.IsRun(states, actions) && states[|states| - 1] == s;
    var states', actions' := states + [Perform(s, a)], actions + [a];
    forall i | 0 <= i < |actions'|
      ensures Enabled(states'[i], actions'[i]) && states'[i + 1] == Perform(states'[i], actions'[i])
    {
      if i < |actions| {
        assert states'[i] == states[i] && states'[i + 1] == states[i + 1];
      }
    }
    assert Seqlock.IsRun(states', actions');
    assert states'[|states'| - 1] == Perform(s, a);
  }

  /** A publishing writer can finish its stores. */
  lemma {:induction false} ReachEndOfStores(s: State) returns (s': State)
    requires Reachable(s) && s.phase.Publishing? && s.phase.pc <= |SyncWrites(s.phase.next)|
    ensures Reachable(s') && Enabled(s', End)
    ensures s' == s.(memory := s'.memory, phase := s'.phase) && s'.phase.next == s.phase.next
    decreases |SyncWrites(s.phase.next)| - s.phase.pc
  {
    hide SyncWrites, Reachable;
    if s.phase.pc == |SyncWrites(s.phase.next)| {
      s' := s;
    } else {
      ReachNext(s, Store);
      s' := ReachEndOfStores(Perform(s, Store));
    }
  }

  lemma ReachPublished(s: State, event: Event, next: BookState) returns (s': State)
    requires Reachable(s) && Enabled(s, Lock(0, event, next))
    ensures Reachable(s') && s'.phase.Free? && s'.versions == s.versions + [next] && s'.readers == s.readers
  {
    hide SyncWrites, Reachable, Step, Fresh;
    ReachNext(s, Lock(0, event, next));
    var locked := Perform(s, Lock(0, event, next));
    ReachNext(locked, Begin);
    var stored := ReachEndOfStores(Perform(locked, Begin));
    ReachNext(stored, End);
    s' := Perform(stored, End);
  }

  lemma ReachableInv(s: State)
    requires Reachable(s)
    ensures Inv(s) && AllPassInv(s) && s.versions != []
    ensures s.counter % 2 == 1 <==> s.phase.Publishing?
    ensures s.counter % 2 == 0 ==> Shows(s.memory, s.versions[|s.versions| - 1])
  {
    hide Perform, Enabled, Exec, Shows, SyncWrites, Published, GoodBook, PassInv;
    var states, actions :| Seqlock.IsRun(states, actions) && states[|states| - 1] == s;
    RunKeepsInv(states, actions, |states| - 1);
    RunKeepsPassInv(states, actions, |states| - 1);
    CounterOddWhilePublishing(states, actions, |states| - 1);
  }

  /** Reading does not change what is shared. */
  ghost predicate OnlyReaderDiffers(s: State, s': State, r: nat, rd: Reader) {
    s' == s.(readers := s.readers[r := rd])
  }

  lemma Does(s: State, a: Action) returns (s': State)
    requires Reachable(s) && Enabled(s, a)
    ensures Reachable(s') && s' == Perform(s, a)
  {
    hide Reachable, Enabled, Perform;
    ReachNext(s, a);
    s' := Perform(s, a);
  }

  lemma DoesCall(s: State, r: nat, kind: Kind) returns (s': State)
    requires Reachable(s) && s.versions != [] && (r in s.readers ==> s.readers[r].pc == Returned)
    ensures Reachable(s') && OnlyReaderDiffers(s, s', r, NewReader(kind, |s.versions| - 1))
  {
    hide Reachable;
    s' := Does(s, Call(r, kind));
  }

  lemma DoesLoad(s: State, r: nat) returns (s': State)
    requires Reachable(s) && r in s.readers && s.readers[r].pc == AtLoad
    ensures Reachable(s') && OnlyReaderDiffers(s, s', r, AfterLoad(s.readers[r], s.counter))
  {
    hide Reachable;
    s' := Does(s, Load(r));
  }

  lemma DoesFetch(s: State, r: nat) returns (s': State)
    requires Reachable(s) && r in s.readers && s.readers[r].pc == AtPass
    ensures Reachable(s') && OnlyReaderDiffers(s, s', r, AfterFetch(s.readers[r], s.memory))
  {
    hide Reachable, AfterFetch;
    s' := Does(s, Fetch(r));
  }

  lemma DoesCheck(s: State, r: nat) returns (s': State)
    requires Reachable(s) && r in s.readers && s.readers[r].pc == AtCheck
    ensures Reachable(s') && OnlyReaderDiffers(s, s', r, AfterCheck(s.readers[r], s.counter))
  {
    hide Reachable;
    s' := Does(s, Check(r));
  }

  // ----- a retry that finds more -----

  lemma PassEnds(kind: Kind, log: seq<Value>)
    ensures NextWord(kind, log).Some? ==> |log| < 2 + 4 * TOP_LEVELS
  {
  }

  /** A reader can finish its pass while nothing is stored. */
  lemma {:induction false} DoesPass(s: State, r: nat) returns (s': State)
    requires Reachable(s) && r in s.readers && s.readers[r].pc == AtPass
    requires LogOf(s.readers[r].kind, s.readers[r].log, s.memory)
    ensures Reachable(s') && r in s'.readers && OnlyReaderDiffers(s, s', r, s'.readers[r])
    ensures var rd, rd' := s.readers[r], s'.readers[r];
      && rd'.kind == rd.kind && rd'.seen == rd.seen && rd'.pc == AtCheck
      && rd'.passes == rd.passes + [rd'.result]
      && LogOf(rd.kind, rd'.log, s.memory) && PassOver(rd.kind, rd'.log) && rd'.result == Found(rd.kind, rd'.log)
    decreases 2 + 4 * TOP_LEVELS - |s.readers[r].log|
  {
    hide Reachable, NextWord, Found, LogOf;
    var rd := s.readers[r];
    var s1 := DoesFetch(s, r);
    if NextWord(rd.kind, rd.log).Some? {
      PassEnds(rd.kind, rd.log);
      LogGrows(rd.kind, rd.log, s.memory);
      s' := DoesPass(s1, r);
    } else {
      s' := s1;
    }
  }

  /** While nothing is stored, a new pass at an even counter finds the newest version. */
  lemma DoesGoodPass(s: State, r: nat, newest: BookState) returns (s': State)
    requires Reachable(s) && r in s.readers && s.readers[r].pc == AtLoad
    requires s.counter % 2 == 0 && Shows(s.memory, newest)
    ensures Reachable(s') && r in s'.readers && OnlyReaderDiffers(s, s', r, s'.readers[r])
    ensures var rd, rd' := s.readers[r], s'.readers[r];
      && rd'.kind == rd.kind && rd'.seen == s.counter && rd'.pc == AtCheck
      && rd'.result == Expected(rd.kind, newest) && rd'.passes == rd.passes + [rd'.result]
  {
    hide Reachable, NextWord, Found, Shows, Expected;
    var s1 := DoesLoad(s, r);
    s' := DoesPass(s1, r);
    PassFinds(s.readers[r].kind, s'.readers[r].log, s.memory, newest);
  }

  /** Publishing a bid between two passes of a snapshot makes the second one copy
      past the vectors the first one shrank, and the loop is left all the same. */
  lemma RetryCanBeUndefined() returns (s: State, r: nat)
    ensures Reachable(s) && r in s.readers && s.readers[r].kind.TopLevels?
    ensures s.readers[r].pc == Returned && s.readers[r].seen % 2 == 0 && !s.readers[r].defined
  {
    hide Reachable, SyncWrites, Shows, NeverGrew, Step;
    r := 7;
    var levels := [PriceLevel(100.0, 1.0)];
    var one := BookState(levels, [], 1);
    StartReachable();
    ReachableInv(START);
    var s1 := DoesCall(START, r, TopLevels(20));
    var s2 := DoesGoodPass(s1, r, EMPTY_BOOK);
    FirstSnapshot(levels);
    var s3 := ReachPublished(s2, Snapshot(levels, [], 1), one);
    ReachableInv(s3);
    var s4 := DoesCheck(s3, r);
    var s5 := DoesGoodPass(s4, r, one);
    s := DoesCheck(s5, r);
    ReachableInv(s);
    SecondGrew([s2.readers[r].result, s5.readers[r].result]);
    assert s.readers[r].passes == [s2.readers[r].result, s5.readers[r].result];
  }

  lemma SecondGrew(passes: seq<Outcome>)
    requires |passes| == 2 && passes[0].Depth? && passes[1].Depth? && |passes[0].bids| < |passes[1].bids|
    ensures !NeverGrew(passes)
  {
    assert !(|passes[1].bids| <= |passes[1 - 1].bids|);
  }

  lemma FirstSnapshot(levels: seq<PriceLevel>)
    requires levels == [PriceLevel(100.0, 1.0)]
    ensures Step(EMPTY_BOOK, Snapshot(levels, [], 1), BookState(levels, [], 1))
  {
    assert KeepPositive(levels) == levels && KeepPositive([]) == [];
  }

  // ----- returns at an odd counter -----

  /** Nothing of the shared state is stored between the states i and j, and the call is not repeated. */
  ghost predicate Undisturbed(actions: seq<Action>, i: nat, j: nat, r: nat)
    requires i < j <= |actions|
  {
    forall k :: i < k < j ==>
      !actions[k].Begin? && !actions[k].Store? && !actions[k].End? && !(actions[k].Call? && actions[k].r == r)
  }

  lemma {:induction false} UndisturbedInv(states: seq<State>, actions: seq<Action>, i: nat, j: nat, r: nat, bid: bool)
    requires Seqlock.IsRun(states, actions) && i < j <= |actions| && actions[i] == Call(r, Best(bid))
      && Undisturbed(actions, i, j, r)
    ensures var s, s' := states[i], states[j];
      && s'.counter == s.counter && s'.versions == s.versions && s'.memory == s.memory
      && (s'.phase.Publishing? <==> s.phase.Publishing?) && r in s'.readers
      && var rd := s'.readers[r];
      && rd.kind == Best(bid) && (rd.pc != AtLoad ==> rd.seen == s.counter)
      && (s.counter % 2 == 1 ==> rd.pc != AtPass && rd.result == Top(None))
    decreases j
  {
    hide SyncWrites, Step, Fresh, Found, NextWord;
    if j > i + 1 {
      UndisturbedInv(states, actions, i, j - 1, r, bid);
    }
    assert states[j] == Perform(states[j - 1], actions[j - 1]) && Enabled(states[j - 1], actions[j - 1]);
  }

  /** A best_bid or best_ask call during which nothing is stored returns the best
      price of the newest version exactly when no writer is in the middle of
      publishing or that version has an empty side. */
  lemma UndisturbedCallIsRightIff(states: seq<State>, actions: seq<Action>, i: nat, j: nat, r: nat, bid: bool)
    requires Seqlock.IsRun(states, actions) && i < j <= |actions| && actions[i] == Call(r, Best(bid))
      && Undisturbed(actions, i, j, r)
    requires r in states[j].readers && states[j].readers[r].pc == Returned
    ensures states[i].versions != []
    ensures var newest := states[i].versions[|states[i].versions| - 1];
      (states[j].readers[r].result == Expected(Best(bid), newest))
        <==> (!states[i].phase.Publishing? || Levels(newest, bid) == [])
  {
    hide SyncWrites, Step, Fresh, Shows, GoodBook, Published, Exec, LogOf;
    UndisturbedInv(states, actions, i, j, r, bid);
    CounterOddWhilePublishing(states, actions, i);
    RunKeepsInv(states, actions, j);
    hide Perform, Enabled, Undisturbed;
  }

  /** From every reachable state in which a writer is publishing, a new call can
      return nothing, whatever the book holds. */
  lemma PublishingCallReturnsNothing(s: State, r: nat, bid: bool) returns (s': State)
    requires Reachable(s) && s.phase.Publishing? && (r in s.readers ==> s.readers[r].pc == Returned)
    ensures Reachable(s') && r in s'.readers && OnlyReaderDiffers(s, s', r, s'.readers[r])
    ensures s'.readers[r].kind == Best(bid) && s'.readers[r].pc == Returned && s'.readers[r].result == Top(None)
    ensures s.versions != [] && s'.readers[r].started == |s.versions| - 1
  {
    hide Reachable, SyncWrites, Inv, AllPassInv, Shows, Exec;
    ReachableInv(s);
    var s1 := DoesCall(s, r, Best(bid));
    var s2 := DoesLoad(s1, r);
    s' := DoesCheck(s2, r);
  }

  /** So best_bid can return nothing although every version since its call has bids. */
  lemma OddReturnMissesBook()
    ensures exists s: State, r ::
      && Reachable(s) && r in s.readers && s.readers[r].kind == Best(true)
      && s.readers[r].pc == Returned && s.readers[r].result == Top(None)
      && forall k :: s.readers[r].started <= k < |s.versions| ==> s.versions[k].bids != []
  {
    hide Reachable, SyncWrites, Step;
    var levels := [PriceLevel(100.0, 1.0)];
    var one, two := BookState(levels, [], 1), BookState(levels, [], 2);
    StartReachable();
    FirstSnapshot(levels);
    var s1 := ReachPublished(START, Snapshot(levels, [], 1), one);
    SecondSnapshot(levels);
    var s2 := Does(s1, Lock(0, Snapshot(levels, [], 2), two));
    var s3 := Does(s2, Begin);
    var s4 := PublishingCallReturnsNothing(s3, 7, true);
    assert s4.readers[7].started == 1 && s4.versions == [EMPTY_BOOK, one];
  }

  lemma SecondSnapshot(levels: seq<PriceLevel>)
    requires levels == [PriceLevel(100.0, 1.0)]
    ensures Step(BookState(levels, [], 1), Snapshot(levels, [], 2), BookState(levels, [], 2))
  {
    assert KeepPositive(levels) == levels && KeepPositive([]) == [];
  }

  ghost predicate HasBidAt(s: BookState, price: real) {
    exists i :: 0 <= i < |s.bids| && s.bids[i].price == price
  }

  /** A call can even return a price that no version ever had: here 0, read
      between the store of the new count and the store of the first price. */
  lemma OddReturnInventsPrice() returns (s: State, r: nat)
    ensures Reachable(s) && r in s.readers && s.readers[r].kind == Best(true)
    ensures s.readers[r].pc == Returned && s.readers[r].result == Top(Some(0.0))
    ensures s.phase.Publishing? && !HasBidAt(s.phase.next, 0.0)
    ensures forall k :: 0 <= k < |s.versions| ==> !HasBidAt(s.versions[k], 0.0)
  {
    hide Reachable, SyncWrites;
    r := 7;
    StartReachable();
    var s1 := DoesCall(START, r, Best(true));
    var s2 := DoesLoad(s1, r);
    var s3 := CountStored(s2);
    var s4 := DoesFetch(s3, r);
    var s5 := DoesFetch(s4, r);
    var s6 := DoesFetch(s5, r);
    var s7 := DoesCheck(s6, r);
    var s8 := DoesLoad(s7, r);
    s := DoesCheck(s8, r);
  }

  /** A writer publishing a first bid has stored the new count and nothing else yet. */
  lemma CountStored(s: State) returns (s': State)
    requires Reachable(s) && s == START.(readers := s.readers)
    ensures Reachable(s') && s'.counter == 1 && s'.memory == map[Num(true) := Count(1)]
    ensures s'.versions == s.versions && s'.readers == s.readers
    ensures s'.phase == Publishing(0, BookState([PriceLevel(100.0, 1.0)], [], 1), 1)
  {
    hide Reachable, Step;
    var levels := [PriceLevel(100.0, 1.0)];
    var one := BookState(levels, [], 1);
    FirstSnapshot(levels);
    var s1 := Does(s, Lock(0, Snapshot(levels, [], 1), one));
    var s2 := Does(s1, Begin);
    FirstStoreIsCount(one);
    hide SyncWrites;
    s' := Does(s2, Store);
  }

  lemma FirstStoreIsCount(s: BookState)
    ensures |SyncWrites(s)| > 0 && SyncWrites(s)[0] == Write(Num(true), Count(TopCount(s, true)))
  {
  }
}
