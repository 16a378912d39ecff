/** The seqlock between mutex-serialised writers and lock-free readers of one
    order book (src/orderbook/order_book.cpp), one load or store per step.
    Memory is sequentially consistent and the counter does not wrap. */
module Seqlock {
  import opened Types
  import opened DepthWalk
  import opened PriceLevels
  import opened BookRuns
  import opened OrderBooks

  // ----- the shared words -----

  /** The words of top_bids_ and top_asks_ and their counts. */
  datatype Word = Num(bid: bool) | Price(bid: bool, i: nat) | Quantity(bid: bool, i: nat)

  datatype Value = Count(n: nat) | Number(x: real)

  type Memory = map<Word, Value>

  function Read(m: Memory, w: Word): Value {
    if w in m then m[w] else if w.Num? then Count(0) else Number(0.0)
  }

  function AsCount(v: Value): nat {
    if v.Count? then v.n else 0
  }

  function AsNumber(v: Value): real {
    if v.Number? then v.x else 0.0
  }

  datatype Write = Write(word: Word, value: Value)

  function Levels(s: BookState, bid: bool): seq<PriceLevel> {
    if bid then s.bids else s.asks
  }

  function TopCount(s: BookState, bid: bool): nat {
    MinNat(TOP_LEVELS, |Levels(s, bid)|)
  }

  function LevelWrites(bid: bool, levels: seq<PriceLevel>, n: nat): seq<Write>
    requires n <= |levels|
  {
    if n == 0 then [] else LevelWrites(bid, levels, n - 1) + OneLevel(bid, n - 1, levels[n - 1])
  }

  function OneLevel(bid: bool, i: nat, level: PriceLevel): seq<Write> {
    [Write(Price(bid, i), Number(level.price)), Write(Quantity(bid, i), Number(level.quantity))]
  }

  /** The stores of sync_top_levels in program order. */
  function SyncWrites(s: BookState): seq<Write> {
    [Write(Num(true), Count(TopCount(s, true)))] + LevelWrites(true, s.bids, TopCount(s, true))
    + [Write(Num(false), Count(TopCount(s, false)))] + LevelWrites(false, s.asks, TopCount(s, false))
  }

  function Exec(m: Memory, ws: seq<Write>): Memory
    decreases |ws|
  {
    if ws == [] then m
    else Exec(m, ws[..|ws| - 1])[ws[|ws| - 1].word := ws[|ws| - 1].value]
  }

  ghost predicate SideMatches(m: Memory, bid: bool, s: BookState) {
    && Read(m, Num(bid)) == Count(TopCount(s, bid))
    && forall i :: 0 <= i < TopCount(s, bid) ==>
      Read(m, Price(bid, i)) == Number(Levels(s, bid)[i].price)
      && Read(m, Quantity(bid, i)) == Number(Levels(s, bid)[i].quantity)
  }

  /** The memory shows the top of the version. */
  ghost predicate Shows(m: Memory, s: BookState) {
    SideMatches(m, true, s) && SideMatches(m, false, s)
  }

  lemma {:induction false} ExecConcat(m: Memory, a: seq<Write>, b: seq<Write>)
    ensures Exec(m, a + b) == Exec(Exec(m, a), b)
    decreases |b|
  {
    if b == [] {
      assert a + b == a;
    } else {
      assert (a + b)[..|a + b| - 1] == a + b[..|b| - 1];
      ExecConcat(m, a, b[..|b| - 1]);
    }
  }

  /** The stores of n levels set their words and touch nothing of the other side or the counts. */
  ghost predicate LevelsStored(m: Memory, m': Memory, bid: bool, levels: seq<PriceLevel>, n: nat)
    requires n <= |levels|
  {
    && (forall i :: 0 <= i < n ==>
         Read(m', Price(bid, i)) == Number(levels[i].price) && Read(m', Quantity(bid, i)) == Number(levels[i].quantity))
    && (forall w: Word :: w.Num? || w.bid != bid ==> Read(m', w) == Read(m, w))
  }

  lemma {:induction false} ExecLevels(m: Memory, bid: bool, levels: seq<PriceLevel>, n: nat)
    requires n <= |levels|
    ensures LevelsStored(m, Exec(m, LevelWrites(bid, levels, n)), bid, levels, n)
  {
    hide Exec, OneLevel, LevelsStored;
    if n == 0 {
      ExecNothing(m, LevelWrites(bid, levels, 0));
      assert LevelWrites(bid, levels, 0)[..0] == [];
      NothingStored(m, bid, levels);
    } else {
      ExecLevels(m, bid, levels, n - 1);
      ExecConcat(m, LevelWrites(bid, levels, n - 1), OneLevel(bid, n - 1, levels[n - 1]));
      ExecTwo(Exec(m, LevelWrites(bid, levels, n - 1)), bid, n - 1, levels[n - 1]);
      OneMoreStored(m, Exec(m, LevelWrites(bid, levels, n - 1)), bid, levels, n);
    }
  }

  lemma NothingStored(m: Memory, bid: bool, levels: seq<PriceLevel>)
    ensures LevelsStored(m, m, bid, levels, 0)
  {
  }

  lemma OneMoreStored(m: Memory, m': Memory, bid: bool, levels: seq<PriceLevel>, n: nat)
    requires 0 < n <= |levels| && LevelsStored(m, m', bid, levels, n - 1)
    ensures LevelsStored(m, m'[Price(bid, n - 1) := Number(levels[n - 1].price)]
                              [Quantity(bid, n - 1) := Number(levels[n - 1].quantity)], bid, levels, n)
  {
  }

  lemma ExecTwo(m: Memory, bid: bool, i: nat, level: PriceLevel)
    ensures Exec(m, OneLevel(bid, i, level))
         == m[Price(bid, i) := Number(level.price)][Quantity(bid, i) := Number(level.quantity)]
  {
    var ws := OneLevel(bid, i, level);
    assert ws[..1] == [ws[0]];
    ExecOne(m, ws[0]);
  }

  lemma ExecOne(m: Memory, w: Write)
    ensures Exec(m, [w]) == m[w.word := w.value]
  {
    assert [w][..0] == [];
  }

  /** All the stores together make the memory show the version, whatever it held. */
  lemma SyncShows(m: Memory, s: BookState)
    ensures Shows(Exec(m, SyncWrites(s)), s)
  {
    hide Exec, LevelWrites;
    var nb, na := TopCount(s, true), TopCount(s, false);
    var a, b := Write(Num(true), Count(nb)), Write(Num(false), Count(na));
    var la, lb := LevelWrites(true, s.bids, nb), LevelWrites(false, s.asks, na);
    ExecOne(m, a);
    ExecConcat(m, [a], la);
    ExecLevels(Exec(m, [a]), true, s.bids, nb);
    ExecConcat(m, [a] + la, [b]);
    ExecOne(Exec(m, [a] + la), b);
    ExecConcat(m, [a] + la + [b], lb);
    ExecLevels(Exec(m, [a] + la + [b]), false, s.asks, na);
  }

  // ----- readers -----

  datatype Kind = Best(bid: bool) | TopLevels(depth: nat)

  datatype Outcome = Top(price: Option<real>) | Depth(bids: seq<PriceLevel>, asks: seq<PriceLevel>)

  /** How many levels a snapshot pass copies, given the count word it read. */
  function Copied(depth: nat, count: Value): nat {
    MinNat(MinNat(depth, TOP_LEVELS), AsCount(count))
  }

  function LevelWord(bid: bool, k: nat): Word {
    if k % 2 == 0 then Price(bid, k / 2) else Quantity(bid, k / 2)
  }

  /** The next word a pass loads after the values in `log`, or none when the pass is over. */
  function NextWord(kind: Kind, log: seq<Value>): Option<Word> {
    match kind
    case Best(bid) =>
      if |log| == 0 then Some(Num(bid))
      else if |log| == 1 && AsCount(log[0]) > 0 then Some(Price(bid, 0))
      else None
    case TopLevels(depth) =>
      if |log| == 0 then Some(Num(true))
      else
        var nb := Copied(depth, log[0]);
        if |log| <= 2 * nb then Some(LevelWord(true, |log| - 1))
        else if |log| == 2 * nb + 1 then Some(Num(false))
        else
          var na := Copied(depth, log[2 * nb + 1]);
          if |log| < 2 * nb + 2 + 2 * na then Some(LevelWord(false, |log| - 2 * nb - 2)) else None
  }

  function LoggedLevels(log: seq<Value>, start: nat, n: nat): seq<PriceLevel>
    requires start + 2 * n <= |log|
  {
    seq(n, i requires 0 <= i < n => PriceLevel(AsNumber(log[start + 2 * i]), AsNumber(log[start + 2 * i + 1])))
  }

  ghost predicate PassOver(kind: Kind, log: seq<Value>) {
    NextWord(kind, log).None?
  }

  /** What a finished pass has found. */
  function Found(kind: Kind, log: seq<Value>): Outcome
    requires NextWord(kind, log).None?
  {
    match kind
    case Best(_) => Top(if |log| >= 2 then Some(AsNumber(log[1])) else None)
    case TopLevels(depth) =>
      var nb := Copied(depth, log[0]);
      var na := Copied(depth, log[2 * nb + 1]);
      Depth(LoggedLevels(log, 1, nb), LoggedLevels(log, 2 * nb + 2, na))
  }

  /** What the read should return of a version. */
  ghost function Expected(kind: Kind, s: BookState): Outcome {
    match kind
    case Best(bid) => Top(if |Levels(s, bid)| > 0 then Some(Levels(s, bid)[0].price) else None)
    case TopLevels(depth) =>
      var d := MinNat(depth, 20);
      Depth(s.bids[..MinNat(d, |s.bids|)], s.asks[..MinNat(d, |s.asks|)])
  }

  /** Every value in the log is the one memory `m` holds for the word loaded. */
  ghost predicate LogOf(kind: Kind, log: seq<Value>, m: Memory) {
    forall j :: 0 <= j < |log| ==>
      NextWord(kind, log[..j]).Some? && log[j] == Read(m, NextWord(kind, log[..j]).value)
  }

  lemma LogGrows(kind: Kind, log: seq<Value>, m: Memory)
    requires LogOf(kind, log, m) && NextWord(kind, log).Some?
    ensures LogOf(kind, log + [Read(m, NextWord(kind, log).value)], m)
  {
    var log' := log + [Read(m, NextWord(kind, log).value)];
    forall j | 0 <= j < |log'|
      ensures NextWord(kind, log'[..j]).Some? && log'[j] == Read(m, NextWord(kind, log'[..j]).value)
    {
      assert log'[..j] == log[..j];
      assert log[..|log|] == log;
    }
  }

  lemma LoggedWord(kind: Kind, log: seq<Value>, m: Memory, j: nat, w: Word)
    requires LogOf(kind, log, m) && j < |log| && NextWord(kind, log[..j]) == Some(w)
    ensures log[j] == Read(m, w)
  {
  }

  /** A finished pass over a memory that shows a version has found that version. */
  lemma PassFinds(kind: Kind, log: seq<Value>, m: Memory, s: BookState)
    requires LogOf(kind, log, m) && PassOver(kind, log) && Shows(m, s)
    ensures Found(kind, log) == Expected(kind, s)
  {
    match kind
    case Best(bid) =>
      LoggedWord(kind, log, m, 0, Num(bid));
      if |log| >= 2 {
        assert log[..1][0] == log[0];
        LoggedWord(kind, log, m, 1, Price(bid, 0));
      }
    case TopLevels(depth) =>
      SnapshotPassFinds(depth, log, m, s);
  }

  lemma SnapshotPassFinds(depth: nat, log: seq<Value>, m: Memory, s: BookState)
    requires LogOf(TopLevels(depth), log, m) && PassOver(TopLevels(depth), log) && Shows(m, s)
    ensures Found(TopLevels(depth), log) == Expected(TopLevels(depth), s)
  {
    hide LogOf, LevelWord, NextWord;
    var d := MinNat(depth, TOP_LEVELS);
    CountsLogged(depth, log, m);
    var nb := Copied(depth, log[0]);
    var na := Copied(depth, log[2 * nb + 1]);
    BidsLogged(depth, log, m, s, nb);
    AsksLogged(depth, log, m, s, nb, na);
  }

  lemma BidsLogged(depth: nat, log: seq<Value>, m: Memory, s: BookState, nb: nat)
    requires LogOf(TopLevels(depth), log, m) && PassOver(TopLevels(depth), log) && Shows(m, s)
    requires nb == Copied(depth, log[0]) <= TopCount(s, true) && 1 + 2 * nb <= |log|
    ensures LoggedLevels(log, 1, nb) == s.bids[..nb]
  {
    hide LogOf, LevelWord, NextWord;
    forall i | 0 <= i < nb ensures LoggedLevels(log, 1, nb)[i] == s.bids[i] {
      BidWordLogged(depth, log, m, 2 * i);
      BidWordLogged(depth, log, m, 2 * i + 1);
      LevelWords(true, i);
    }
  }

  lemma AsksLogged(depth: nat, log: seq<Value>, m: Memory, s: BookState, nb: nat, na: nat)
    requires LogOf(TopLevels(depth), log, m) && PassOver(TopLevels(depth), log) && Shows(m, s)
    requires nb == Copied(depth, log[0]) && 2 * nb + 2 + 2 * na <= |log|
    requires na == Copied(depth, log[2 * nb + 1]) <= TopCount(s, false)
    ensures LoggedLevels(log, 2 * nb + 2, na) == s.asks[..na]
  {
    hide LogOf, LevelWord, NextWord;
    forall i | 0 <= i < na ensures LoggedLevels(log, 2 * nb + 2, na)[i] == s.asks[i] {
      AskWordLogged(depth, log, m, nb, 2 * i);
      AskWordLogged(depth, log, m, nb, 2 * i + 1);
      LevelWords(false, i);
    }
  }

  lemma CountsLogged(depth: nat, log: seq<Value>, m: Memory)
    requires LogOf(TopLevels(depth), log, m) && PassOver(TopLevels(depth), log)
    ensures log != [] && log[0] == Read(m, Num(true))
    ensures 2 * Copied(depth, log[0]) + 1 < |log|
    ensures |log| >= 2 * Copied(depth, log[0]) + 2 + 2 * Copied(depth, log[2 * Copied(depth, log[0]) + 1])
    ensures log[2 * Copied(depth, log[0]) + 1] == Read(m, Num(false))
  {
    var kind, nb := TopLevels(depth), Copied(depth, log[0]);
    LoggedWord(kind, log, m, 0, Num(true));
    assert log[..2 * nb + 1][0] == log[0];
    LoggedWord(kind, log, m, 2 * nb + 1, Num(false));
  }

  lemma BidWordLogged(depth: nat, log: seq<Value>, m: Memory, k: nat)
    requires LogOf(TopLevels(depth), log, m) && PassOver(TopLevels(depth), log)
    requires k < 2 * Copied(depth, log[0])
    ensures k + 1 < |log| && log[k + 1] == Read(m, LevelWord(true, k))
  {
    hide LevelWord;
    assert log[..k + 1][0] == log[0];
    LoggedWord(TopLevels(depth), log, m, k + 1, LevelWord(true, k));
  }

  lemma AskWordLogged(depth: nat, log: seq<Value>, m: Memory, nb: nat, k: nat)
    requires LogOf(TopLevels(depth), log, m) && PassOver(TopLevels(depth), log)
    requires nb == Copied(depth, log[0])
    requires k < 2 * Copied(depth, log[2 * nb + 1])
    ensures 2 * nb + 2 + k < |log| && log[2 * nb + 2 + k] == Read(m, LevelWord(false, k))
  {
    hide LevelWord;
    var before := log[..2 * nb + 2 + k];
    assert before[0] == log[0] && before[2 * nb + 1] == log[2 * nb + 1];
    LoggedWord(TopLevels(depth), log, m, 2 * nb + 2 + k, LevelWord(false, k));
  }

  lemma LevelWords(bid: bool, i: nat)
    ensures LevelWord(bid, 2 * i) == Price(bid, i) && LevelWord(bid, 2 * i + 1) == Quantity(bid, i)
  {
  }

  // ----- the protocol -----

  datatype Phase =
    | Free
    | Editing(writer: nat, next: BookState)
    | Publishing(writer: nat, next: BookState, pc: nat)

  datatype ReaderPc = AtLoad | AtPass | AtCheck | Returned

  /** `seen` is the counter value last loaded, `passes` what each finished pass
      found and `result` what the last one did. `roomBids` and `roomAsks` are the
      lengths of a snapshot's vectors, which every pass shrinks; copying beyond
      them is undefined and clears `defined`. `started` is the newest version
      when the call began. */
  datatype Reader = Reader(kind: Kind, pc: ReaderPc, seen: nat, log: seq<Value>, result: Outcome, passes: seq<Outcome>,
                           roomBids: nat, roomAsks: nat, defined: bool, started: nat)

  /** `versions` lists every published version, oldest first, and `images` the
      memory each left behind. */
  datatype State = State(counter: nat, memory: Memory, phase: Phase, readers: map<nat, Reader>,
                         versions: seq<BookState>, images: seq<Memory>)

  datatype Action =
    | Lock(writer: nat, event: Event, next: BookState)
    | Begin
    | Store
    | End
    | Call(r: nat, kind: Kind)
    | Load(r: nat)
    | Fetch(r: nat)
    | Check(r: nat)

  const START := State(0, map[], Free, map[], [EMPTY_BOOK], [map[]])

  ghost predicate Fresh(s: BookState, e: Event) {
    e.Update? ==> !Stale(s, e.delta)
  }

  ghost predicate Enabled(s: State, a: Action) {
    match a
    case Lock(_, e, next) =>
      s.phase.Free? && s.versions != [] && Fresh(s.versions[|s.versions| - 1], e)
      && Step(s.versions[|s.versions| - 1], e, next)
    case Begin => s.phase.Editing?
    case Store => s.phase.Publishing? && s.phase.pc < |SyncWrites(s.phase.next)|
    case End => s.phase.Publishing? && s.phase.pc == |SyncWrites(s.phase.next)|
    case Call(r, _) => r in s.readers ==> s.readers[r].pc == Returned
    case Load(r) => r in s.readers && s.readers[r].pc == AtLoad
    case Fetch(r) => r in s.readers && s.readers[r].pc == AtPass
    case Check(r) => r in s.readers && s.readers[r].pc == AtCheck
  }

  function NewReader(kind: Kind, started: nat): Reader {
    var room := if kind.TopLevels? then MinNat(kind.depth, TOP_LEVELS) else 0;
    Reader(kind, AtLoad, 0, [], if kind.Best? then Top(None) else Depth([], []), [], room, room, true, started)
  }

  /** An odd counter skips the pass and goes straight to the loop test. */
  function AfterLoad(rd: Reader, counter: nat): Reader {
    if counter % 2 == 1 then rd.(seen := counter, pc := AtCheck)
    else rd.(seen := counter, pc := AtPass, log := [])
  }

  function AfterFetch(rd: Reader, m: Memory): Reader {
    match NextWord(rd.kind, rd.log)
    case Some(w) => rd.(log := rd.log + [Read(m, w)])
    case None =>
      var found := Found(rd.kind, rd.log);
      var done := rd.(result := found, passes := rd.passes + [found], pc := AtCheck);
      if found.Top? then done
      else done.(defined := rd.defined && |found.bids| <= rd.roomBids && |found.asks| <= rd.roomAsks,
                 roomBids := |found.bids|, roomAsks := |found.asks|)
  }

  function AfterCheck(rd: Reader, counter: nat): Reader {
    rd.(pc := if counter == rd.seen then Returned else AtLoad)
  }

  ghost function Perform(s: State, a: Action): State
    requires Enabled(s, a)
  {
    match a
    case Lock(w, _, next) => s.(phase := Editing(w, next))
    case Begin => s.(counter := s.counter + 1, phase := Publishing(s.phase.writer, s.phase.next, 0))
    case Store =>
      var w := SyncWrites(s.phase.next)[s.phase.pc];
      s.(memory := s.memory[w.word := w.value],
         phase := Publishing(s.phase.writer, s.phase.next, s.phase.pc + 1))
    case End =>
      s.(counter := s.counter + 1, phase := Free,
         versions := s.versions + [s.phase.next], images := s.images + [s.memory])
    case Call(r, kind) =>
      var newest := if s.versions == [] then 0 else |s.versions| - 1;
      s.(readers := s.readers[r := NewReader(kind, newest)])
    case Load(r) => s.(readers := s.readers[r := AfterLoad(s.readers[r], s.counter)])
    case Fetch(r) => s.(readers := s.readers[r := AfterFetch(s.readers[r], s.memory)])
    case Check(r) => s.(readers := s.readers[r := AfterCheck(s.readers[r], s.counter)])
  }

  ghost predicate IsRun(states: seq<State>, actions: seq<Action>) {
    && |states| == |actions| + 1 && states[0] == START
    && forall i :: 0 <= i < |actions| ==>
      Enabled(states[i], actions[i]) && states[i + 1] == Perform(states[i], actions[i])
  }

  // ----- the invariant -----

  ghost predicate Published(s: BookState, s': BookState) {
    exists e :: Fresh(s, e) && Step(s, e, s')
  }

  ghost predicate WriterInv(s: State) {
    && |s.images| == |s.versions| > 0
    && s.versions[0] == EMPTY_BOOK
    && (forall k :: 0 <= k < |s.versions| ==> GoodBook(s.versions[k]) && Shows(s.images[k], s.versions[k]))
    && (forall k :: 0 < k < |s.versions| ==> Published(s.versions[k - 1], s.versions[k]))
    && s.counter == 2 * (|s.versions| - 1) + (if s.phase.Publishing? then 1 else 0)
    && (s.phase.Publishing? ==>
         && s.phase.pc <= |SyncWrites(s.phase.next)|
         && s.memory == Exec(s.images[|s.images| - 1], SyncWrites(s.phase.next)[..s.phase.pc]))
    && (!s.phase.Publishing? ==> s.memory == s.images[|s.images| - 1])
    && (!s.phase.Free? ==> Published(s.versions[|s.versions| - 1], s.phase.next))
  }

  /** A pass begun at an even counter has read one image only, as long as the counter has not moved. */
  ghost predicate ReaderInv(s: State, rd: Reader)
    requires |s.images| == |s.versions|
  {
    && rd.started < |s.versions|
    && rd.seen <= s.counter
    && (rd.pc != AtLoad && rd.seen % 2 == 0 ==> rd.started <= rd.seen / 2 < |s.versions|)
    && (rd.pc == AtPass ==> rd.seen % 2 == 0)
    && (rd.pc == AtPass && rd.seen == s.counter ==> LogOf(rd.kind, rd.log, s.images[rd.seen / 2]))
    && (rd.pc == AtCheck && rd.seen % 2 == 0 && rd.seen == s.counter ==>
         rd.result == Expected(rd.kind, s.versions[rd.seen / 2]))
    && (rd.pc == Returned && rd.seen % 2 == 0 ==> rd.result == Expected(rd.kind, s.versions[rd.seen / 2]))
  }

  ghost predicate Inv(s: State) {
    WriterInv(s) && forall r :: r in s.readers ==> ReaderInv(s, s.readers[r])
  }

  lemma PublishedIsGood(s: BookState, s': BookState)
    requires GoodBook(s) && Published(s, s')
    ensures GoodBook(s')
  {
    var e :| Fresh(s, e) && Step(s, e, s');
    StepKeepsGood(s, e, s');
  }

  lemma WriterKeepsInv(s: State, a: Action)
    requires WriterInv(s) && Enabled(s, a) && (a.Lock? || a.Begin? || a.Store? || a.End?)
    ensures WriterInv(Perform(s, a))
  {
    hide Exec, SyncWrites, Shows, GoodBook, Step, Fresh;
    match a
    case Lock(_, e, next) =>
      assert Fresh(s.versions[|s.versions| - 1], e) && Step(s.versions[|s.versions| - 1], e, next);
    case Begin =>
      ExecNothing(s.memory, SyncWrites(s.phase.next));
    case Store =>
      ExecNext(s.images[|s.images| - 1], SyncWrites(s.phase.next), s.phase.pc);
    case End =>
      assert SyncWrites(s.phase.next)[..s.phase.pc] == SyncWrites(s.phase.next);
      SyncShows(s.images[|s.images| - 1], s.phase.next);
      PublishedIsGood(s.versions[|s.versions| - 1], s.phase.next);
    case _ =>
  }

  lemma ExecNothing(m: Memory, ws: seq<Write>)
    ensures Exec(m, ws[..0]) == m
  {
  }

  lemma ExecNext(m: Memory, ws: seq<Write>, pc: nat)
    requires pc < |ws|
    ensures Exec(m, ws[..pc + 1]) == Exec(m, ws[..pc])[ws[pc].word := ws[pc].value]
  {
    assert ws[..pc + 1][..pc] == ws[..pc];
  }

  /** Writers leave every reader's promise intact: the counter only grows, the versions only extend. */
  lemma ReaderSurvives(s: State, s': State, rd: Reader)
    requires |s.images| == |s.versions| && |s'.images| == |s'.versions|
    requires ReaderInv(s, rd) && s.counter <= s'.counter
    requires s.versions <= s'.versions && s.images <= s'.images
    ensures ReaderInv(s', rd)
  {
  }

  lemma ReaderKeepsInv(s: State, rd: Reader)
    requires WriterInv(s) && ReaderInv(s, rd)
    ensures rd.pc == AtLoad ==> ReaderInv(s, AfterLoad(rd, s.counter))
    ensures rd.pc == AtPass ==> ReaderInv(s, AfterFetch(rd, s.memory))
    ensures rd.pc == AtCheck ==> ReaderInv(s, AfterCheck(rd, s.counter))
  {
    hide Shows, GoodBook, Exec, SyncWrites, Expected, Published;
    if rd.pc == AtPass && rd.seen == s.counter {
      var image := s.images[rd.seen / 2];
      if NextWord(rd.kind, rd.log).Some? {
        LogGrows(rd.kind, rd.log, image);
      } else {
        PassFinds(rd.kind, rd.log, image, s.versions[rd.seen / 2]);
      }
    }
  }

  lemma PerformKeepsInv(s: State, a: Action)
    requires Inv(s) && Enabled(s, a)
    ensures Inv(Perform(s, a))
  {
    hide WriterInv, ReaderInv, AfterLoad, AfterFetch, AfterCheck, SyncWrites;
    var s' := Perform(s, a);
    InvShape(s);
    match a
    case Call(r, kind) =>
      SameShared(s, s');
      NewReaderInv(s, kind);
      forall q | q in s'.readers ensures ReaderInv(s', s'.readers[q]) {
        if q != r { ReaderSurvives(s, s', s.readers[q]); } else { ReaderSurvives(s, s', s'.readers[r]); }
      }
    case Load(r) =>
      SameShared(s, s');
      ReaderKeepsInv(s, s.readers[r]);
      forall q | q in s'.readers ensures ReaderInv(s', s'.readers[q]) {
        ReaderSurvives(s, s', s'.readers[q]);
      }
    case Fetch(r) =>
      SameShared(s, s');
      ReaderKeepsInv(s, s.readers[r]);
      forall q | q in s'.readers ensures ReaderInv(s', s'.readers[q]) {
        ReaderSurvives(s, s', s'.readers[q]);
      }
    case Check(r) =>
      SameShared(s, s');
      ReaderKeepsInv(s, s.readers[r]);
      forall q | q in s'.readers ensures ReaderInv(s', s'.readers[q]) {
        ReaderSurvives(s, s', s'.readers[q]);
      }
    case _ =>
      WriterKeepsInv(s, a);
      InvShape(s');
      forall q | q in s'.readers ensures ReaderInv(s', s'.readers[q]) {
        ReaderSurvives(s, s', s.readers[q]);
      }
  }

  lemma InvShape(s: State)
    requires WriterInv(s)
    ensures |s.images| == |s.versions| > 0
  {
  }

  lemma SameShared(s: State, s': State)
    requires WriterInv(s) && s' == s.(readers := s'.readers)
    ensures WriterInv(s')
  {
  }

  lemma NewReaderInv(s: State, kind: Kind)
    requires WriterInv(s)
    ensures ReaderInv(s, NewReader(kind, |s.versions| - 1))
  {
  }

  lemma StartInv()
    ensures Inv(START)
  {
    assert IsSnapshotOf(true, [], []);
  }

  lemma {:induction false} RunKeepsInv(states: seq<State>, actions: seq<Action>, i: nat)
    requires IsRun(states, actions) && i < |states|
    ensures Inv(states[i])
  {
    hide Inv, Perform, Enabled;
    if i == 0 {
      StartInv();
    } else {
      RunKeepsInv(states, actions, i - 1);
      PerformKeepsInv(states[i - 1], actions[i - 1]);
    }
  }

  // ----- the guarantees -----

  /** In every state of every run the counter is odd exactly while a writer is
      publishing, and otherwise the memory shows the newest version. */
  lemma CounterOddWhilePublishing(states: seq<State>, actions: seq<Action>, i: nat)
    requires IsRun(states, actions) && i < |states|
    ensures states[i].counter % 2 == 1 <==> states[i].phase.Publishing?
    ensures states[i].versions != []
    ensures states[i].counter % 2 == 0 ==> Shows(states[i].memory, states[i].versions[|states[i].versions| - 1])
  {
    hide Exec, Shows, SyncWrites, Published, GoodBook, Perform, Enabled, ReaderInv;
    RunKeepsInv(states, actions, i);
  }

  /** A best_bid, best_ask or snapshot that leaves its loop on an even counter
      has found one published version in its last pass, the newest at the moment
      of the last load and no older than the newest when the call began. */
  lemma EvenReturnIsOneVersion(states: seq<State>, actions: seq<Action>, i: nat, r: nat)
    requires IsRun(states, actions) && i < |actions| && actions[i] == Check(r)
    requires states[i + 1].readers[r].pc == Returned && states[i + 1].readers[r].seen % 2 == 0
    ensures var rd, s := states[i + 1].readers[r], states[i + 1];
      && rd.started <= |s.versions| - 1 == rd.seen / 2
      && !s.phase.Publishing?
      && GoodBook(s.versions[rd.seen / 2])
      && rd.result == Expected(rd.kind, s.versions[rd.seen / 2])
  {
    hide Exec, Shows, SyncWrites, Expected, Published, GoodBook;
    RunKeepsInv(states, actions, i + 1);
    assert states[i].readers[r].seen == states[i].counter;
  }
}
