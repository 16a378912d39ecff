/** The ring buffer shared by one producer and one consumer thread, one atomic
    load or store per step (src/server/broadcast_queue.cpp). Steps are
    sequentially consistent; indices are unbounded. */
module QueueProtocol {
  import opened Types
  import opened Ring

  /** WritingSlot and ReadingSlot last as long as the thread is inside the slot. */
  datatype Producer =
    | Idle
    | LoadedHead(message: string, cur: nat, next: nat)
    | WritingSlot(message: string, cur: nat, next: nat)
    | WroteSlot(message: string, cur: nat, next: nat)
    | SawFull(message: string)

  datatype Consumer =
    | Resting
    | LoadedTail(cur: nat)
    | ReadingSlot(cur: nat)
    | MovedOut(cur: nat, message: string)

  /** `accepted` and `popped` list the messages of the successful pushes and
      pops in order. */
  datatype State = State(capacity: nat, buffer: seq<string>, head: nat, tail: nat, dropped: nat,
                         producer: Producer, consumer: Consumer,
                         accepted: seq<string>, popped: seq<string>)

  /** A moved-from slot holds any text. */
  datatype Action =
    | PushLoadHead(message: string)
    | PushLoadTail
    | PushWrite
    | PushStoreHead
    | PushDrop
    | PopLoadTail
    | PopLoadHead
    | PopMove(leftover: string)
    | PopStoreTail

  function Start(requested: nat): State {
    var capacity := if requested + 1 < 2 then 2 else requested + 1;
    State(capacity, seq(capacity, _ => ""), 0, 0, 0, Idle, Resting, [], [])
  }

  predicate Enabled(s: State, a: Action) {
    match a
    case PushLoadHead(_) => s.producer.Idle?
    case PushLoadTail => s.producer.LoadedHead?
    case PushWrite => s.producer.WritingSlot? && s.producer.cur < |s.buffer|
    case PushStoreHead => s.producer.WroteSlot?
    case PushDrop => s.producer.SawFull?
    case PopLoadTail => s.consumer.Resting?
    case PopLoadHead => s.consumer.LoadedTail?
    case PopMove(_) => s.consumer.ReadingSlot? && s.consumer.cur < |s.buffer|
    case PopStoreTail => s.consumer.MovedOut?
  }

  function Perform(s: State, a: Action): State
    requires Enabled(s, a) && s.capacity > 0
  {
    match a
    case PushLoadHead(m) => s.(producer := LoadedHead(m, s.head, (s.head + 1) % s.capacity))
    case PushLoadTail =>
      var p := s.producer;
      s.(producer := if p.next == s.tail then SawFull(p.message) else WritingSlot(p.message, p.cur, p.next))
    case PushWrite =>
      var p := s.producer;
      s.(buffer := s.buffer[p.cur := p.message], producer := WroteSlot(p.message, p.cur, p.next))
    case PushStoreHead =>
      s.(head := s.producer.next, producer := Idle,
         accepted := s.accepted + [s.producer.message])
    case PushDrop => s.(dropped := s.dropped + 1, producer := Idle)
    case PopLoadTail => s.(consumer := LoadedTail(s.tail))
    case PopLoadHead =>
      s.(consumer := if s.consumer.cur == s.head then Resting else ReadingSlot(s.consumer.cur))
    case PopMove(leftover) =>
      var cur := s.consumer.cur;
      s.(buffer := s.buffer[cur := leftover], consumer := MovedOut(cur, s.buffer[cur]))
    case PopStoreTail =>
      s.(tail := (s.consumer.cur + 1) % s.capacity, consumer := Resting,
         popped := s.popped + [s.consumer.message])
  }

  ghost predicate IsRun(states: seq<State>, actions: seq<Action>) {
    && |states| == |actions| + 1 && (exists requested :: states[0] == Start(requested))
    && forall i :: 0 <= i < |actions| ==>
      states[i].capacity > 0 && Enabled(states[i], actions[i]) && states[i + 1] == Perform(states[i], actions[i])
  }

  // ----- the invariant -----

  ghost function Held(s: State): int {
    |s.accepted| - |s.popped|
  }

  ghost predicate Counts(s: State) {
    && s.capacity >= 2 && |s.buffer| == s.capacity
    && |s.popped| <= |s.accepted| && Held(s) <= s.capacity - 1
    && s.head == Pos(|s.accepted|, s.capacity) && s.tail == Pos(|s.popped|, s.capacity)
    && s.popped == s.accepted[..|s.popped|]
  }

  /** Every held message is in its slot, except one just moved out. */
  ghost predicate Slots(s: State)
    requires s.capacity == |s.buffer| > 0
  {
    forall k :: |s.popped| + (if s.consumer.MovedOut? then 1 else 0) <= k < |s.accepted| ==>
      s.buffer[Pos(k, s.capacity)] == s.accepted[k]
  }

  ghost predicate ProducerInv(s: State)
    requires s.capacity == |s.buffer| > 0
  {
    match s.producer
    case Idle => true
    case SawFull(_) => true
    case LoadedHead(_, cur, next) => cur == s.head && next == Pos(|s.accepted| + 1, s.capacity)
    case WritingSlot(_, cur, next) =>
      cur == s.head < |s.buffer| && next == Pos(|s.accepted| + 1, s.capacity) && Held(s) < s.capacity - 1
    case WroteSlot(m, cur, next) =>
      && cur == s.head < |s.buffer| && next == Pos(|s.accepted| + 1, s.capacity) && Held(s) < s.capacity - 1
      && s.buffer[cur] == m
  }

  ghost predicate ConsumerInv(s: State) {
    match s.consumer
    case Resting => true
    case LoadedTail(cur) => cur == s.tail
    case ReadingSlot(cur) => cur == s.tail && Held(s) > 0
    case MovedOut(cur, m) => cur == s.tail && Held(s) > 0 && m == s.accepted[|s.popped|]
  }

  ghost predicate Inv(s: State) {
    Counts(s) && Slots(s) && ProducerInv(s) && ConsumerInv(s)
  }

  /** Head and tail of a queue that is neither full nor empty differ; a full
      one has its next head at its tail. */
  lemma Positions(s: State)
    requires Counts(s)
    ensures s.head < s.capacity && s.tail < s.capacity
    ensures s.head == s.tail <==> Held(s) == 0
    ensures Pos(|s.accepted| + 1, s.capacity) == s.tail <==> Held(s) == s.capacity - 1
    ensures (s.head + 1) % s.capacity == Pos(|s.accepted| + 1, s.capacity)
    ensures (s.tail + 1) % s.capacity == Pos(|s.popped| + 1, s.capacity)
    ensures forall k :: |s.popped| < k < |s.accepted| ==> Pos(k, s.capacity) != s.tail
    ensures forall k :: |s.popped| <= k < |s.accepted| ==> Pos(k, s.capacity) != s.head
  {
    hide Pos;
    var a, p, c := |s.accepted|, |s.popped|, s.capacity;
    PosInjective(p, a, c);
    PosSucc(a, c);
    PosSucc(p, c);
    if Held(s) < c - 1 {
      PosInjective(p, a + 1, c);
    } else {
      PosLap(p, c);
      assert p + c == a + 1;
    }
    forall k | p < k < a ensures Pos(k, c) != s.tail {
      PosInjective(p, k, c);
    }
    forall k | p <= k < a ensures Pos(k, c) != s.head {
      PosInjective(k, a, c);
    }
  }

  lemma PerformKeepsInv(s: State, a: Action)
    requires Inv(s) && Enabled(s, a)
    ensures Inv(Perform(s, a))
  {
    hide Pos;
    Positions(s);
    match a
    case PushWrite => SlotWritten(s);
    case PushStoreHead => HeadStored(s);
    case PopMove(leftover) => SlotMoved(s, leftover);
    case PopStoreTail => TailStored(s);
    case _ =>
  }

  lemma SlotWritten(s: State)
    requires Inv(s) && Enabled(s, PushWrite)
    ensures Inv(Perform(s, PushWrite))
  {
    hide Pos;
    Positions(s);
  }

  lemma HeadStored(s: State)
    requires Inv(s) && Enabled(s, PushStoreHead)
    ensures Inv(Perform(s, PushStoreHead))
  {
    hide Pos;
    var s' := Perform(s, PushStoreHead);
    assert s'.accepted[..|s.popped|] == s.accepted[..|s.popped|];
  }

  lemma SlotMoved(s: State, leftover: string)
    requires Inv(s) && Enabled(s, PopMove(leftover))
    ensures Inv(Perform(s, PopMove(leftover)))
  {
    hide Pos;
    Positions(s);
  }

  lemma TailStored(s: State)
    requires Inv(s) && Enabled(s, PopStoreTail)
    ensures Inv(Perform(s, PopStoreTail))
  {
    hide Pos;
    Positions(s);
  }

  lemma StartInv(requested: nat)
    ensures Inv(Start(requested))
  {
    PosZero(Start(requested).capacity);
  }

  lemma {:induction false} RunKeepsInv(states: seq<State>, actions: seq<Action>, i: nat)
    requires IsRun(states, actions) && i < |states|
    ensures Inv(states[i])
    ensures states[i].capacity == states[0].capacity
  {
    hide Inv;
    if i == 0 {
      var requested :| states[0] == Start(requested);
      StartInv(requested);
    } else {
      RunKeepsInv(states, actions, i - 1);
      PerformKeepsInv(states[i - 1], actions[i - 1]);
    }
  }

  // ----- what the pushes were given -----

  /** The message handed to the latest push. */
  ghost function Handed(actions: seq<Action>): string {
    if actions == [] then ""
    else
      var last := actions[|actions| - 1];
      if last.PushLoadHead? then last.message else Handed(actions[..|actions| - 1])
  }

  /** The messages handed to the pushes that went on to store the head, in order. */
  ghost function Stored(actions: seq<Action>): seq<string> {
    if actions == [] then []
    else
      var before, last := actions[..|actions| - 1], actions[|actions| - 1];
      if last.PushStoreHead? then Stored(before) + [Handed(before)] else Stored(before)
  }

  /** How many pushes have begun. */
  ghost function Begun(actions: seq<Action>): nat {
    if actions == [] then 0
    else
      var before, last := Begun(actions[..|actions| - 1]), actions[|actions| - 1];
      if last.PushLoadHead? then before + 1 else before
  }

  ghost predicate Delivers(s: State, actions: seq<Action>) {
    && s.accepted == Stored(actions)
    && (!s.producer.Idle? ==> s.producer.message == Handed(actions))
    && |s.accepted| + s.dropped + (if s.producer.Idle? then 0 else 1) == Begun(actions)
  }

  lemma PerformDelivers(s: State, actions: seq<Action>, a: Action)
    requires s.capacity > 0 && Enabled(s, a) && Delivers(s, actions)
    ensures Delivers(Perform(s, a), actions + [a])
  {
    assert (actions + [a])[..|actions|] == actions;
  }

  lemma {:induction false} RunDelivers(states: seq<State>, actions: seq<Action>, i: nat)
    requires IsRun(states, actions) && i < |states|
    ensures Delivers(states[i], actions[..i])
  {
    hide Delivers, Perform;
    if i == 0 {
      StartDelivers(states[0]);
    } else {
      RunDelivers(states, actions, i - 1);
      PerformDelivers(states[i - 1], actions[..i - 1], actions[i - 1]);
      assert actions[..i - 1] + [actions[i - 1]] == actions[..i];
    }
  }

  lemma StartDelivers(s: State)
    requires exists requested :: s == Start(requested)
    ensures Delivers(s, [])
  {
  }

  // ----- the guarantees -----

  /** In every state of every interleaving: what has been popped are the oldest of
      the messages that pushes were given and stored, in order; at most the
      requested number, or 1, are held; every other push was dropped or is under way. */
  lemma QueueIsFifo(states: seq<State>, actions: seq<Action>, requested: nat, i: nat)
    requires IsRun(states, actions) && states[0] == Start(requested) && i < |states|
    ensures var s, stored := states[i], Stored(actions[..i]);
      && s.popped <= stored && s.accepted == stored
      && |stored| - |s.popped| <= (if requested == 0 then 1 else requested)
      && |stored| + s.dropped + (if s.producer.Idle? then 0 else 1) == Begun(actions[..i])
  {
    hide Pos, Stored, Begun, Handed;
    RunKeepsInv(states, actions, i);
    RunDelivers(states, actions, i);
  }

  /** No slot is written while it is being read. */
  lemma NoSlotShared(states: seq<State>, actions: seq<Action>, i: nat)
    requires IsRun(states, actions) && i < |states|
    requires states[i].producer.WritingSlot? && states[i].consumer.ReadingSlot?
    ensures states[i].producer.cur != states[i].consumer.cur
  {
    hide Pos;
    RunKeepsInv(states, actions, i);
    Positions(states[i]);
  }

  /** A push gives up exactly when the queue is full at its look at the tail,
      and a pop exactly when the queue is empty at its look at the head. */
  lemma FailuresAreJustified(states: seq<State>, actions: seq<Action>, requested: nat, i: nat)
    requires IsRun(states, actions) && states[0] == Start(requested) && i < |actions|
    ensures var held := |states[i].accepted| - |states[i].popped|;
      && (actions[i] == PushLoadTail ==>
           (states[i + 1].producer.SawFull? <==> held == if requested == 0 then 1 else requested))
      && (actions[i] == PopLoadHead ==> (states[i + 1].consumer.Resting? <==> held == 0))
  {
    hide Pos;
    RunKeepsInv(states, actions, i);
    Positions(states[i]);
  }

  /** A pop returns the oldest of the messages stored and not yet popped, as it was given to its push. */
  lemma PopReturnsOldest(states: seq<State>, actions: seq<Action>, i: nat)
    requires IsRun(states, actions) && i < |actions| && actions[i] == PopStoreTail
    ensures var stored, popped := Stored(actions[..i]), states[i].popped;
      |popped| < |stored| && states[i + 1].popped == popped + [stored[|popped|]]
  {
    hide Pos, Stored, Begun, Handed;
    RunKeepsInv(states, actions, i);
    RunDelivers(states, actions, i);
  }

  lemma {:induction false} CountsGrow(states: seq<State>, actions: seq<Action>, i: nat, j: nat)
    requires IsRun(states, actions) && i <= j < |states|
    ensures |states[i].accepted| <= |states[j].accepted| && |states[i].popped| <= |states[j].popped|
    decreases j
  {
    if i < j {
      CountsGrow(states, actions, i, j - 1);
      assert states[j] == Perform(states[j - 1], actions[j - 1]);
    }
  }

  /** size() loads the head and later the tail: it reports the pushes up to the
      one less the pops up to the other, modulo the capacity. So it is what was
      held if the pops have not overtaken the loaded head, and a nearly full
      queue if they have by a little. */
  lemma SizeObserved(states: seq<State>, actions: seq<Action>, i: nat, j: nat)
    requires IsRun(states, actions) && i <= j < |states|
    ensures var n, pushed, popped := Used(states[i].head, states[j].tail, states[i].capacity),
                                     |states[i].accepted|, |states[j].popped|;
      && states[i].capacity > 0 && n == (pushed - popped) % states[i].capacity
      && (popped <= pushed ==> n == pushed - popped < states[i].capacity)
      && (pushed < popped < pushed + states[i].capacity ==> n == states[i].capacity - (popped - pushed))
  {
    hide Pos, Slots, ProducerInv, ConsumerInv, Perform, Used;
    RunKeepsInv(states, actions, i);
    RunKeepsInv(states, actions, j);
    CountsGrow(states, actions, i, j);
    var pushed, popped, c := |states[i].accepted|, |states[j].popped|, states[i].capacity;
    UsedIsMod(pushed, popped, c);
    if popped <= pushed {
      ModIs(pushed - popped, c, 0, pushed - popped);
    } else if popped < pushed + c {
      ModIs(pushed - popped, c, -1, c - (popped - pushed));
    }
  }
}
