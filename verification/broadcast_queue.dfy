/** The single-producer single-consumer ring buffer as its own thread sees it
    (src/server/broadcast_queue.cpp). */
module BroadcastQueues {
  import opened Types
  import opened Ring

  class BroadcastQueue {
    const capacity: nat
    const buffer: array<string>
    var head: nat
    var tail: nat
    var dropped: nat

    ghost predicate Valid()
      reads this
    {
      capacity >= 2 && buffer.Length == capacity && head < capacity && tail < capacity
    }

    /** The held messages, oldest first. */
    ghost function Contents(): (s: seq<string>)
      requires Valid()
      reads this, buffer
      ensures |s| == Used(head, tail, capacity) < capacity
    {
      if head >= tail then buffer[tail..head] else buffer[tail..] + buffer[..head]
    }

    static lemma Next(i: nat, capacity: nat)
      requires i < capacity
      ensures (i + 1) % capacity == if i + 1 == capacity then 0 else i + 1
    {
      if i + 1 < capacity {
        ModIs(i + 1, capacity, 0, i + 1);
      } else {
        ModIs(i + 1, capacity, 1, 0);
      }
    }

    constructor (requested: nat)
      ensures Valid() && Contents() == [] && dropped == 0
      ensures capacity - 1 == if requested == 0 then 1 else requested
      ensures fresh(buffer)
    {
      var c := if requested + 1 < 2 then 2 else requested + 1;
      capacity := c;
      buffer := new string[c](_ => "");
      head, tail, dropped := 0, 0, 0;
    }

    /** Accepts exactly when fewer than capacity - 1 messages are held; a full
        queue discards the new message, not the oldest. */
    method TryPush(message: string) returns (ok: bool)
      requires Valid()
      modifies this`head, this`dropped, buffer
      ensures Valid()
      ensures ok <==> |old(Contents())| < capacity - 1
      ensures Contents() == if ok then old(Contents()) + [message] else old(Contents())
      ensures dropped == old(dropped) + if ok then 0 else 1
    {
      ghost var before := Contents();
      var curHead := head;
      var nextHead := (curHead + 1) % capacity;
      Next(curHead, capacity);
      if nextHead == tail {
        dropped := dropped + 1;
        return false;
      }
      buffer[curHead] := message;
      head := nextHead;
      assert Contents() == before + [message];
      return true;
    }

    /** Returns the oldest message, or nothing exactly when none is held. The
        slot a message was moved out of is left empty here. */
    method TryPop() returns (message: Option<string>)
      requires Valid()
      modifies this`tail, buffer
      ensures Valid()
      ensures message.None? <==> old(Contents()) == []
      ensures message.Some? ==> message.value == old(Contents())[0]
      ensures Contents() == if message.Some? then old(Contents())[1..] else []
    {
      ghost var before := Contents();
      var curTail := tail;
      if curTail == head {
        return None;
      }
      var msg := buffer[curTail];
      buffer[curTail] := "";
      Next(curTail, capacity);
      tail := (curTail + 1) % capacity;
      assert Contents() == before[1..];
      return Some(msg);
    }

    method Size() returns (n: nat)
      requires Valid()
      ensures n == |Contents()|
    {
      var h, t := head, tail;
      n := if h >= t then h - t else capacity - t + h;
    }
  }
}
