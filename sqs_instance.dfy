/**
 * The per-queue mailbox: a delay queue of stamped messages. An entry may be taken
 * only once its ready time has passed; among ready entries the earliest comes first.
 * The wall clock is the parameter `now` (milliseconds).
 */
module Mailbox {

  import opened Wrappers
  import opened Messages

  /** A message stamped with the time, in milliseconds, at which it becomes ready. */
  datatype DelayedItem = DelayedItem(content: Message, consumeOnTimeInMillis: int)

  /**
   * The DelayedItem constructor. Its parameter is called `delayInSeconds`, as in the
   * source, but it holds milliseconds; a negative delay counts as none.
   */
  function NewDelayedItem(content: Message, delayInSeconds: int, now: int): (item: DelayedItem)
    ensures item.content == content
    ensures item.consumeOnTimeInMillis >= now
    ensures item.consumeOnTimeInMillis - now == (if delayInSeconds > 0 then delayInSeconds else 0)
  {
    DelayedItem(content, now + (if delayInSeconds > 0 then delayInSeconds else 0))
  }

  /** Milliseconds until the item is ready; zero or less means it is due. */
  function GetDelay(item: DelayedItem, now: int): int
  {
    item.consumeOnTimeInMillis - now
  }

  predicate IsDue(item: DelayedItem, now: int)
  {
    GetDelay(item, now) <= 0
  }

  /**
   * The comparator of the delay queue: the difference of the ready times, clamped to
   * Java's int range. Its sign is the order of the ready times.
   */
  function CompareTo(a: DelayedItem, b: DelayedItem): (r: int)
    ensures IntMin <= r <= IntMax
    ensures r < 0 <==> a.consumeOnTimeInMillis < b.consumeOnTimeInMillis
    ensures r == 0 <==> a.consumeOnTimeInMillis == b.consumeOnTimeInMillis
    ensures r > 0 <==> a.consumeOnTimeInMillis > b.consumeOnTimeInMillis
    ensures IntMin <= a.consumeOnTimeInMillis - b.consumeOnTimeInMillis <= IntMax ==>
              r == a.consumeOnTimeInMillis - b.consumeOnTimeInMillis
    ensures a.consumeOnTimeInMillis - b.consumeOnTimeInMillis > IntMax ==> r == IntMax
    ensures a.consumeOnTimeInMillis - b.consumeOnTimeInMillis < IntMin ==> r == IntMin
  {
    var value := a.consumeOnTimeInMillis - b.consumeOnTimeInMillis;
    if value > IntMax then IntMax
    else if value < IntMin then IntMin
    else value
  }

  function Sign(x: int): int
  {
    if x < 0 then -1 else if x == 0 then 0 else 1
  }

  /** The comparator is antisymmetric in sign, as Comparable demands. */
  lemma CompareToAntisymmetric(a: DelayedItem, b: DelayedItem)
    ensures Sign(CompareTo(a, b)) == -Sign(CompareTo(b, a))
  {
  }

  /** The comparator is transitive, so the delay queue's heap order is well defined. */
  lemma CompareToTransitive(a: DelayedItem, b: DelayedItem, c: DelayedItem)
    requires CompareTo(a, b) <= 0 && CompareTo(b, c) <= 0
    ensures CompareTo(a, c) <= 0
    ensures CompareTo(a, b) < 0 || CompareTo(b, c) < 0 ==> CompareTo(a, c) < 0
  {
  }

  /** An item stamped with delay d at time t is due exactly from t + max(0, d) on. */
  lemma DueExactlyAfterDelay(content: Message, delayInMillis: int, stampedAt: int, now: int)
    ensures IsDue(NewDelayedItem(content, delayInMillis, stampedAt), now) <==>
              now >= stampedAt + (if delayInMillis > 0 then delayInMillis else 0)
  {
  }

  /** A negative delay stamps exactly like no delay. */
  lemma NegativeDelayIsNoDelay(content: Message, delayInMillis: int, now: int)
    requires delayInMillis < 0
    ensures NewDelayedItem(content, delayInMillis, now) == NewDelayedItem(content, 0, now)
  {
  }

  /**
   * The head of the delay queue: the index of an entry that no other entry precedes
   * in the comparator's order. Ties go to the entry inserted first.
   */
  function Earliest(s: seq<DelayedItem>): (k: nat)
    requires |s| > 0
    ensures k < |s|
    ensures forall j :: 0 <= j < |s| ==> s[k].consumeOnTimeInMillis <= s[j].consumeOnTimeInMillis
    ensures forall j :: 0 <= j < k ==> s[j].consumeOnTimeInMillis > s[k].consumeOnTimeInMillis
  {
    if |s| == 1 then 0
    else
      var k := Earliest(s[..|s| - 1]);
      if CompareTo(s[|s| - 1], s[k]) < 0 then |s| - 1 else k
  }

  function RemoveAt(s: seq<DelayedItem>, k: nat): (r: seq<DelayedItem>)
    requires k < |s|
    ensures |r| == |s| - 1
    ensures forall j :: 0 <= j < k ==> r[j] == s[j]
    ensures forall j :: k <= j < |r| ==> r[j] == s[j + 1]
    ensures multiset(s) == multiset(r) + multiset{s[k]}
  {
    assert s == s[..k] + [s[k]] + s[k + 1..];
    s[..k] + s[k + 1..]
  }

  predicate HasDue(s: seq<DelayedItem>, now: int)
  {
    exists i :: 0 <= i < |s| && IsDue(s[i], now)
  }

  /**
   * DelayQueue.poll: look at the head; if there is none or it is not yet due, answer
   * null and change nothing, otherwise remove the head and answer its message.
   */
  function PollSpec(s: seq<DelayedItem>, now: int): (Option<Message>, seq<DelayedItem>)
  {
    if |s| == 0 then (None, s)
    else
      var k := Earliest(s);
      if GetDelay(s[k], now) > 0 then (None, s) else (Some(s[k].content), RemoveAt(s, k))
  }

  /** poll answers null exactly when no entry is due, and then the mailbox is unchanged. */
  lemma PollNoneIffNothingDue(s: seq<DelayedItem>, now: int)
    ensures PollSpec(s, now).0.None? <==> !HasDue(s, now)
    ensures PollSpec(s, now).0.None? ==> PollSpec(s, now).1 == s
  {
    if HasDue(s, now) {
      var i :| 0 <= i < |s| && IsDue(s[i], now);
      var k := Earliest(s);
      assert s[k].consumeOnTimeInMillis <= s[i].consumeOnTimeInMillis;
    }
  }

  /**
   * When some entry is due, poll removes one due entry whose ready time is minimal and
   * returns its message; all other entries stay, in their order.
   */
  lemma PollTakesEarliestDue(s: seq<DelayedItem>, now: int)
    requires HasDue(s, now)
    ensures var (r, rest) := PollSpec(s, now);
            exists k :: 0 <= k < |s| && IsDue(s[k], now)
              && (forall j :: 0 <= j < |s| ==> s[k].consumeOnTimeInMillis <= s[j].consumeOnTimeInMillis)
              && r == Some(s[k].content)
              && rest == s[..k] + s[k + 1..]
              && multiset(s) == multiset(rest) + multiset{s[k]}
  {
    PollNoneIffNothingDue(s, now);
    var k := Earliest(s);
    assert PollSpec(s, now).1 == s[..k] + s[k + 1..];
  }

  /**
   * The delay queue of one queue. Its entries are kept in insertion order; which entry
   * comes out is decided by Earliest.
   */
  class SqsInstance {
    var internalQueue: seq<DelayedItem>

    constructor ()
      ensures internalQueue == []
    {
      internalQueue := [];
    }

    /** add(content, delayInMillis): stamps the message and inserts it; always true. */
    method AddWithDelay(content: Message, delayInMillis: int, now: int) returns (added: bool)
      modifies this
      ensures added
      ensures internalQueue == old(internalQueue) + [NewDelayedItem(content, delayInMillis, now)]
    {
      internalQueue := internalQueue + [NewDelayedItem(content, delayInMillis, now)];
      added := true;
    }

    /** add(content): the same as add(content, 0). */
    method Add(content: Message, now: int) returns (added: bool)
      modifies this
      ensures added
      ensures internalQueue == old(internalQueue) + [NewDelayedItem(content, 0, now)]
    {
      added := AddWithDelay(content, 0, now);
    }

    /** poll(): the message of the due head, removed, or null. */
    method Poll(now: int) returns (r: Option<Message>)
      modifies this
      ensures (r, internalQueue) == PollSpec(old(internalQueue), now)
    {
      if |internalQueue| == 0 {
        return None;
      }
      var k := Earliest(internalQueue);
      if GetDelay(internalQueue[k], now) > 0 {
        r := None;
      } else {
        r := Some(internalQueue[k].content);
        internalQueue := RemoveAt(internalQueue, k);
      }
    }

    /**
     * take(): the blocking poll. The model takes it at a moment when an entry is due,
     * which is when the blocked call returns.
     */
    method Take(now: int) returns (m: Message)
      requires HasDue(internalQueue, now)
      modifies this
      ensures (Some(m), internalQueue) == PollSpec(old(internalQueue), now)
    {
      PollNoneIffNothingDue(internalQueue, now);
      var r := Poll(now);
      m := r.value;
    }
  }

  /**
   * A message added with a 1000 ms delay before two undelayed messages (all added within
   * that second) comes out after both, whatever the times of the three takes.
   */
  lemma DelayedMessageTakenAfterBoth(d: Message, m1: Message, m2: Message,
                                     t0: int, t1: int, t2: int, ta: int, tb: int, tc: int)
    requires t0 <= t1 <= t2 < t0 + 1000
    ensures var s0 := [NewDelayedItem(d, 1000, t0), NewDelayedItem(m1, 0, t1), NewDelayedItem(m2, 0, t2)];
            var p1 := PollSpec(s0, ta);
            var p2 := PollSpec(p1.1, tb);
            var p3 := PollSpec(p2.1, tc);
            HasDue(s0, ta) && HasDue(p1.1, tb) && HasDue(p2.1, tc) ==>
              p1.0 == Some(m1) && p2.0 == Some(m2) && p3.0 == Some(d)
  {
    var s0 := [NewDelayedItem(d, 1000, t0), NewDelayedItem(m1, 0, t1), NewDelayedItem(m2, 0, t2)];
    assert Earliest(s0[..2]) == 1;
    assert Earliest(s0) == 1;
    var s1 := [s0[0], s0[2]];
    assert RemoveAt(s0, 1) == s1;
    assert Earliest(s1) == 1;
    var s2 := [s0[0]];
    assert RemoveAt(s1, 1) == s2;
    if HasDue(s0, ta) && HasDue(s1, tb) && HasDue(s2, tc) {
      PollNoneIffNothingDue(s0, ta);
      PollNoneIffNothingDue(s1, tb);
      PollNoneIffNothingDue(s2, tc);
    }
  }
}
