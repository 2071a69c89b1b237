/** Events of the JV-Link component on their way to the Server-Sent-Events clients. The event callback
    pushes into one queue and keeps it at 100; every client's thread, when it wakes, empties the queue
    into its own connection. Both hold the queue's mutex throughout, so each method is one step.
 */
module EventQueue {
  const LIMIT := 100

  datatype Event = Event(kind: string, param: string, timestamp: int)

  type Client = nat

  /** How an event left the queue. `Lost` is the one whose write found the client gone; `Evicted`
      notes how many events had been pushed by then. */
  datatype Fate = Delivered(client: Client) | Lost(client: Client) | Evicted(pushed: nat)

  datatype Action = Arrives(event: Event) | Wakes(client: Client, accepts: nat) | Disconnects(client: Client)

  predicate TakenBy(fate: Fate, c: Client) {
    fate == Delivered(c) || fate == Lost(c)
  }

  /** Where in the sequence of all pushes the events stand that client `c` got. */
  function Positions(fates: seq<Fate>, c: Client): seq<nat> {
    if fates == [] then []
    else
      var n := |fates| - 1;
      Positions(fates[..n], c) + (if fates[n] == Delivered(c) then [n] else [])
  }

  lemma {:induction false} PositionsAreDelivered(fates: seq<Fate>, c: Client)
    ensures forall k :: 0 <= k < |Positions(fates, c)| ==> Positions(fates, c)[k] < |fates|
    ensures forall k :: 0 <= k < |Positions(fates, c)| ==> fates[Positions(fates, c)[k]] == Delivered(c)
    ensures forall j, k :: 0 <= j < k < |Positions(fates, c)| ==> Positions(fates, c)[j] < Positions(fates, c)[k]
  {
    if fates != [] {
      var n := |fates| - 1;
      PositionsAreDelivered(fates[..n], c);
      assert Positions(fates, c) == Positions(fates[..n], c) + (if fates[n] == Delivered(c) then [n] else []);
    }
  }

  lemma {:induction false} DeliveredIsAPosition(fates: seq<Fate>, c: Client, i: nat)
    requires i < |fates| && fates[i] == Delivered(c)
    ensures i in Positions(fates, c)
  {
    if i < |fates| - 1 {
      DeliveredIsAPosition(fates[..|fates| - 1], c, i);
    }
  }

  lemma PositionsSnoc(fates: seq<Fate>, fate: Fate, c: Client)
    ensures Positions(fates + [fate], c) == Positions(fates, c) + (if fate == Delivered(c) then [|fates|] else [])
  {
    assert (fates + [fate])[..|fates|] == fates;
  }

  class EventQueue {
    var queue: seq<Event>
    var streams: map<Client, seq<Event>>   // what each connection has taken
    var gone: set<Client>
    ghost var pushes: seq<Event>
    ghost var fates: seq<Fate>             // of the pushes that are no longer in the queue

    constructor ()
      ensures Valid() && pushes == [] && gone == {} && streams == map[]
    {
      queue, streams, gone, pushes, fates := [], map[], {}, [], [];
    }

    function StreamOf(c: Client): seq<Event>
      reads `streams
    {
      if c in streams then streams[c] else []
    }

    /** The queue is a suffix of all pushes. */
    ghost predicate QueueIsASuffix()
      reads `queue, `pushes, `fates
    {
      |fates| <= |pushes| && queue == pushes[|fates|..]
    }

    /** Evicted means: exactly 100 newer events had been pushed by then. */
    ghost predicate EvictedWhenFull()
      reads `pushes, `fates
    {
      forall i :: 0 <= i < |fates| && fates[i].Evicted? ==> fates[i].pushed == i + LIMIT + 1 <= |pushes|
    }

    /** A connection loses one event at most, the last one taken out for it. */
    ghost predicate LostToTheGone()
      reads `fates, `gone
    {
      && (forall i :: 0 <= i < |fates| && fates[i].Lost? ==> fates[i].client in gone)
      && (forall i, j :: 0 <= i < j < |fates| && fates[i].Lost? ==> !TakenBy(fates[j], fates[i].client))
    }

    ghost predicate StreamIs(c: Client)
      reads `streams, `pushes, `fates
    {
      var (s, p) := (StreamOf(c), Positions(fates, c));
      && |s| == |p|
      && (forall k :: 0 <= k < |p| ==> p[k] < |fates| <= |pushes| && s[k] == pushes[p[k]])
    }

    ghost predicate Sound()
      reads this
    {
      QueueIsASuffix() && EvictedWhenFull() && LostToTheGone() && (forall c :: StreamIs(c))
    }

    ghost predicate Valid()
      reads this
    {
      Sound() && |queue| <= LIMIT
    }

    /** One event leaves the queue without reaching a client. */
    method Drop(ghost fate: Fate)
      requires Sound() && queue != [] && !fate.Delivered?
      requires fate.Evicted? ==> fate.pushed == |fates| + LIMIT + 1 <= |pushes|
      requires fate.Lost? ==> fate.client in gone
      requires fate.Lost? ==> forall i :: 0 <= i < |fates| ==> fates[i] != fate
      modifies `queue, `fates
      ensures Sound()
      ensures queue == old(queue)[1..] && fates == old(fates) + [fate]
    {
      forall c ensures Positions(fates + [fate], c) == Positions(fates, c) {
        PositionsSnoc(fates, fate, c);
      }
      queue, fates := queue[1..], fates + [fate];
      assert forall c :: old(StreamIs(c)) ==> StreamIs(c);
    }

    /** One event leaves the queue and is written to a connection that takes it. */
    method Deliver(c: Client)
      requires Sound() && queue != [] && c !in gone
      modifies `queue, `fates, `streams
      ensures Sound()
      ensures queue == old(queue)[1..] && fates == old(fates) + [Delivered(c)]
      ensures StreamOf(c) == old(StreamOf(c)) + [old(queue)[0]]
      ensures forall d :: d != c ==> StreamOf(d) == old(StreamOf(d))
    {
      forall d { PositionsSnoc(fates, Delivered(c), d); }
      assert StreamIs(c);
      streams := streams[c := StreamOf(c) + [queue[0]]];
      queue, fates := queue[1..], fates + [Delivered(c)];
      assert StreamIs(c);
      assert forall d :: d != c && old(StreamIs(d)) ==> StreamIs(d);
    }

    /** One event leaves the queue for a connection that turns out to be closed. */
    method Refuse(c: Client)
      requires Sound() && queue != [] && c !in gone
      modifies `queue, `fates, `gone
      ensures Sound()
      ensures queue == old(queue)[1..] && fates == old(fates) + [Lost(c)] && gone == old(gone) + {c}
    {
      hide QueueIsASuffix, EvictedWhenFull, StreamIs;
      gone := gone + {c};
      Drop(Lost(c));
    }

    /** The event callback: a push, and the oldest event goes if that makes 101. */
    method Push(event: Event)
      requires Valid()
      modifies `queue, `fates, `pushes
      ensures Valid()
      ensures pushes == old(pushes) + [event]
      ensures |old(queue)| < LIMIT ==> queue == old(queue) + [event] && fates == old(fates)
      ensures |old(queue)| == LIMIT ==>
                && queue == old(queue)[1..] + [event]
                && fates == old(fates) + [Evicted(|pushes|)]
    {
      queue, pushes := queue + [event], pushes + [event];
      assert forall c :: old(StreamIs(c)) ==> StreamIs(c);
      while |queue| > LIMIT
        invariant Sound() && pushes == old(pushes) + [event]
        invariant fates == old(fates) ==> queue == old(queue) + [event]
        invariant fates != old(fates) ==>
            && |old(queue)| == LIMIT
            && queue == old(queue)[1..] + [event]
            && fates == old(fates) + [Evicted(|pushes|)]
        decreases |queue|
      {
        Drop(Evicted(|pushes|));
      }
    }

    /** A client's thread wakes and empties the queue; its connection takes `accepts` more events and
        refuses the next. A refused event is gone with the client, the ones behind it stay. */
    method Drain(c: Client, accepts: nat) returns (connected: bool)
      requires Valid() && c !in gone
      modifies this
      ensures Valid() && pushes == old(pushes) && old(fates) <= fates
      ensures connected <==> |old(queue)| <= accepts
      ensures connected ==> queue == [] && StreamOf(c) == old(StreamOf(c)) + old(queue) && gone == old(gone)
      ensures !connected ==>
                && queue == old(queue)[accepts + 1..]
                && StreamOf(c) == old(StreamOf(c)) + old(queue)[..accepts]
                && gone == old(gone) + {c}
      ensures forall d :: d != c ==> StreamOf(d) == old(StreamOf(d))
    {
      hide QueueIsASuffix, EvictedWhenFull, LostToTheGone, StreamIs;
      var taken := 0;
      while queue != []
        invariant Sound() && pushes == old(pushes) && gone == old(gone) && old(fates) <= fates
        invariant taken <= accepts && taken <= |old(queue)| && queue == old(queue)[taken..]
        invariant StreamOf(c) == old(StreamOf(c)) + old(queue)[..taken]
        invariant forall d :: d != c ==> StreamOf(d) == old(StreamOf(d))
        decreases |queue|
      {
        if taken == accepts {
          Refuse(c);
          return false;
        }
        Deliver(c);
        taken := taken + 1;
      }
      return true;
    }

    /** A connection also breaks on the greeting or on a ping. */
    method Disconnect(c: Client)
      requires Valid()
      modifies `gone
      ensures Valid() && gone == old(gone) + {c}
    {
      gone := gone + {c};
    }

    /** Any interleaving of the callback and the clients' threads. What has happened to an event never
        changes, and what a client has received only grows. */
    method Run(schedule: seq<Action>)
      requires Valid()
      modifies this
      ensures Valid()
      ensures old(pushes) <= pushes && old(fates) <= fates
      ensures forall c :: old(StreamOf(c)) <= StreamOf(c)
      ensures forall c :: c in old(gone) ==> c in gone && StreamOf(c) == old(StreamOf(c))
    {
      for i := 0 to |schedule|
        invariant Valid()
        invariant old(pushes) <= pushes && old(fates) <= fates
        invariant forall c :: old(StreamOf(c)) <= StreamOf(c)
        invariant forall c :: c in old(gone) ==> c in gone && StreamOf(c) == old(StreamOf(c))
      {
        match schedule[i] {
          case Arrives(event) => Push(event);
          case Wakes(c, accepts) => if c !in gone { var _ := Drain(c, accepts); }
          case Disconnects(c) => Disconnect(c);
        }
      }
    }

    // -------------------------------------------------------------- what every run promises

    /** What a client got is a subsequence of the pushes, in their order. */
    lemma StreamIsASubsequence(c: Client)
      requires Valid()
      ensures var p := Positions(fates, c);
              && |StreamOf(c)| == |p|
              && (forall j, k :: 0 <= j < k < |p| ==> p[j] < p[k])
              && (forall k :: 0 <= k < |p| ==> p[k] < |pushes| && StreamOf(c)[k] == pushes[p[k]])
    {
      PositionsAreDelivered(fates, c);
      assert StreamIs(c);
    }

    /** A client that is gone has cost one event at most, the last that was taken out for it. */
    lemma LosesOneAtMost(c: Client, i: nat, j: nat)
      requires Valid() && i < j < |fates| && fates[i] == Lost(c)
      ensures c in gone && fates[j] != Lost(c) && fates[j] != Delivered(c)
    {
    }

    /** No event reaches two clients. */
    lemma NoEventTwice(c: Client, d: Client, j: nat, k: nat)
      requires Valid() && c != d && j < |StreamOf(c)| && k < |StreamOf(d)|
      ensures j < |Positions(fates, c)| && k < |Positions(fates, d)|
      ensures Positions(fates, c)[j] != Positions(fates, d)[k]
    {
      PositionsAreDelivered(fates, c);
      PositionsAreDelivered(fates, d);
      assert StreamIs(c) && StreamIs(d);
    }

    /** An event that neither waits nor was delivered was taken by a client that is gone, or was
        evicted, which took 100 newer ones behind it; and no more than 100 wait. */
    lemma NothingElseIsLost(i: nat)
      requires Valid() && i < |pushes|
      ensures |queue| <= 100
      ensures (i >= |fates| && queue[i - |fates|] == pushes[i])
           || (i < |fates| && fates[i].Evicted? && i + 100 < |pushes|)
           || (i < |fates| && fates[i].Lost? && fates[i].client in gone)
           || (i < |fates| && fates[i].Delivered? && i in Positions(fates, fates[i].client)
               && pushes[i] in StreamOf(fates[i].client))
    {
      if i < |fates| && fates[i].Delivered? {
        var c := fates[i].client;
        DeliveredIsAPosition(fates, c, i);
        assert StreamIs(c);
        var k :| 0 <= k < |Positions(fates, c)| && Positions(fates, c)[k] == i;
        assert StreamOf(c)[k] == pushes[i];
      }
    }
  }
}
