/** Per-channel delivery of a notification across retries (packages/notifications/src/consumer.ts:99-113,
    packages/notifications/src/deliveryDedup.ts). One event, within the lifetime of its markers, in one process.
 */
module ChannelDelivery {
  import opened Basics

  /** The markers of the event, and what each channel has received. */
  datatype Deliveries = Deliveries(marked: set<string>, received: map<string, nat>)

  const NOTHING_SENT: Deliveries := Deliveries({}, map[])

  function Received(d: Deliveries, channel: string): nat {
    if channel in d.received then d.received[channel] else 0
  }

  datatype Once = Once(deliveries: Deliveries, failed: bool)

  /** `deliverOnce`: a marked channel is skipped; an event without an id has no markers. */
  function DeliverOnce(d: Deliveries, identified: bool, channel: string, broken: set<string>): Once {
    if identified && channel in d.marked then Once(d, false)
    else if channel in broken then Once(d, true)
    else Once(Deliveries(if identified then d.marked + {channel} else d.marked,
                         d.received[channel := Received(d, channel) + 1]), false)
  }

  datatype Attempt = Attempt(deliveries: Deliveries, failures: seq<string>)

  /** `forEachChannel`: every channel is tried, the failures are collected; the attempt throws if there are any. */
  function ForEachChannel(d: Deliveries, identified: bool, channels: seq<string>, broken: set<string>): Attempt {
    if channels == [] then Attempt(d, []) else
      var before := ForEachChannel(d, identified, channels[..|channels| - 1], broken);
      var last := channels[|channels| - 1];
      var o := DeliverOnce(before.deliveries, identified, last, broken);
      Attempt(o.deliveries, if o.failed then before.failures + [last] else before.failures)
  }

  /** The retries of the job: each attempt with the channels broken at that moment, until one throws nothing. */
  function Retries(d: Deliveries, identified: bool, channels: seq<string>, attempts: seq<set<string>>): Attempt
    decreases |attempts|
  {
    if attempts == [] then Attempt(d, channels) else
      var a := ForEachChannel(d, identified, channels, attempts[0]);
      if a.failures == [] || |attempts| == 1 then a else Retries(a.deliveries, identified, channels, attempts[1..])
  }

  // ── Identified events: at most once, and once when the attempt returns ─────

  /** A marked channel has received exactly one message, any other none. */
  ghost predicate Consistent(d: Deliveries) {
    forall c: string :: Received(d, c) == if c in d.marked then 1 else 0
  }

  /** One attempt: every working channel of the list is now marked wherever it stands in the list, and the failures are
      exactly the broken channels not delivered before. */
  lemma {:induction false} AttemptRight(d: Deliveries, channels: seq<string>, broken: set<string>)
    requires Consistent(d)
    ensures var a := ForEachChannel(d, true, channels, broken);
            && Consistent(a.deliveries)
            && (forall c: string :: c in a.deliveries.marked <==> c in d.marked || (c in channels && c !in broken))
            && (forall c: string :: c in a.failures <==> c in channels && c in broken && c !in d.marked)
  {
    if channels != [] {
      var before, last := channels[..|channels| - 1], channels[|channels| - 1];
      AttemptRight(d, before, broken);
      assert channels == before + [last];
      var b := ForEachChannel(d, true, before, broken);
      var o := DeliverOnce(b.deliveries, true, last, broken);
      forall c: string ensures Received(o.deliveries, c) == if c in o.deliveries.marked then 1 else 0 {
        assert Received(b.deliveries, c) == if c in b.deliveries.marked then 1 else 0;
      }
    }
  }

  /** ACROSS RETRIES. Whatever channels are broken at each attempt, every channel receives at most one message; a channel
      that worked at the first attempt has its one whatever failed beside it; and at the end a channel of the list has
      none exactly if it is among the failures — so when the job ends without one, each has exactly one. */
  lemma {:induction false} EachChannelOnce(d: Deliveries, channels: seq<string>, attempts: seq<set<string>>)
    requires Consistent(d) && attempts != []
    ensures var a := Retries(d, true, channels, attempts);
            && Consistent(a.deliveries) && d.marked <= a.deliveries.marked
            && (forall c: string :: Received(a.deliveries, c) <= 1)
            && (forall c | c in channels :: c !in attempts[0] ==> Received(a.deliveries, c) == 1)
            && (forall c | c in channels :: Received(a.deliveries, c) == 0 <==> c in a.failures)
    decreases |attempts|
  {
    AttemptRight(d, channels, attempts[0]);
    var a := ForEachChannel(d, true, channels, attempts[0]);
    if a.failures != [] && |attempts| > 1 {
      EachChannelOnce(a.deliveries, channels, attempts[1..]);
    }
  }

  // ── Events without an id ───────────────────────────────────────────────────

  /** The attempts that are made: one follows another only while a listed channel fails. */
  function Made(channels: seq<string>, attempts: seq<set<string>>): (made: seq<set<string>>)
    ensures made <= attempts && (attempts != [] ==> made != [])
    decreases |attempts|
  {
    if attempts == [] then []
    else if |attempts| == 1 || forall c | c in channels :: c !in attempts[0] then
      assert attempts == [attempts[0]] + attempts[1..];
      [attempts[0]]
    else
      assert attempts == [attempts[0]] + attempts[1..];
      [attempts[0]] + Made(channels, attempts[1..])
  }

  /** The attempts in which the channel is not broken. */
  function Working(channel: string, attempts: seq<set<string>>): nat
    decreases |attempts|
  {
    if attempts == [] then 0 else (if channel in attempts[0] then 0 else 1) + Working(channel, attempts[1..])
  }

  /** One attempt without an id: every working channel of the list receives one more message, every broken one fails. */
  lemma {:induction false} UnidentifiedAttempt(d: Deliveries, channels: seq<string>, broken: set<string>)
    requires Distinct(channels)
    ensures var a := ForEachChannel(d, false, channels, broken);
            && (forall c: string :: Received(a.deliveries, c)
                                    == Received(d, c) + if c in channels && c !in broken then 1 else 0)
            && (forall c: string :: c in a.failures <==> c in channels && c in broken)
  {
    if channels != [] {
      var before, last := channels[..|channels| - 1], channels[|channels| - 1];
      UnidentifiedAttempt(d, before, broken);
      assert channels == before + [last] && last !in before;
      var b := ForEachChannel(d, false, before, broken);
      var a := ForEachChannel(d, false, channels, broken);
      forall c: string
        ensures Received(a.deliveries, c) == Received(d, c) + if c in channels && c !in broken then 1 else 0
      {
        assert Received(b.deliveries, c) == Received(d, c) + if c in before && c !in broken then 1 else 0;
      }
    }
  }

  /** WITHOUT AN ID, from any state: a channel gains exactly one message for every attempt made in which it is not
      broken. */
  lemma {:induction false} UnidentifiedEventRepeats(d: Deliveries, channels: seq<string>, attempts: seq<set<string>>, c: string)
    requires Distinct(channels) && c in channels && attempts != []
    ensures Received(Retries(d, false, channels, attempts).deliveries, c)
         == Received(d, c) + Working(c, Made(channels, attempts))
    decreases |attempts|
  {
    UnidentifiedAttempt(d, channels, attempts[0]);
    var a := ForEachChannel(d, false, channels, attempts[0]);
    assert a.failures == [] <==> forall x | x in channels :: x !in attempts[0] by {
      if a.failures != [] { assert a.failures[0] in a.failures; }
    }
    var made := Made(channels, attempts);
    if a.failures == [] || |attempts| == 1 {
      assert made == [attempts[0]];
      assert Working(c, made[1..]) == 0;
    } else {
      UnidentifiedEventRepeats(a.deliveries, channels, attempts[1..], c);
      assert made[1..] == Made(channels, attempts[1..]);
    }
  }

  lemma {:induction false} WorkingAtMostOnce(c: string, attempts: seq<set<string>>)
    ensures Working(c, attempts) <= 1
       <==> forall i, j | 0 <= i < j < |attempts| :: c in attempts[i] || c in attempts[j]
    ensures Working(c, attempts) == 0 <==> forall i | 0 <= i < |attempts| :: c in attempts[i]
  {
    if attempts != [] {
      var rest := attempts[1..];
      WorkingAtMostOnce(c, rest);
      assert forall i | 0 <= i < |rest| :: rest[i] == attempts[i + 1];
      if forall i, j | 0 <= i < j < |attempts| :: c in attempts[i] || c in attempts[j] {
        forall i, j | 0 <= i < j < |rest| ensures c in rest[i] || c in rest[j] {
          assert c in attempts[i + 1] || c in attempts[j + 1];
        }
        forall i | 0 <= i < |rest| ensures c in attempts[0] || c in rest[i] {
          assert c in attempts[0] || c in attempts[i + 1];
        }
      } else {
        var i, j :| 0 <= i < j < |attempts| && c !in attempts[i] && c !in attempts[j];
        assert c !in rest[j - 1];
        if i > 0 { assert c !in rest[i - 1]; }
      }
    }
  }

  /** EXACTLY. Without an id every channel still receives at most one message exactly if no channel works in two of the
      attempts made: then only retries in which every channel delivered before is down are harmless. */
  lemma UnidentifiedOnceIff(channels: seq<string>, attempts: seq<set<string>>)
    requires Distinct(channels) && attempts != []
    ensures (forall c | c in channels :: Received(Retries(NOTHING_SENT, false, channels, attempts).deliveries, c) <= 1)
       <==> var made := Made(channels, attempts);
            forall c, i, j | c in channels && 0 <= i < j < |made| :: c in made[i] || c in made[j]
  {
    var made := Made(channels, attempts);
    forall c | c in channels
      ensures Received(Retries(NOTHING_SENT, false, channels, attempts).deliveries, c) == Working(c, made)
      ensures Working(c, made) <= 1 <==> forall i, j | 0 <= i < j < |made| :: c in made[i] || c in made[j]
    {
      UnidentifiedEventRepeats(NOTHING_SENT, channels, attempts, c);
      WorkingAtMostOnce(c, made);
    }
  }

  // ── The object ─────────────────────────────────────────────────────────────

  /** The process's memory of delivered channels, with the counters of an observer. */
  class DeliveryDedup {
    var deliveries: Deliveries

    constructor ()
      ensures deliveries == NOTHING_SENT
    {
      deliveries := NOTHING_SENT;
    }

    method DeliverChannelOnce(identified: bool, channel: string, works: bool) returns (failed: bool)
      modifies this
      ensures Once(deliveries, failed)
           == DeliverOnce(old(deliveries), identified, channel, if works then {} else {channel})
    {
      if identified && channel in deliveries.marked { return false; }
      if !works { return true; }
      deliveries := deliveries.(received := deliveries.received[channel := Received(deliveries, channel) + 1]);
      if identified { deliveries := deliveries.(marked := deliveries.marked + {channel}); }
      return false;
    }

    method SendToChannels(identified: bool, channels: seq<string>, broken: set<string>) returns (failures: seq<string>)
      modifies this
      ensures Attempt(deliveries, failures) == ForEachChannel(old(deliveries), identified, channels, broken)
    {
      failures := [];
      for k := 0 to |channels|
        invariant Attempt(deliveries, failures) == ForEachChannel(old(deliveries), identified, channels[..k], broken)
      {
        assert channels[..k + 1][..k] == channels[..k];
        var failed := DeliverChannelOnce(identified, channels[k], channels[k] !in broken);
        if failed { failures := failures + [channels[k]]; }
      }
      assert channels[..|channels|] == channels;
    }
  }
}
