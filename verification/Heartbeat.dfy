/** The NF heartbeat: the 1 ms tick loop (src/sepp_app/task_manager.cpp), the period filter
    (src/sepp_app/sepp_event.cpp) and the subscriber (src/sepp_app/sepp_nrf.cpp). */
module Heartbeat {
  import opened Octets

  /** What the filter captured. */
  datatype Slot = Slot(period: nat, start: nat) {
    /** The filter: whether tick t is passed on. */
    predicate Fires(t: nat)
      requires period > 0
    {
      t >= start && (t - start) % period == 0
    }
  }

  const HEART_BEAT_TIMER := 10

  /** The responses that keep the heartbeat going. */
  predicate Good(status: int) {
    status == 200 || status == 204
  }

  // ---------------------------------------------------------------- the classes

  /** The task_tick signal: the slots connected to it, each under its own connection. */
  class SeppEvent {
    var slots: map<nat, Slot>
    var issued: nat

    ghost predicate Valid()
      reads this
    {
      forall c :: c in slots ==> c < issued
    }

    constructor ()
      ensures Valid() && slots == map[]
    {
      slots, issued := map[], 0;
    }

    /** A further slot; those already connected stay. */
    method SubscribeTaskNfHeartbeat(period: nat, start: nat) returns (connection: nat)
      requires Valid()
      modifies this
      ensures Valid() && connection !in old(slots) && slots == old(slots)[connection := Slot(period, start)]
    {
      connection := issued;
      slots, issued := slots[connection := Slot(period, start)], issued + 1;
    }

    method Disconnect(connection: nat)
      requires Valid()
      modifies this`slots
      ensures Valid() && slots == old(slots) - {connection}
    {
      slots := slots - {connection};
    }
  }

  class SeppNrf {
    const events: SeppEvent
    var connection: Option<nat>

    constructor (ev: SeppEvent)
      ensures events == ev && connection == None
    {
      events, connection := ev, None;
    }

    /** The slot this object is connected by. */
    function Own(): Option<Slot>
      reads this, events
    {
      if connection.Some? && connection.value in events.slots then Some(events.slots[connection.value]) else None
    }

    /** ms is the current time. */
    method StartEventNfHeartbeat(ms: nat)
      requires events.Valid()
      modifies this`connection, events
      ensures events.Valid() && connection.Some? && connection.value !in old(events.slots)
      ensures events.slots == old(events.slots)[connection.value := Slot(10_000, ms + 10_000)]
    {
      var interval := HEART_BEAT_TIMER * 1000;
      var c := events.SubscribeTaskNfHeartbeat(interval, ms + interval);
      connection := Some(c);
    }

    /** `status` is the NRF's response to the heartbeat. */
    method TriggerNfHeartbeatProcedure(status: int)
      requires events.Valid()
      modifies events`slots
      ensures events.Valid()
      ensures events.slots == if Good(status) || connection.None? then old(events.slots)
                              else old(events.slots) - {connection.value}
    {
      if status != 200 && status != 204 && connection.Some? {
        events.Disconnect(connection.value);
      }
    }
  }

  class TaskManager {
    const nrf: SeppNrf

    constructor (n: SeppNrf)
      ensures nrf == n
    {
      nrf := n;
    }

    /** The first n turns of the endless loop, from time t0; the i-th heartbeat is answered responses(i).
        As in the program, nothing but the heartbeat is connected. */
    method ManageTasks(t0: nat, n: nat, responses: nat -> int) returns (fired: seq<nat>)
      requires nrf.events.Valid() && forall c :: c in nrf.events.slots ==> nrf.connection == Some(c)
      requires nrf.Own().Some? ==> nrf.Own().value.period > 0
      modifies nrf.events`slots
      ensures old(nrf.Own()).None? ==> fired == []
      ensures old(nrf.Own()).Some? ==>
                var slot := old(nrf.Own()).value;
                var end := Run(slot, responses, t0, n);
                fired == end.fired && nrf.Own() == if end.connected then Some(slot) else None
    {
      fired := [];
      var t := t0;
      ghost var slot := nrf.Own();
      for i := 0 to n
        invariant t == t0 + i && nrf.events.Valid()
        invariant slot.None? ==> fired == [] && nrf.Own().None?
        invariant slot.Some? ==>
                    var end := Run(slot.value, responses, t0, i);
                    fired == end.fired && nrf.Own() == if end.connected then slot else None
      {
        var own := nrf.Own();
        if own.Some? && own.value.Fires(t) {
          var status := responses(|fired|);
          fired := fired + [t];
          nrf.TriggerNfHeartbeatProcedure(status);
        }
        t := t + 1;
      }
    }
  }

  // ---------------------------------------------------------------- runs

  datatype Beat = Beat(connected: bool, fired: seq<nat>)

  function Tick(slot: Slot, responses: nat -> int, b: Beat, t: nat): Beat
    requires slot.period > 0
  {
    if b.connected && slot.Fires(t) then Beat(Good(responses(|b.fired|)), b.fired + [t]) else b
  }

  /** n ticks from t0. */
  function Run(slot: Slot, responses: nat -> int, t0: nat, n: nat): Beat
    requires slot.period > 0
  {
    if n == 0 then Beat(true, []) else Tick(slot, responses, Run(slot, responses, t0, n - 1), t0 + n - 1)
  }

  // ---------------------------------------------------------------- the closed form

  /** How many of the instants start, start + period, start + 2 period, ... lie before t. */
  function Before(slot: Slot, t: nat): nat
    requires slot.period > 0
  {
    if t <= slot.start then 0 else (t - slot.start - 1) / slot.period + 1
  }

  /** The k-th instant. */
  function Instant(slot: Slot, k: nat): nat {
    slot.start + k * slot.period
  }

  lemma NextInstant(slot: Slot, k: nat)
    ensures Instant(slot, k + 1) == Instant(slot, k) + slot.period
  {
    assert (k + 1) * slot.period == k * slot.period + slot.period;
  }

  lemma {:induction false} InstantsGrow(slot: Slot, j: nat, k: nat)
    requires j < k
    ensures Instant(slot, j) + slot.period <= Instant(slot, k)
  {
    NextInstant(slot, k - 1);
    if j == k - 1 {
    } else {
      InstantsGrow(slot, j, k - 1);
    }
  }

  /** Before(t) instants lie before t, and no more. */
  lemma BeforeIsCount(slot: Slot, t: nat)
    requires slot.period > 0
    ensures var k := Before(slot, t);
            t <= Instant(slot, k) && (k > 0 ==> Instant(slot, k - 1) < t)
  {
    if t > slot.start {
      var d := t - slot.start - 1;
      var q := d / slot.period;
      assert d == q * slot.period + d % slot.period;
      assert (q + 1) * slot.period == q * slot.period + slot.period;
    }
  }

  lemma BeforeIsUnique(slot: Slot, t: nat, k: nat)
    requires slot.period > 0
    requires t <= Instant(slot, k) && (k > 0 ==> Instant(slot, k - 1) < t)
    ensures Before(slot, t) == k
  {
    BeforeIsCount(slot, t);
    var b := Before(slot, t);
    if b < k {
      if b < k - 1 { InstantsGrow(slot, b, k - 1); }
    } else if k < b {
      if k < b - 1 { InstantsGrow(slot, k, b - 1); }
    }
  }

  /** The filter passes exactly the instants. */
  lemma FiresIff(slot: Slot, t: nat)
    requires slot.period > 0
    ensures slot.Fires(t) <==> t == Instant(slot, Before(slot, t))
    ensures slot.Fires(t) <==> exists k: nat :: t == Instant(slot, k)
  {
    BeforeIsCount(slot, t);
    if slot.Fires(t) {
      var d := t - slot.start;
      var k := d / slot.period;
      assert d == k * slot.period;
      if k > 0 { InstantsGrow(slot, k - 1, k); }
      BeforeIsUnique(slot, t, k);
    }
    forall k: nat | t == Instant(slot, k) ensures slot.Fires(t) {
      MultipleLeavesNothing(k, slot.period);
    }
  }

  /** The filter in its own words: nothing before the start, the start itself, nothing until one period later, and
      from the start on the same again after every period. */
  lemma FiresPeriodically(slot: Slot, t: nat)
    requires slot.period > 0
    ensures slot.Fires(slot.start)
    ensures t < slot.start ==> !slot.Fires(t)
    ensures slot.start < t < slot.start + slot.period ==> !slot.Fires(t)
    ensures t >= slot.start ==> (slot.Fires(t + slot.period) <==> slot.Fires(t))
  {
    MultipleLeavesNothing(0, slot.period);
    if t >= slot.start {
      SamePhase(t - slot.start, slot.period);
    }
  }

  lemma SamePhase(d: nat, p: nat)
    requires p > 0
    ensures (d + p) % p == d % p && (d < p ==> d % p == d)
  {
    var q, r := d / p, d % p;
    assert d + p == (q + 1) * p + r by {
      assert (q + 1) * p == q * p + p;
    }
    RemainderIsUnique(d + p, p, q + 1, r);
    if d < p {
      RemainderIsUnique(d, p, 0, d);
    }
  }

  lemma RemainderIsUnique(n: nat, p: nat, q: nat, r: nat)
    requires p > 0 && n == q * p + r && r < p
    ensures n % p == r
  {
    var m := n / p - q;
    assert m * p == r - n % p by {
      assert (n / p) * p == q * p + m * p;
    }
  }

  lemma MultipleLeavesNothing(k: nat, p: nat)
    requires p > 0
    ensures (k * p) % p == 0
  {
    var q, r := (k * p) / p, (k * p) % p;
    var m := k - q;
    assert r == m * p by {
      assert k * p == q * p + r;
      assert k * p == q * p + m * p;
    }
  }

  lemma BeforeStep(slot: Slot, t: nat)
    requires slot.period > 0
    ensures Before(slot, t + 1) == Before(slot, t) + if slot.Fires(t) then 1 else 0
  {
    BeforeIsCount(slot, t);
    FiresIff(slot, t);
    var k := Before(slot, t);
    if slot.Fires(t) {
      InstantsGrow(slot, k, k + 1);
      BeforeIsUnique(slot, t + 1, k + 1);
    } else {
      BeforeIsUnique(slot, t + 1, k);
    }
  }

  /** c consecutive instants, from the k-th on. */
  function Progression(slot: Slot, k: nat, c: nat): (r: seq<nat>)
    ensures |r| == c && forall i :: 0 <= i < c ==> r[i] == Instant(slot, k + i)
  {
    if c == 0 then [] else Progression(slot, k, c - 1) + [Instant(slot, k + c - 1)]
  }

  /** The instants from t0 up to, not including, t0 + n. */
  function Instants(slot: Slot, t0: nat, n: nat): seq<nat>
    requires slot.period > 0
  {
    Progression(slot, Before(slot, t0), Due(slot, t0, n))
  }

  /** How many there are. */
  function Due(slot: Slot, t0: nat, n: nat): (c: nat)
    requires slot.period > 0
  {
    if Before(slot, t0 + n) >= Before(slot, t0) then Before(slot, t0 + n) - Before(slot, t0) else 0
  }

  /** Index of the first response among the first c that is not good, c when all are. */
  function FirstBad(responses: nat -> int, c: nat): (i: nat)
    ensures i <= c
    ensures forall j :: 0 <= j < i ==> Good(responses(j))
    ensures i < c ==> !Good(responses(i))
  {
    if c == 0 then 0
    else
      var i := FirstBad(responses, c - 1);
      if i < c - 1 || !Good(responses(c - 1)) then i else c
  }

  /** How many heartbeats are sent when c are due: up to and including the first that fails. */
  function Sent(responses: nat -> int, c: nat): (s: nat)
    ensures s <= c
  {
    var bad := FirstBad(responses, c);
    if bad < c then bad + 1 else c
  }

  lemma {:induction false} DueStep(slot: Slot, t0: nat, n: nat)
    requires slot.period > 0
    ensures Before(slot, t0 + n) >= Before(slot, t0)
    ensures n > 0 ==> Due(slot, t0, n) == Due(slot, t0, n - 1) + if slot.Fires(t0 + n - 1) then 1 else 0
    ensures n > 0 && slot.Fires(t0 + n - 1) ==>
              Instants(slot, t0, n) == Instants(slot, t0, n - 1) + [t0 + n - 1]
  {
    if n == 0 {
    } else {
      DueStep(slot, t0, n - 1);
      BeforeStep(slot, t0 + n - 1);
      FiresIff(slot, t0 + n - 1);
    }
  }

  /** The run in closed form: the instants of the window in order, cut off after the first heartbeat
      the NRF does not answer well; whether ticking began before or after the start. */
  lemma {:induction false} RunIsInstants(slot: Slot, responses: nat -> int, t0: nat, n: nat)
    requires slot.period > 0
    ensures var c := Due(slot, t0, n);
            var end := Run(slot, responses, t0, n);
            && end.fired == Instants(slot, t0, n)[..Sent(responses, c)]
            && (end.connected <==> FirstBad(responses, c) == c)
  {
    if n == 0 {
    } else {
      RunIsInstants(slot, responses, t0, n - 1);
      DueStep(slot, t0, n);
    }
  }

  // ---------------------------------------------------------------- consequences

  predicate AllGood(responses: nat -> int, c: nat) {
    FirstBad(responses, c) == c
  }

  /** While heartbeats succeed: as many firings as there are k with t0 <= start + k period < t0 + n, one
      period apart, at exactly the ticks the filter passes. */
  lemma Spacing(slot: Slot, responses: nat -> int, t0: nat, n: nat)
    requires slot.period > 0 && AllGood(responses, Due(slot, t0, n))
    ensures var fired := Run(slot, responses, t0, n).fired;
            && |fired| == Before(slot, t0 + n) - Before(slot, t0)
            && (forall i :: 0 < i < |fired| ==> fired[i] == fired[i - 1] + slot.period)
            && (forall t: nat :: t in fired <==> t0 <= t < t0 + n && slot.Fires(t))
  {
    RunIsInstants(slot, responses, t0, n);
    DueStep(slot, t0, n);
    var fired := Run(slot, responses, t0, n).fired;
    var b := Before(slot, t0);
    forall i | 0 < i < |fired| ensures fired[i] == fired[i - 1] + slot.period {
      assert fired[i] == Instant(slot, b + i) && fired[i - 1] == Instant(slot, b + i - 1);
      NextInstant(slot, b + i - 1);
    }
    forall t: nat ensures t in fired <==> t0 <= t < t0 + n && slot.Fires(t) {
      FiredExactly(slot, t0, n, t);
    }
  }

  lemma {:induction false} FiredExactly(slot: Slot, t0: nat, n: nat, t: nat)
    requires slot.period > 0
    ensures t in Instants(slot, t0, n) <==> t0 <= t < t0 + n && slot.Fires(t)
  {
    if n > 0 {
      FiredExactly(slot, t0, n - 1, t);
      DueStep(slot, t0, n);
      if !slot.Fires(t0 + n - 1) {
        assert Instants(slot, t0, n) == Instants(slot, t0, n - 1);
      }
    } else {
      assert Instants(slot, t0, 0) == [];
    }
  }

  /** Every window of `period` ticks at or after the start contains exactly one firing tick. */
  lemma OneInEachWindow(slot: Slot, a: nat)
    requires slot.period > 0 && a >= slot.start
    ensures var t := Instant(slot, Before(slot, a));
            && a <= t < a + slot.period && slot.Fires(t)
            && forall u: nat :: a <= u < a + slot.period && slot.Fires(u) ==> u == t
  {
    var k := Before(slot, a);
    BeforeIsCount(slot, a);
    if k > 0 { NextInstant(slot, k - 1); }
    FiresIff(slot, Instant(slot, k));
    forall u: nat | a <= u < a + slot.period && slot.Fires(u) ensures u == Instant(slot, k) {
      FiresIff(slot, u);
      var j := Before(slot, u);
      if j < k {
        if j < k - 1 { InstantsGrow(slot, j, k - 1); }
      } else if k < j {
        InstantsGrow(slot, k, j);
      }
    }
  }

  /** After a response other than 200 and 204 nothing is sent in the rest of the run, however long. */
  lemma {:induction false} StopsForGood(slot: Slot, responses: nat -> int, t0: nat, n: nat, more: nat)
    requires slot.period > 0 && !Run(slot, responses, t0, n).connected
    ensures Run(slot, responses, t0, n + more) == Run(slot, responses, t0, n)
  {
    if more == 0 {
    } else {
      StopsForGood(slot, responses, t0, n, more - 1);
    }
  }

  /** The answers 200 and 204 keep the heartbeat going, every other one ends it: it is still connected exactly
      when each heartbeat sent was answered by one of the two, and then every instant has been served. */
  lemma ConnectedIff(slot: Slot, responses: nat -> int, t0: nat, n: nat)
    requires slot.period > 0
    ensures var end := Run(slot, responses, t0, n);
            && (end.connected <==> forall i: nat :: i < |end.fired| ==> responses(i) == 200 || responses(i) == 204)
            && (end.connected <==> end.fired == Instants(slot, t0, n) && !LastFailed(responses, |end.fired|))
            && end.fired <= Instants(slot, t0, n)
            && (!end.connected ==>
                  && LastFailed(responses, |end.fired|)
                  && forall i: nat :: i < |end.fired| - 1 ==> responses(i) == 200 || responses(i) == 204)
  {
    RunIsInstants(slot, responses, t0, n);
  }

  /** Of c answers the last is neither 200 nor 204. */
  predicate LastFailed(responses: nat -> int, c: nat) {
    c > 0 && responses(c - 1) != 200 && responses(c - 1) != 204
  }
}
