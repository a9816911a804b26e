/** Health polling: an observer is told of changes, and told again until it has heard. */
module Watchdog {
  import opened Prelude

  datatype Health = Connected | Disconnected | Degraded

  /** One poll: the health call fails, or it gives a reading; `heard` is whether the observer would
      take it without raising. */
  datatype Poll = HealthFault | Reading(status: Health, heard: bool)

  /** The statuses delivered to the observer, and the last one it has heard. */
  datatype Watch = Watch(delivered: seq<Health>, last: Option<Health>)

  function Observe(transitionsOnly: bool, w: Watch, p: Poll): Watch {
    if p.HealthFault? then w
    else if transitionsOnly && w.last == Some(p.status) then w
    else if !p.heard then w
    else Watch(w.delivered + [p.status], Some(p.status))
  }

  function Watched(transitionsOnly: bool, polls: seq<Poll>): Watch {
    if polls == [] then Watch([], None)
    else Observe(transitionsOnly, Watched(transitionsOnly, polls[..|polls| - 1]), polls[|polls| - 1])
  }

  method PollHealth(transitionsOnly: bool, polls: seq<Poll>) returns (delivered: seq<Health>, last: Option<Health>)
    ensures Watch(delivered, last) == Watched(transitionsOnly, polls)
  {
    delivered, last := [], None;
    for i := 0 to |polls|
      invariant Watch(delivered, last) == Watched(transitionsOnly, polls[..i])
    {
      assert polls[..i + 1][..i] == polls[..i];
      if polls[i].HealthFault? {
        continue;
      }
      if transitionsOnly && last == Some(polls[i].status) {
        continue;
      }
      if !polls[i].heard {
        continue;
      }
      delivered := delivered + [polls[i].status];
      last := Some(polls[i].status);
    }
    assert polls[..|polls|] == polls;
  }

  function Last(s: seq<Health>): Option<Health> {
    if s == [] then None else Some(s[|s| - 1])
  }

  /** The readings, health faults left out. */
  function Readings(polls: seq<Poll>): seq<Health> {
    if polls == [] then []
    else
      Readings(polls[..|polls| - 1])
      + if polls[|polls| - 1].Reading? then [polls[|polls| - 1].status] else []
  }

  /** Those of them the observer would take. */
  function Heard(polls: seq<Poll>): seq<Health> {
    if polls == [] then []
    else
      var p := polls[|polls| - 1];
      Heard(polls[..|polls| - 1]) + if p.Reading? && p.heard then [p.status] else []
  }

  /** A sequence with adjacent repetitions left out. */
  function StutterFree(s: seq<Health>): seq<Health> {
    if s == [] then []
    else
      var front := StutterFree(s[..|s| - 1]);
      if Last(front) == Some(s[|s| - 1]) then front else front + [s[|s| - 1]]
  }

  /** For any readings, health faults and observer faults: the deliveries are exactly the readings
      the observer takes, without their adjacent repetitions; so a change it failed to take is
      offered again at the next reading, and a fault never hides or repeats one. */
  lemma {:induction false} DeliveriesExact(polls: seq<Poll>)
    ensures Watched(true, polls).delivered == StutterFree(Heard(polls))
    ensures Watched(true, polls).last == Last(StutterFree(Heard(polls)))
  {
    if polls != [] {
      var most, p := polls[..|polls| - 1], polls[|polls| - 1];
      DeliveriesExact(most);
      if p.Reading? && p.heard {
        StutterNext(Heard(most), p.status);
      } else {
        assert Heard(most) + [] == Heard(most);
      }
    }
  }

  lemma StutterNext(s: seq<Health>, h: Health)
    ensures StutterFree(s + [h])
         == if Last(StutterFree(s)) == Some(h) then StutterFree(s) else StutterFree(s) + [h]
  {
    assert (s + [h])[..|s|] == s;
  }

  lemma {:induction false} NoStutter(s: seq<Health>)
    ensures Last(StutterFree(s)) == Last(s)
    ensures forall i :: 0 < i < |StutterFree(s)| ==> StutterFree(s)[i - 1] != StutterFree(s)[i]
    ensures forall h :: h in StutterFree(s) <==> h in s
  {
    if s != [] {
      var most, last := s[..|s| - 1], s[|s| - 1];
      NoStutter(most);
      assert forall h :: h in s <==> h in most || h == last by { assert s == most + [last]; }
    }
  }

  /** No status is delivered twice in a row, and after a poll without faults the last delivered
      status is the reading. */
  lemma EdgesDelivered(polls: seq<Poll>)
    ensures var w := Watched(true, polls);
      && w.last == Last(w.delivered)
      && (forall i :: 0 < i < |w.delivered| ==> w.delivered[i - 1] != w.delivered[i])
      && (polls != [] && polls[|polls| - 1].Reading? && polls[|polls| - 1].heard ==>
            w.last == Some(polls[|polls| - 1].status))
  {
    DeliveriesExact(polls);
    NoStutter(Heard(polls));
  }

  lemma {:induction false} AllHeard(polls: seq<Poll>)
    requires forall p :: p in polls && p.Reading? ==> p.heard
    ensures Heard(polls) == Readings(polls)
  {
    if polls != [] {
      var most := polls[..|polls| - 1];
      assert polls[|polls| - 1] in polls && forall q :: q in most ==> q in polls;
      AllHeard(most);
    }
  }

  /** If the observer never fails, it is told exactly the readings without their repetitions. */
  lemma AllHeardIsStutterFree(polls: seq<Poll>)
    requires forall p :: p in polls && p.Reading? ==> p.heard
    ensures Watched(true, polls).delivered == StutterFree(Readings(polls))
  {
    DeliveriesExact(polls);
    AllHeard(polls);
  }

  /** Without transitions-only, every reading the observer takes is delivered. */
  lemma {:induction false} HeartbeatDeliversAll(polls: seq<Poll>)
    ensures Watched(false, polls).delivered == Heard(polls)
  {
    if polls != [] {
      HeartbeatDeliversAll(polls[..|polls| - 1]);
    }
  }
}
