/** AccessPointManager: the access points known to the service, fed by discovery agents. */
module AccessPointRegistry {
  import opened Wrappers
  import opened Sequences

  /** An access point object: its interface name, and which object it is. */
  datatype AccessPoint = AccessPoint(name: string, identity: nat)

  // ---------- The list as a table ----------

  ghost predicate Distinct(list: seq<AccessPoint>) {
    forall i, j :: 0 <= i < j < |list| ==> list[i].name != list[j].name
  }

  /** The first position of a name, or the length of the list (std::ranges::find_if). */
  function Position(list: seq<AccessPoint>, name: string): (i: nat)
    ensures i <= |list|
    ensures i < |list| ==> list[i].name == name
    ensures forall j :: 0 <= j < i ==> list[j].name != name
  {
    if list == [] || list[0].name == name then 0 else 1 + Position(list[1..], name)
  }

  function Lookup(list: seq<AccessPoint>, name: string): Option<AccessPoint> {
    var i := Position(list, name);
    if i < |list| then Some(list[i]) else None
  }

  function Added(list: seq<AccessPoint>, a: AccessPoint, controllable: bool): seq<AccessPoint> {
    if !controllable || Position(list, a.name) < |list| then list else list + [a]
  }

  function Removed(list: seq<AccessPoint>, name: string): seq<AccessPoint> {
    var i := Position(list, name);
    if i < |list| then list[..i] + list[i + 1..] else list
  }

  lemma AddedLooksUp(list: seq<AccessPoint>, a: AccessPoint, controllable: bool, name: string)
    requires Distinct(list)
    ensures Distinct(Added(list, a, controllable))
    ensures Lookup(Added(list, a, controllable), name)
         == if controllable && name == a.name && Lookup(list, name).None? then Some(a) else Lookup(list, name)
  {
    var after := Added(list, a, controllable);
    var i, j := Position(list, name), Position(after, name);
    if after == list + [a] {
      assert forall k :: 0 <= k < |list| ==> after[k] == list[k];
      assert after[|list|] == a;
    }
  }

  lemma RemovedAt(list: seq<AccessPoint>, removed: string, k: nat)
    requires k < |Removed(list, removed)|
    ensures Removed(list, removed)[k] == list[if k < Position(list, removed) then k else k + 1]
  {
    if Position(list, removed) < |list| {
      WithoutAt(list, Position(list, removed), k);
    }
  }

  lemma RemovedStaysDistinct(list: seq<AccessPoint>, removed: string)
    requires Distinct(list)
    ensures Distinct(Removed(list, removed))
  {
    var after := Removed(list, removed);
    forall i, j | 0 <= i < j < |after|
      ensures after[i].name != after[j].name
    {
      RemovedAt(list, removed, i);
      RemovedAt(list, removed, j);
    }
  }

  lemma LookupIs(list: seq<AccessPoint>, k: nat)
    requires Distinct(list) && k < |list|
    ensures Lookup(list, list[k].name) == Some(list[k])
  {
    assert Position(list, list[k].name) <= k;
  }

  lemma RemovedLooksUp(list: seq<AccessPoint>, removed: string, name: string)
    requires Distinct(list)
    ensures Distinct(Removed(list, removed))
    ensures Lookup(Removed(list, removed), name) == if name == removed then None else Lookup(list, name)
  {
    RemovedStaysDistinct(list, removed);
    var r, i, after := Position(list, removed), Position(list, name), Removed(list, removed);
    if i < |list| && name != removed {
      var moved := if i < r then i else i - 1;
      RemovedAt(list, removed, moved);
      LookupIs(after, moved);
    } else {
      forall k | 0 <= k < |after|
        ensures after[k].name != name
      {
        RemovedAt(list, removed, k);
      }
    }
  }

  // ---------- Histories ----------

  /** What reaches the manager: an access point, whose controller can be created or not, that arrives or is
      found by a probe, and the departure of one. */
  datatype Event = Add(accessPoint: AccessPoint, controllable: bool) | Remove(name: string)

  function Next(list: seq<AccessPoint>, e: Event): seq<AccessPoint> {
    match e
    case Add(a, controllable) => Added(list, a, controllable)
    case Remove(name) => Removed(list, name)
  }

  function Run(events: seq<Event>): seq<AccessPoint> {
    if events == [] then [] else Next(Run(events[..|events| - 1]), events[|events| - 1])
  }

  predicate IsAdd(e: Event, name: string) { e.Add? && e.controllable && e.accessPoint.name == name }

  predicate IsRemove(e: Event, name: string) { e == Remove(name) }

  /** No event from `i` on removes the name. */
  ghost predicate KeptFrom(events: seq<Event>, name: string, i: nat) {
    forall k :: i <= k < |events| ==> !IsRemove(events[k], name)
  }

  /** Event `i` is the first controllable add of the name since it was last removed. */
  ghost predicate Introduces(events: seq<Event>, name: string, i: nat) {
    && i < |events| && IsAdd(events[i], name) && KeptFrom(events, name, i)
    && forall j: nat :: j < i && IsAdd(events[j], name) ==> !KeptFrom(events, name, j)
  }

  lemma {:induction false} NamesStayDistinct(events: seq<Event>)
    ensures Distinct(Run(events))
  {
    if events != [] {
      var n := |events| - 1;
      NamesStayDistinct(events[..n]);
      match events[n]
      case Add(a, controllable) => AddedLooksUp(Run(events[..n]), a, controllable, a.name);
      case Remove(name) => RemovedLooksUp(Run(events[..n]), name, name);
    }
  }

  lemma KeptFromSnoc(events: seq<Event>, name: string, i: nat)
    requires i < |events|
    ensures KeptFrom(events, name, i)
        <==> KeptFrom(events[..|events| - 1], name, i) && !IsRemove(events[|events| - 1], name)
  {
    var n := |events| - 1;
    if KeptFrom(events, name, i) {
      assert !IsRemove(events[n], name);
      assert forall k :: i <= k < n ==> !IsRemove(events[k], name);
    }
  }

  /** The access point for a name after any history. */
  ghost predicate Explains(events: seq<Event>, name: string, found: Option<AccessPoint>) {
    match found
    case Some(a) => exists i: nat :: Introduces(events, name, i) && events[i].accessPoint == a
    case None => forall i: nat :: i < |events| && IsAdd(events[i], name) ==> !KeptFrom(events, name, i)
  }

  /** After any history of arrivals, departures and probe results a name is known exactly when a controllable
      add followed its last removal, and then it stands for the access point of the first such add. */
  lemma {:induction false} HistoryDecides(events: seq<Event>, name: string)
    ensures Explains(events, name, Lookup(Run(events), name))
  {
    if events != [] {
      var n := |events| - 1;
      var e := events[n];
      HistoryDecides(events[..n], name);
      NamesStayDistinct(events[..n]);
      HistoryStep(events, name, Lookup(Run(events[..n]), name));
      match e
      case Add(a, controllable) => AddedLooksUp(Run(events[..n]), a, controllable, name);
      case Remove(removed) => RemovedLooksUp(Run(events[..n]), removed, name);
    }
  }

  lemma HistoryStep(events: seq<Event>, name: string, before: Option<AccessPoint>)
    requires events != [] && Explains(events[..|events| - 1], name, before)
    ensures var e := events[|events| - 1];
            && (IsRemove(e, name) ==> Explains(events, name, None))
            && (!IsRemove(e, name) && before.Some? ==> Explains(events, name, before))
            && (IsAdd(e, name) && before.None? ==> Explains(events, name, Some(e.accessPoint)))
            && (!IsRemove(e, name) && !IsAdd(e, name) && before.None? ==> Explains(events, name, None))
  {
    var n := |events| - 1;
    forall i: nat | i < n
      ensures KeptFrom(events, name, i) <==> KeptFrom(events[..n], name, i) && !IsRemove(events[n], name)
    {
      KeptFromSnoc(events, name, i);
    }
    if before.Some? && !IsRemove(events[n], name) {
      var i: nat :| Introduces(events[..n], name, i) && events[..n][i].accessPoint == before.value;
      assert Introduces(events, name, i);
    }
    if before.None? && IsAdd(events[n], name) {
      assert forall j: nat :: j < n && IsAdd(events[j], name) ==> IsAdd(events[..n][j], name);
      assert Introduces(events, name, n);
    }
  }

  /** Without departures every interleaving of the same arrivals and probe results ends with the same names. */
  lemma InterleavingsAgree(a: seq<Event>, b: seq<Event>, name: string)
    requires multiset(a) == multiset(b)
    requires forall e :: e in a ==> e.Add?
    ensures Lookup(Run(a), name).Some? <==> Lookup(Run(b), name).Some?
    ensures Lookup(Run(a), name).Some? <==> exists e :: e in a && IsAdd(e, name)
  {
    assert forall e :: e in b ==> e in multiset(b);
    assert forall e :: e in a ==> e in multiset(a);
    KnownWithoutDepartures(a, name);
    KnownWithoutDepartures(b, name);
  }

  lemma KnownWithoutDepartures(events: seq<Event>, name: string)
    requires forall e :: e in events ==> e.Add?
    ensures Lookup(Run(events), name).Some? <==> exists e :: e in events && IsAdd(e, name)
  {
    HistoryDecides(events, name);
    assert forall i: nat :: i < |events| ==> KeptFrom(events, name, i);
    if e :| e in events && IsAdd(e, name) {
      var i: nat :| i < |events| && events[i] == e;
      assert KeptFrom(events, name, i);
    }
  }

  // ---------- The manager ----------

  datatype AccessPointPresenceEvent = Arrived | Departed | OtherPresence

  /** What the probe of a discovery agent comes to: no probe, no answer in time, or the access points found, each
      with whether its controller can be created. */
  datatype Probe = NoProbe | TimedOut | Ready(found: seq<(AccessPoint, bool)>)

  function Adds(found: seq<(AccessPoint, bool)>): (events: seq<Event>)
    ensures |events| == |found| && forall i :: 0 <= i < |found| ==> events[i] == Add(found[i].0, found[i].1)
  {
    seq(|found|, i requires 0 <= i < |found| => Add(found[i].0, found[i].1))
  }

  lemma AddsNext(before: seq<Event>, found: seq<(AccessPoint, bool)>, i: nat)
    requires i < |found|
    ensures before + Adds(found)[..i] + [Add(found[i].0, found[i].1)] == before + Adds(found)[..i + 1]
  {
    assert Adds(found)[..i + 1] == Adds(found)[..i] + [Adds(found)[i]];
  }

  /** Each method holds the lock for as long as it uses the list, so a concurrent run is some sequence of their
      calls, with the additions of AddDiscoveryAgent possibly apart. */
  class AccessPointManager {
    var accessPoints: seq<AccessPoint>
    var discoveryAgents: seq<nat>
    ghost var events: seq<Event>

    ghost predicate Valid()
      reads this
    {
      accessPoints == Run(events)
    }

    constructor ()
      ensures Valid() && events == [] && accessPoints == [] && discoveryAgents == []
    {
      accessPoints, discoveryAgents, events := [], [], [];
    }

    method AddAccessPoint(accessPoint: AccessPoint, controllable: bool)
      requires Valid()
      modifies this`accessPoints, this`events
      ensures Valid() && events == old(events) + [Add(accessPoint, controllable)]
      ensures accessPoints == Added(old(accessPoints), accessPoint, controllable)
    {
      events := events + [Add(accessPoint, controllable)];
      assert events[..|events| - 1] == old(events);
      if !controllable {
        return;
      }
      if Position(accessPoints, accessPoint.name) < |accessPoints| {
        return;
      }
      accessPoints := accessPoints + [accessPoint];
    }

    method RemoveAccessPoint(accessPoint: AccessPoint)
      requires Valid()
      modifies this`accessPoints, this`events
      ensures Valid() && events == old(events) + [Remove(accessPoint.name)]
      ensures accessPoints == Removed(old(accessPoints), accessPoint.name)
    {
      events := events + [Remove(accessPoint.name)];
      assert events[..|events| - 1] == old(events);
      var i := Position(accessPoints, accessPoint.name);
      if i == |accessPoints| {
        return;
      }
      accessPoints := accessPoints[..i] + accessPoints[i + 1..];
    }

    method GetAccessPoint(interfaceName: string) returns (found: Option<AccessPoint>)
      requires Valid()
      ensures Explains(events, interfaceName, found)
    {
      HistoryDecides(events, interfaceName);
      found := Lookup(accessPoints, interfaceName);
    }

    /** Every known access point, once. */
    method GetAllAccessPoints() returns (all: seq<AccessPoint>)
      requires Valid()
      ensures Distinct(all)
      ensures forall a :: a in all <==> Explains(events, a.name, Some(a))
    {
      all := accessPoints;
      NamesStayDistinct(events);
      forall a: AccessPoint
        ensures a in all <==> Explains(events, a.name, Some(a))
      {
        HistoryDecides(events, a.name);
        ExplainedOnce(events, a.name, Lookup(all, a.name), a);
        if i :| 0 <= i < |all| && all[i] == a {
          assert Position(all, a.name) == i;
        }
      }
    }

    method OnAccessPointPresenceChanged(
      presence: AccessPointPresenceEvent, accessPointChanged: AccessPoint, controllable: bool)
      requires Valid()
      modifies this`accessPoints, this`events
      ensures Valid()
      ensures events == old(events) + match presence
                                      case Arrived => [Add(accessPointChanged, controllable)]
                                      case Departed => [Remove(accessPointChanged.name)]
                                      case OtherPresence => []
    {
      match presence {
        case Arrived => AddAccessPoint(accessPointChanged, controllable);
        case Departed => RemoveAccessPoint(accessPointChanged);
        case OtherPresence =>
      }
    }

    method AddDiscoveryAgent(discoveryAgent: nat, probe: Probe)
      requires Valid()
      modifies this
      ensures Valid() && discoveryAgents == old(discoveryAgents) + [discoveryAgent]
      ensures events == old(events) + if probe.Ready? then Adds(probe.found) else []
    {
      discoveryAgents := discoveryAgents + [discoveryAgent];
      if probe.Ready? {
        for i := 0 to |probe.found|
          invariant Valid() && discoveryAgents == old(discoveryAgents) + [discoveryAgent]
          invariant events == old(events) + Adds(probe.found)[..i]
        {
          AddAccessPoint(probe.found[i].0, probe.found[i].1);
          AddsNext(old(events), probe.found, i);
        }
      }
    }
  }

  lemma IntroducedOnce(events: seq<Event>, name: string, i: nat, j: nat)
    requires Introduces(events, name, i) && Introduces(events, name, j)
    ensures i == j
  {
  }

  lemma ExplainedOnce(events: seq<Event>, name: string, found: Option<AccessPoint>, a: AccessPoint)
    requires Explains(events, name, found)
    ensures Explains(events, name, Some(a)) <==> found == Some(a)
  {
    if Explains(events, name, Some(a)) {
      var i: nat :| Introduces(events, name, i) && events[i].accessPoint == a;
      if found.Some? {
        var j: nat :| Introduces(events, name, j) && events[j].accessPoint == found.value;
        IntroducedOnce(events, name, i, j);
      }
    }
  }

  lemma IntroducedBefore(events: seq<Event>, name: string, k: nat)
    requires events != [] && Introduces(events, name, k) && Lookup(Run(events[..|events| - 1]), name).Some?
    ensures k < |events| - 1 && Introduces(events[..|events| - 1], name, k)
  {
    var n := |events| - 1;
    var prefix := events[..n];
    HistoryDecides(prefix, name);
    var i: nat :| Introduces(prefix, name, i);
    assert !IsRemove(events[n], name) by { if k < n { KeptFromSnoc(events, name, k); } }
    forall j: nat | j < n
      ensures KeptFrom(events, name, j) <==> KeptFrom(prefix, name, j)
    {
      KeptFromSnoc(events, name, j);
    }
    assert Introduces(events, name, i);
    IntroducedOnce(events, name, i, k);
  }

  /** The list is in the order of arrival: of two known access points the one that stands first was introduced first. */
  ghost predicate InOrder(events: seq<Event>, p: nat, q: nat, i: nat, j: nat) {
    p < q < |Run(events)| && Introduces(events, Run(events)[p].name, i) && Introduces(events, Run(events)[q].name, j)
    ==> i < j
  }

  lemma Reintroduced(events: seq<Event>, p: nat, p': nat, i: nat)
    requires events != [] && p < |Run(events)| && Introduces(events, Run(events)[p].name, i)
    requires var before := Run(events[..|events| - 1]); p' < |before| && before[p'] == Run(events)[p]
    ensures Introduces(events[..|events| - 1], Run(events)[p].name, i)
  {
    NamesStayDistinct(events[..|events| - 1]);
    LookupIs(Run(events[..|events| - 1]), p');
    IntroducedBefore(events, Run(events)[p].name, i);
  }

  /** Where the two access points stood before the last event, they were in the same order. */
  lemma OrderKept(events: seq<Event>, p: nat, q: nat, p': nat, q': nat, i: nat, j: nat)
    requires events != [] && InOrder(events[..|events| - 1], p', q', i, j) && p' < q'
    requires p < q < |Run(events)|
    requires var before := Run(events[..|events| - 1]);
             q' < |before| && before[p'] == Run(events)[p] && before[q'] == Run(events)[q]
    ensures InOrder(events, p, q, i, j)
  {
    if Introduces(events, Run(events)[p].name, i) && Introduces(events, Run(events)[q].name, j) {
      Reintroduced(events, p, p', i);
      Reintroduced(events, q, q', j);
    }
  }

  lemma OrderWithNew(events: seq<Event>, p: nat, q: nat, i: nat, j: nat)
    requires events != [] && p < q < |Run(events)| && q == |Run(events[..|events| - 1])|
    requires Run(events[..|events| - 1])[p] == Run(events)[p]
    requires Lookup(Run(events[..|events| - 1]), Run(events)[q].name).None?
    ensures InOrder(events, p, q, i, j)
  {
    if Introduces(events, Run(events)[p].name, i) && Introduces(events, Run(events)[q].name, j) {
      NamesStayDistinct(events[..|events| - 1]);
      LookupIs(Run(events[..|events| - 1]), p);
      IntroducedBefore(events, Run(events)[p].name, i);
      NewlyIntroduced(events, Run(events)[q].name, j);
    }
  }

  lemma {:induction false} OrderOfArrival(events: seq<Event>, p: nat, q: nat, i: nat, j: nat)
    ensures InOrder(events, p, q, i, j)
    decreases |events|
  {
    if p < q < |Run(events)| {
      var prefix := events[..|events| - 1];
      match events[|events| - 1]
      case Add(a, controllable) =>
        if q < |Run(prefix)| {
          OrderOfArrival(prefix, p, q, i, j);
          OrderKept(events, p, q, p, q, i, j);
        } else {
          OrderWithNew(events, p, q, i, j);
        }
      case Remove(name) =>
        var r := Position(Run(prefix), name);
        var p', q' := if p < r then p else p + 1, if q < r then q else q + 1;
        RemovedAt(Run(prefix), name, p);
        RemovedAt(Run(prefix), name, q);
        OrderOfArrival(prefix, p', q', i, j);
        OrderKept(events, p, q, p', q', i, j);
    }
  }

  lemma NewlyIntroduced(events: seq<Event>, name: string, j: nat)
    requires events != [] && Introduces(events, name, j) && Lookup(Run(events[..|events| - 1]), name).None?
    ensures j == |events| - 1
  {
    var n := |events| - 1;
    HistoryDecides(events[..n], name);
    if j < n {
      KeptFromSnoc(events, name, j);
    }
  }
}
