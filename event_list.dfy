/**
 * EventList.java: the pending events, kept in insertion order. The earliest
 * event is found by a linear scan; ties go to the event inserted first.
 */
module EventLists {
  import opened Wrappers
  import opened Events

  /** The kinds of event the scans of the source look for. */
  datatype Filter = TimersOf(entity: int) | ArrivalsAt(entity: int) | AppMessages

  predicate Matches(f: Filter, e: Event)
  {
    match f
    case TimersOf(ent) => e.kind == TimerInterrupt && e.entity == ent
    case ArrivalsAt(ent) => e.kind == FromNetwork && e.entity == ent
    case AppMessages => e.kind == FromApp
  }

  /** The number of events in s that match f. */
  function Count(s: seq<Event>, f: Filter): nat
  {
    if s == [] then 0 else Count(s[..|s| - 1], f) + (if Matches(f, s[|s| - 1]) then 1 else 0)
  }

  /** s without its k-th element; the others keep their order. */
  function RemoveAt(s: seq<Event>, k: nat): (r: seq<Event>)
    requires k < |s|
    ensures |r| == |s| - 1
    ensures forall i :: 0 <= i < |r| ==> r[i] == s[if i < k then i else i + 1]
  {
    s[..k] + s[k + 1..]
  }

  lemma CountAppend(s: seq<Event>, e: Event, f: Filter)
    ensures Count(s + [e], f) == Count(s, f) + (if Matches(f, e) then 1 else 0)
  {
    assert (s + [e])[..|s|] == s;
  }

  /** Removing one event lowers the count of its own kind by one and leaves every other count alone. */
  lemma {:induction false} CountRemoveAt(s: seq<Event>, k: nat, f: Filter)
    requires k < |s|
    ensures Count(RemoveAt(s, k), f) == Count(s, f) - (if Matches(f, s[k]) then 1 else 0)
  {
    var n := |s| - 1;
    if k == n {
      assert RemoveAt(s, k) == s[..n];
    } else {
      var init := s[..n];
      CountRemoveAt(init, k, f);
      assert RemoveAt(s, k) == RemoveAt(init, k) + [s[n]];
      CountAppend(RemoveAt(init, k), s[n], f);
    }
  }

  /** No event matches exactly when the count is zero. */
  lemma {:induction false} CountZeroIff(s: seq<Event>, f: Filter)
    ensures Count(s, f) == 0 <==> forall i :: 0 <= i < |s| ==> !Matches(f, s[i])
  {
    if s != [] {
      var n := |s| - 1;
      CountZeroIff(s[..n], f);
      assert forall i :: 0 <= i < n ==> s[..n][i] == s[i];
    }
  }

  /** The index of the first event matching f, if any. */
  function FirstMatch(s: seq<Event>, f: Filter): (r: Option<nat>)
    ensures r.None? <==> forall i :: 0 <= i < |s| ==> !Matches(f, s[i])
    ensures r.Some? ==> r.value < |s| && Matches(f, s[r.value])
    ensures r.Some? ==> forall j :: 0 <= j < r.value ==> !Matches(f, s[j])
  {
    if s == [] then None
    else
      var n := |s| - 1;
      assert forall i :: 0 <= i < n ==> s[..n][i] == s[i];
      match FirstMatch(s[..n], f)
      case Some(k) => Some(k)
      case None => if Matches(f, s[n]) then Some(n) else None
  }

  /** An event appended after none that match is the first match. */
  lemma FirstMatchAppend(s: seq<Event>, e: Event, f: Filter)
    requires forall i :: 0 <= i < |s| ==> !Matches(f, s[i])
    requires Matches(f, e)
    ensures FirstMatch(s + [e], f) == Some(|s|)
  {
    assert (s + [e])[..|s|] == s;
  }

  /** The index of the last event matching f, if any. */
  function LastMatch(s: seq<Event>, f: Filter): (r: Option<nat>)
    ensures r.None? <==> forall i :: 0 <= i < |s| ==> !Matches(f, s[i])
    ensures r.Some? ==> r.value < |s| && Matches(f, s[r.value])
    ensures r.Some? ==> forall j :: r.value < j < |s| ==> !Matches(f, s[j])
  {
    if s == [] then None
    else
      var n := |s| - 1;
      assert forall i :: 0 <= i < n ==> s[..n][i] == s[i];
      if Matches(f, s[n]) then Some(n) else LastMatch(s[..n], f)
  }

  /** The index of the soonest event: no event is earlier, and every event before it is strictly later. */
  function Earliest(s: seq<Event>): (k: nat)
    requires s != []
    ensures k < |s|
    ensures forall j :: 0 <= j < |s| ==> s[k].time <= s[j].time
    ensures forall j :: 0 <= j < k ==> s[j].time > s[k].time
  {
    var n := |s| - 1;
    if n == 0 then 0
    else
      var k := Earliest(s[..n]);
      assert forall i :: 0 <= i < n ==> s[..n][i] == s[i];
      if s[n].time < s[k].time then n else k
  }

  /** What `getLastPacketTime` reports: the time of the last pending arrival at the entity, or 0. */
  function LastPacketTime(s: seq<Event>, entityTo: int): real
  {
    match LastMatch(s, ArrivalsAt(entityTo))
    case None => 0.0
    case Some(k) => s[k].time
  }

  /** The list left by `removeTimer`: the first timer of the entity is gone, if there was one. */
  function WithoutTimer(s: seq<Event>, entity: int): seq<Event>
  {
    match FirstMatch(s, TimersOf(entity))
    case None => s
    case Some(k) => RemoveAt(s, k)
  }

  class EventList {
    var list: seq<Event>

    constructor ()
      ensures list == []
    {
      list := [];
    }

    /** `add(e)`: appends at the end. */
    method Add(e: Event)
      modifies this
      ensures list == old(list) + [e]
    {
      list := list + [e];
    }

    /** `removeNext()`: removes and returns the soonest event, the first of those tied; None when empty. */
    method RemoveNext() returns (next: Option<Event>)
      modifies this
      ensures old(list) == [] <==> next.None?
      ensures next.None? ==> list == old(list)
      ensures next.Some? ==> next.value == old(list)[Earliest(old(list))]
      ensures next.Some? ==> list == RemoveAt(old(list), Earliest(old(list)))
    {
      if list == [] {
        return None;
      }
      var index := 0;
      var soonest := list[index].time;
      for i := 0 to |list|
        invariant index < |list| && soonest == list[index].time
        invariant i == 0 ==> index == 0
        invariant i > 0 ==> index == Earliest(list[..i])
      {
        assert list[..i + 1][..i] == list[..i];
        if list[i].time < soonest {
          soonest := list[i].time;
          index := i;
        }
      }
      assert list[..|list|] == list;
      next := Some(list[index]);
      list := RemoveAt(list, index);
    }

    /** `removeTimer(entity)`: removes and returns the first timer of the entity; None and no change if it has none. */
    method RemoveTimer(entity: int) returns (timer: Option<Event>)
      modifies this
      ensures timer == match FirstMatch(old(list), TimersOf(entity))
                       case None => None
                       case Some(k) => Some(old(list)[k])
      ensures list == WithoutTimer(old(list), entity)
    {
      var timerIndex := -1;
      for i := 0 to |list|
        invariant timerIndex == -1
        invariant forall j :: 0 <= j < i ==> !Matches(TimersOf(entity), list[j])
      {
        if list[i].kind == TimerInterrupt && list[i].entity == entity {
          timerIndex := i;
          break;
        }
      }
      if timerIndex != -1 {
        timer := Some(list[timerIndex]);
        list := RemoveAt(list, timerIndex);
      } else {
        timer := None;
      }
    }

    /** `getLastPacketTime(entityTo)`: the time of the last arrival at entityTo in list order, 0 if none. */
    method GetLastPacketTime(entityTo: int) returns (time: real)
      ensures time == LastPacketTime(list, entityTo)
    {
      time := 0.0;
      for i := 0 to |list|
        invariant time == LastPacketTime(list[..i], entityTo)
      {
        assert list[..i + 1][..i] == list[..i];
        if list[i].kind == FromNetwork {
          if list[i].entity == entityTo {
            time := list[i].time;
          }
        }
      }
      assert list[..|list|] == list;
    }
  }
}
