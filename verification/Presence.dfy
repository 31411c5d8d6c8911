/**
  Pairing room entries with room exits (presence-interval.service.ts).

  The query gives a person's surviving room check-ins of one session in time order; rows
  of the same millisecond come in whatever order the table is scanned.
*/
module Presence {
  import opened Basics
  import opened Checkins

  datatype RoomEvent = RoomEvent(at: int, isEntry: bool)

  datatype Interval = Interval(entryAt: int, exitAt: int)

  /** A presence_interval row; an open entry has no exit. */
  datatype IntervalRow = IntervalRow(entryAt: int, exitAt: Option<int>)

  datatype Pairing = Pairing(closed: seq<Interval>, openEntryAt: Option<int>)

  // ---------------------------------------------------------------------------
  // The query: filter, then order by time
  // ---------------------------------------------------------------------------

  predicate IsRoomCheckin(codes: FactorCodes, c: Checkin, subject: Subject) {
    && Concerns(c, subject)
    && !c.isDuplicate
    && c.key.factor in codes
    && (codes[c.key.factor] == ROOM_ENTRY || codes[c.key.factor] == ROOM_EXIT)
  }

  function RoomEventOf(codes: FactorCodes, c: Checkin): RoomEvent {
    RoomEvent(c.at, c.key.factor in codes && codes[c.key.factor] == ROOM_ENTRY)
  }

  function Selected(codes: FactorCodes, scan: seq<Checkin>, subject: Subject): seq<RoomEvent> {
    if scan == [] then []
    else
      var rest := Selected(codes, scan[..|scan| - 1], subject);
      var c := scan[|scan| - 1];
      if IsRoomCheckin(codes, c, subject) then rest + [RoomEventOf(codes, c)] else rest
  }

  function InsertByTime(events: seq<RoomEvent>, e: RoomEvent): seq<RoomEvent> {
    if events == [] || events[|events| - 1].at <= e.at then events + [e]
    else InsertByTime(events[..|events| - 1], e) + [events[|events| - 1]]
  }

  function SortByTime(events: seq<RoomEvent>): seq<RoomEvent> {
    if events == [] then [] else InsertByTime(SortByTime(events[..|events| - 1]), events[|events| - 1])
  }

  function Timeline(codes: FactorCodes, scan: seq<Checkin>, subject: Subject): seq<RoomEvent> {
    SortByTime(Selected(codes, scan, subject))
  }

  ghost predicate InTimeOrder(events: seq<RoomEvent>) {
    forall i, j :: 0 <= i < j < |events| ==> events[i].at <= events[j].at
  }

  lemma {:induction false} InsertByTimeSorts(events: seq<RoomEvent>, e: RoomEvent)
    requires InTimeOrder(events)
    ensures InTimeOrder(InsertByTime(events, e))
    ensures multiset(InsertByTime(events, e)) == multiset(events) + multiset{e}
    decreases |events|
  {
    if events != [] && events[|events| - 1].at > e.at {
      var init, last := events[..|events| - 1], events[|events| - 1];
      assert events == init + [last];
      InsertByTimeSorts(init, e);
      AppendLatest(InsertByTime(init, e), init, e, last);
    }
  }

  lemma {:induction false} AppendLatest(inserted: seq<RoomEvent>, init: seq<RoomEvent>, e: RoomEvent, last: RoomEvent)
    requires InTimeOrder(inserted) && multiset(inserted) == multiset(init) + multiset{e}
    requires InTimeOrder(init + [last]) && e.at <= last.at
    ensures InTimeOrder(inserted + [last])
    ensures multiset(inserted + [last]) == multiset(init + [last]) + multiset{e}
  {
    var all := init + [last];
    forall i | 0 <= i < |inserted| ensures inserted[i].at <= last.at {
      assert inserted[i] in multiset(inserted);
      assert inserted[i] == e || inserted[i] in init;
      if inserted[i] != e {
        var k :| 0 <= k < |init| && init[k] == inserted[i];
        assert all[k].at <= all[|init|].at;
      }
    }
  }

  lemma {:induction false} SortByTimeSorts(events: seq<RoomEvent>)
    ensures InTimeOrder(SortByTime(events))
    ensures multiset(SortByTime(events)) == multiset(events)
    decreases |events|
  {
    if events != [] {
      var init := events[..|events| - 1];
      SortByTimeSorts(init);
      InsertByTimeSorts(SortByTime(init), events[|events| - 1]);
      assert events == init + [events[|events| - 1]];
    }
  }

  lemma {:induction false} SelectedIsExact(codes: FactorCodes, scan: seq<Checkin>, subject: Subject, e: RoomEvent)
    ensures e in Selected(codes, scan, subject) <==>
              exists i :: 0 <= i < |scan| && IsRoomCheckin(codes, scan[i], subject) && RoomEventOf(codes, scan[i]) == e
    decreases |scan|
  {
    if scan != [] {
      var init := scan[..|scan| - 1];
      SelectedIsExact(codes, init, subject, e);
      assert forall i :: 0 <= i < |init| ==> init[i] == scan[i];
      assert scan[|scan| - 1] == scan[|init|];
    }
  }

  /** The timeline holds exactly the person's surviving room check-ins, in time order. */
  lemma {:induction false} TimelineIsExact(codes: FactorCodes, scan: seq<Checkin>, subject: Subject, e: RoomEvent)
    ensures InTimeOrder(Timeline(codes, scan, subject))
    ensures e in Timeline(codes, scan, subject) <==>
              exists i :: 0 <= i < |scan| && IsRoomCheckin(codes, scan[i], subject) && RoomEventOf(codes, scan[i]) == e
  {
    var selected := Selected(codes, scan, subject);
    SortByTimeSorts(selected);
    SelectedIsExact(codes, scan, subject, e);
    assert e in selected <==> e in multiset(selected);
    assert e in SortByTime(selected) <==> e in multiset(SortByTime(selected));
  }

  /** Check-in `c` gives the room event `e` of `subject`, field by field. */
  predicate Gives(codes: FactorCodes, c: Checkin, subject: Subject, e: RoomEvent) {
    && c.key.tenant == subject.tenant && c.key.session == Some(subject.session) && c.key.person == subject.person
    && !c.isDuplicate && e.at == c.at
    && c.key.factor in codes && codes[c.key.factor] == if e.isEntry then "ROOM_ENTRY" else "ROOM_EXIT"
  }

  function GivingRows(codes: FactorCodes, scan: seq<Checkin>, subject: Subject, e: RoomEvent): set<int> {
    set i | 0 <= i < |scan| && Gives(codes, scan[i], subject, e)
  }

  lemma {:induction false} GivesIff(codes: FactorCodes, c: Checkin, subject: Subject, e: RoomEvent)
    ensures Gives(codes, c, subject, e) <==> IsRoomCheckin(codes, c, subject) && RoomEventOf(codes, c) == e
  {
    assert ROOM_ENTRY[6] != ROOM_EXIT[6];
  }

  lemma {:induction false} OneMoreRow(codes: FactorCodes, init: seq<Checkin>, c: Checkin, subject: Subject, e: RoomEvent)
    ensures |GivingRows(codes, init + [c], subject, e)|
         == |GivingRows(codes, init, subject, e)| + (if Gives(codes, c, subject, e) then 1 else 0)
  {
    var n := |init|;
    assert (init + [c])[n] == c;
    assert forall i :: 0 <= i < n ==> (init + [c])[i] == init[i];
    assert GivingRows(codes, init + [c], subject, e)
        == GivingRows(codes, init, subject, e) + (if Gives(codes, c, subject, e) then {n} else {});
  }

  lemma {:induction false} SelectedCounts(codes: FactorCodes, scan: seq<Checkin>, subject: Subject, e: RoomEvent)
    ensures multiset(Selected(codes, scan, subject))[e] == |GivingRows(codes, scan, subject, e)|
    decreases |scan|
  {
    if scan != [] {
      var init, c := scan[..|scan| - 1], scan[|scan| - 1];
      SelectedCounts(codes, init, subject, e);
      GivesIff(codes, c, subject, e);
      OneMoreRow(codes, init, c, subject, e);
      assert init + [c] == scan;
    }
  }

  /** Every room event occurs in the timeline once for each stored row that gives it: of the
      person's own session in the tenant, not a duplicate, an entry or an exit. */
  lemma {:induction false} TimelineCounts(codes: FactorCodes, scan: seq<Checkin>, subject: Subject, e: RoomEvent)
    ensures multiset(Timeline(codes, scan, subject))[e] == |GivingRows(codes, scan, subject, e)|
  {
    SortByTimeSorts(Selected(codes, scan, subject));
    SelectedCounts(codes, scan, subject, e);
  }

  // ---------------------------------------------------------------------------
  // Arrival order does not matter when times differ
  // ---------------------------------------------------------------------------

  ghost predicate DistinctTimes(events: seq<RoomEvent>) {
    forall i, j :: 0 <= i < j < |events| ==> events[i].at != events[j].at
  }

  lemma {:induction false} SameLength(a: seq<RoomEvent>, b: seq<RoomEvent>)
    requires multiset(a) == multiset(b)
    ensures |a| == |b|
  {
    assert |a| == |multiset(a)| == |multiset(b)| == |b|;
  }

  lemma {:induction false} WithoutLatest(events: seq<RoomEvent>)
    requires events != []
    ensures multiset(events[..|events| - 1]) == multiset(events) - multiset{events[|events| - 1]}
  {
    assert events == events[..|events| - 1] + [events[|events| - 1]];
  }

  lemma {:induction false} SameLatest(a: seq<RoomEvent>, b: seq<RoomEvent>)
    requires a != [] && |a| == |b| && multiset(a) == multiset(b)
    requires InTimeOrder(a) && InTimeOrder(b) && DistinctTimes(a)
    ensures a[|a| - 1] == b[|b| - 1]
  {
    var last, other := a[|a| - 1], b[|b| - 1];
    assert last in multiset(b) && other in multiset(a);
    var i :| 0 <= i < |a| && a[i] == other;
    var j :| 0 <= j < |b| && b[j] == last;
    assert a[i].at <= last.at;
    assert b[j].at <= other.at;
  }

  lemma {:induction false} SortedIsUnique(a: seq<RoomEvent>, b: seq<RoomEvent>)
    requires InTimeOrder(a) && InTimeOrder(b) && DistinctTimes(a)
    requires multiset(a) == multiset(b)
    ensures a == b
    decreases |a|
  {
    SameLength(a, b);
    if |a| > 0 {
      var n := |a| - 1;
      SameLatest(a, b);
      WithoutLatest(a);
      WithoutLatest(b);
      SortedIsUnique(a[..n], b[..n]);
      forall i | 0 <= i < |a| ensures a[i] == b[i] {
        if i < n {
          assert a[..n][i] == b[..n][i];
        }
      }
    }
  }

  lemma {:induction false} SelectedSplits(codes: FactorCodes, a: seq<Checkin>, b: seq<Checkin>, subject: Subject)
    ensures Selected(codes, a + b, subject) == Selected(codes, a, subject) + Selected(codes, b, subject)
    decreases |b|
  {
    if b == [] {
      assert a + b == a;
    } else {
      assert (a + b)[..|a + b| - 1] == a + b[..|b| - 1];
      SelectedSplits(codes, a, b[..|b| - 1], subject);
    }
  }

  lemma {:induction false} SelectedIgnoresOrder(codes: FactorCodes, a: seq<Checkin>, b: seq<Checkin>, subject: Subject)
    requires multiset(a) == multiset(b)
    ensures multiset(Selected(codes, a, subject)) == multiset(Selected(codes, b, subject))
    decreases |a|
  {
    if a == [] {
      assert |b| == |multiset(b)| == |multiset(a)| == 0;
    } else {
      var n := |a| - 1;
      assert a == a[..n] + [a[n]];
      assert a[n] in multiset(b);
      var k :| 0 <= k < |b| && b[k] == a[n];
      var others := b[..k] + b[k + 1..];
      assert b == b[..k] + ([b[k]] + b[k + 1..]);
      assert multiset(a[..n]) == multiset(a) - multiset{a[n]};
      assert multiset(others) == multiset(b) - multiset{b[k]};
      SelectedIgnoresOrder(codes, a[..n], others, subject);
      SelectedSplits(codes, b[..k], [b[k]] + b[k + 1..], subject);
      SelectedSplits(codes, [b[k]], b[k + 1..], subject);
      SelectedSplits(codes, b[..k], b[k + 1..], subject);
      SelectedSplits(codes, a[..n], [a[n]], subject);
    }
  }

  /** Two scans of the same rows give the same timeline, hence the same intervals,
      whenever no two of the person's room check-ins share a millisecond. */
  lemma {:induction false} TimelineIgnoresArrival(codes: FactorCodes, a: seq<Checkin>, b: seq<Checkin>, subject: Subject)
    requires multiset(a) == multiset(b) && DistinctTimes(Timeline(codes, a, subject))
    ensures Timeline(codes, a, subject) == Timeline(codes, b, subject)
  {
    SelectedIgnoresOrder(codes, a, b, subject);
    SortByTimeSorts(Selected(codes, a, subject));
    SortByTimeSorts(Selected(codes, b, subject));
    SortedIsUnique(Timeline(codes, a, subject), Timeline(codes, b, subject));
  }

  // ---------------------------------------------------------------------------
  // The pairing loop
  // ---------------------------------------------------------------------------

  /** Every exit that comes right after an entry closes an interval with it. */
  function AdjacentPairs(events: seq<RoomEvent>): seq<Interval> {
    var n := |events|;
    if n < 2 then []
    else
      AdjacentPairs(events[..n - 1])
      + (if events[n - 2].isEntry && !events[n - 1].isEntry then [Interval(events[n - 2].at, events[n - 1].at)] else [])
  }

  function TrailingEntry(events: seq<RoomEvent>): Option<int> {
    if events != [] && events[|events| - 1].isEntry then Some(events[|events| - 1].at) else None
  }

  function Pair(events: seq<RoomEvent>): Pairing {
    Pairing(AdjacentPairs(events), TrailingEntry(events))
  }

  method PairEvents(events: seq<RoomEvent>) returns (p: Pairing)
    ensures p == Pair(events)
  {
    var closed: seq<Interval> := [];
    var openEntryAt: Option<int> := None;
    for i := 0 to |events|
      invariant closed == AdjacentPairs(events[..i])
      invariant openEntryAt == TrailingEntry(events[..i])
    {
      assert events[..i + 1][..i] == events[..i];
      if events[i].isEntry {
        openEntryAt := Some(events[i].at);
      } else if openEntryAt.Some? {
        closed := closed + [Interval(openEntryAt.value, events[i].at)];
        openEntryAt := None;
      }
    }
    assert events[..|events|] == events;
    return Pairing(closed, openEntryAt);
  }

  // ---------------------------------------------------------------------------
  // What the intervals mean
  // ---------------------------------------------------------------------------

  /** Event `i` is an exit that comes right after an entry. */
  predicate ClosesAt(events: seq<RoomEvent>, i: int) {
    0 < i < |events| && events[i - 1].isEntry && !events[i].isEntry
  }

  /** An interval is closed iff an entry is followed immediately by an exit at those times. */
  lemma {:induction false} ClosedIffAdjacent(events: seq<RoomEvent>, iv: Interval)
    ensures iv in Pair(events).closed <==>
              exists i :: ClosesAt(events, i) && iv == Interval(events[i - 1].at, events[i].at)
    decreases |events|
  {
    var n := |events|;
    if n >= 2 {
      var init := events[..n - 1];
      ClosedIffAdjacent(init, iv);
      assert forall i :: ClosesAt(events, i) <==> ClosesAt(init, i) || (i == n - 1 && ClosesAt(events, i));
    }
  }

  /** The positions of the exits that come right after an entry. */
  function ClosingSet(events: seq<RoomEvent>): set<int> {
    set i | 0 < i < |events| && ClosesAt(events, i)
  }

  lemma {:induction false} OneMoreClosing(init: seq<RoomEvent>, last: RoomEvent)
    ensures var events := init + [last];
            && (forall i :: ClosesAt(events, i) <==> ClosesAt(init, i) || (i == |init| && ClosesAt(events, |init|)))
            && ClosingSet(events) == ClosingSet(init) + (if ClosesAt(events, |init|) then {|init|} else {})
  {
    var events := init + [last];
    forall i ensures ClosesAt(events, i) <==> ClosesAt(init, i) || (i == |init| && ClosesAt(events, |init|)) {
    }
  }

  /** One interval per entry/exit adjacency, no more. */
  lemma {:induction false} OneIntervalPerAdjacency(events: seq<RoomEvent>)
    ensures |Pair(events).closed| == |ClosingSet(events)|
    decreases |events|
  {
    var n := |events|;
    if n >= 2 {
      OneIntervalPerAdjacency(events[..n - 1]);
      OneMoreClosing(events[..n - 1], events[n - 1]);
      assert events[..n - 1] + [events[n - 1]] == events;
      assert n - 1 !in ClosingSet(events[..n - 1]);
    } else {
      assert ClosingSet(events) == {};
    }
  }

  /** Closed intervals follow one another without overlap inside [lo, hi]. */
  ghost predicate Consecutive(closed: seq<Interval>, lo: int, hi: int) {
    && (forall k :: 0 <= k < |closed| ==> lo <= closed[k].entryAt <= closed[k].exitAt <= hi)
    && (forall j, k :: 0 <= j < k < |closed| ==> closed[j].exitAt <= closed[k].entryAt)
  }

  lemma {:induction false} PairsAreConsecutive(events: seq<RoomEvent>, lo: int, hi: int)
    requires InTimeOrder(events) && forall e :: e in events ==> lo <= e.at <= hi
    ensures Consecutive(Pair(events).closed, lo, hi)
    decreases |events|
  {
    var n := |events|;
    if n >= 2 {
      var init := events[..n - 1];
      PairsAreConsecutive(init, lo, hi);
      if events[n - 2].isEntry && !events[n - 1].isEntry {
        forall iv | iv in AdjacentPairs(init) ensures iv.exitAt <= events[n - 2].at {
          ClosedIffAdjacent(init, iv);
        }
      }
    }
  }

  function TotalMs(closed: seq<Interval>): int {
    if closed == [] then 0
    else TotalMs(closed[..|closed| - 1]) + (closed[|closed| - 1].exitAt - closed[|closed| - 1].entryAt)
  }

  lemma {:induction false} TotalFits(closed: seq<Interval>, lo: int, hi: int)
    requires Consecutive(closed, lo, hi)
    ensures 0 <= TotalMs(closed)
    ensures closed == [] || TotalMs(closed) <= closed[|closed| - 1].exitAt - lo
    decreases |closed|
  {
    if closed != [] {
      TotalFits(closed[..|closed| - 1], lo, hi);
    }
  }

  /** Summed presence is never negative and never more than the window that holds it. */
  lemma {:induction false} PresenceFitsWindow(events: seq<RoomEvent>, lo: int, hi: int)
    requires lo <= hi && InTimeOrder(events) && forall e :: e in events ==> lo <= e.at <= hi
    ensures 0 <= TotalMs(Pair(events).closed) <= hi - lo
  {
    PairsAreConsecutive(events, lo, hi);
    TotalFits(Pair(events).closed, lo, hi);
  }

  /** An entry that is not the last event leaves either a closed interval or an open entry. */
  lemma {:induction false} EntryLeavesATrace(events: seq<RoomEvent>)
    requires exists e :: e in events && e.isEntry
    ensures Pair(events).closed != [] || Pair(events).openEntryAt.Some?
    decreases |events|
  {
    var n := |events|;
    if !events[n - 1].isEntry {
      var e :| e in events && e.isEntry;
      assert e in events[..n - 1];
      EntryLeavesATrace(events[..n - 1]);
      if AdjacentPairs(events[..n - 1]) == [] {
        assert events[..n - 1][n - 2].isEntry;
      }
    }
  }

  // ---------------------------------------------------------------------------
  // What the total and the stored rows mean
  // ---------------------------------------------------------------------------

  predicate During(iv: Interval, t: int) {
    iv.entryAt <= t < iv.exitAt
  }

  predicate Inside(closed: seq<Interval>, t: int) {
    exists k :: 0 <= k < |closed| && During(closed[k], t)
  }

  function MomentsOf(iv: Interval): set<int> {
    set t | iv.entryAt <= t < iv.exitAt && During(iv, t)
  }

  lemma {:induction false} MomentsCount(iv: Interval)
    requires iv.entryAt <= iv.exitAt
    ensures |MomentsOf(iv)| == iv.exitAt - iv.entryAt
    decreases iv.exitAt - iv.entryAt
  {
    if iv.entryAt < iv.exitAt {
      var shorter := Interval(iv.entryAt, iv.exitAt - 1);
      MomentsCount(shorter);
      assert MomentsOf(iv) == MomentsOf(shorter) + {iv.exitAt - 1};
    } else {
      assert MomentsOf(iv) == {};
    }
  }

  /** The moments of [lo, hi) spent inside some interval. */
  function MomentsInside(closed: seq<Interval>, lo: int, hi: int): set<int> {
    set t | lo <= t < hi && Inside(closed, t)
  }

  lemma {:induction false} MomentsSplit(init: seq<Interval>, last: Interval, lo: int, hi: int)
    requires Consecutive(init + [last], lo, hi)
    ensures MomentsInside(init + [last], lo, hi) == MomentsInside(init, lo, hi) + MomentsOf(last)
    ensures MomentsInside(init, lo, hi) !! MomentsOf(last)
  {
    var closed := init + [last];
    assert closed[|init|] == last;
    forall t ensures Inside(closed, t) <==> Inside(init, t) || During(last, t) {
      assert forall k :: 0 <= k < |init| ==> init[k] == closed[k];
    }
    forall t | t in MomentsInside(init, lo, hi) ensures t !in MomentsOf(last) {
      var k :| 0 <= k < |init| && During(init[k], t);
      assert closed[k] == init[k] && closed[k].exitAt <= closed[|init|].entryAt;
    }
  }

  /** The total is the number of milliseconds of the window spent inside some interval. */
  lemma {:induction false} TotalIsTimeInside(closed: seq<Interval>, lo: int, hi: int)
    requires Consecutive(closed, lo, hi)
    ensures TotalMs(closed) == |MomentsInside(closed, lo, hi)|
    decreases |closed|
  {
    if closed == [] {
      assert MomentsInside(closed, lo, hi) == {};
    } else {
      var init, last := closed[..|closed| - 1], closed[|closed| - 1];
      assert closed == init + [last];
      TotalIsTimeInside(init, lo, hi);
      MomentsCount(last);
      MomentsSplit(init, last, lo, hi);
    }
  }

  /** `positions` are those of the exits that come right after an entry, in order. */
  ghost predicate ClosingPositions(events: seq<RoomEvent>, positions: seq<int>) {
    && (forall j, k :: 0 <= j < k < |positions| ==> positions[j] < positions[k])
    && (forall i :: i in positions <==> ClosesAt(events, i))
  }

  /** A row for each of those exits, with the times of the entry before it and of the exit, then
      one without an exit iff the last event is an entry, with its time; and no other. */
  ghost predicate RowsMirror(events: seq<RoomEvent>, rows: seq<IntervalRow>, positions: seq<int>) {
    var n := |positions|;
    var open := events != [] && events[|events| - 1].isEntry;
    && ClosingPositions(events, positions)
    && |rows| == n + (if open then 1 else 0)
    && (forall k :: 0 <= k < n ==>
          ClosesAt(events, positions[k])
          && rows[k] == IntervalRow(events[positions[k] - 1].at, Some(events[positions[k]].at)))
    && (open ==> rows[n] == IntervalRow(events[|events| - 1].at, None))
  }

  ghost predicate Mirrors(events: seq<RoomEvent>, rows: seq<IntervalRow>) {
    exists positions :: RowsMirror(events, rows, positions)
  }

  /** The stay that ends at position `i`. */
  function StayAt(events: seq<RoomEvent>, i: int): Interval
    requires ClosesAt(events, i)
  {
    Interval(events[i - 1].at, events[i].at)
  }

  /** Interval `k` is the stay that ends at position `positions[k]`. */
  ghost predicate StaysMatch(events: seq<RoomEvent>, positions: seq<int>, closed: seq<Interval>) {
    && |positions| == |closed|
    && forall k :: 0 <= k < |positions| ==> ClosesAt(events, positions[k]) && closed[k] == StayAt(events, positions[k])
  }

  lemma {:induction false} OneMorePosition(init: seq<RoomEvent>, last: RoomEvent, positions: seq<int>)
    requires ClosingPositions(init, positions)
    ensures var closes := ClosesAt(init + [last], |init|);
            ClosingPositions(init + [last], if closes then positions + [|init|] else positions)
  {
    OneMoreClosing(init, last);
    assert forall k :: 0 <= k < |positions| ==> positions[k] in positions;
  }

  lemma {:induction false} PairsAppend(init: seq<RoomEvent>, last: RoomEvent)
    requires init != []
    ensures AdjacentPairs(init + [last]) == AdjacentPairs(init)
              + if ClosesAt(init + [last], |init|) then [Interval(init[|init| - 1].at, last.at)] else []
  {
    assert (init + [last])[..|init|] == init;
  }

  lemma {:induction false} StaysStillMatch(init: seq<RoomEvent>, last: RoomEvent, positions: seq<int>, closed: seq<Interval>)
    requires StaysMatch(init, positions, closed)
    ensures StaysMatch(init + [last], positions, closed)
  {
    forall k | 0 <= k < |positions|
      ensures ClosesAt(init + [last], positions[k]) && closed[k] == StayAt(init + [last], positions[k])
    {
      assert ClosesAt(init, positions[k]);
    }
  }

  lemma {:induction false} OneMoreStay(events: seq<RoomEvent>, positions: seq<int>, closed: seq<Interval>, i: int)
    requires StaysMatch(events, positions, closed) && ClosesAt(events, i)
    ensures StaysMatch(events, positions + [i], closed + [StayAt(events, i)])
  {
  }

  lemma {:induction false} StaysFound(events: seq<RoomEvent>) returns (positions: seq<int>)
    ensures ClosingPositions(events, positions) && StaysMatch(events, positions, AdjacentPairs(events))
    decreases |events|
  {
    if |events| < 2 {
      positions := [];
    } else {
      var init, last := events[..|events| - 1], events[|events| - 1];
      assert init + [last] == events;
      positions := StaysFound(init);
      OneMorePosition(init, last, positions);
      PairsAppend(init, last);
      StaysStillMatch(init, last, positions, AdjacentPairs(init));
      if ClosesAt(events, |init|) {
        OneMoreStay(events, positions, AdjacentPairs(init), |init|);
        positions := positions + [|init|];
      } else {
        assert AdjacentPairs(events) == AdjacentPairs(init);
      }
    }
  }
}
