/** What the API-backed elevator does, as functions on values. A World is the car (floor and
    the two counters) together with the store's two sequences; since the engine re-reads its
    mirror from the store before every decision, the store's contents are the state that matters.
    Pickup, Dropoff, StopCheck, CountStop, MoveUp, MoveDown, Toward, GoToFloor and Dispatch are the
    meanings of the engine methods of module Engine that are proved to change its state exactly as
    these functions say; DriveTo, Chase, ServeRiders and DispatchFrom are the loops inside them.
    The filters, positions, measures and predicates are helpers for stating and proving those. */
module DispatchModel {
  import opened Passengers
  import opened Seqs

  datatype World = World(floor: nat, stops: nat, traversed: nat, requests: seq<Person>, riders: seq<Person>)

  /** Which end of a trip a floor comparison looks at. */
  datatype End = Origin | Destination

  function FloorOf(p: Person, e: End): Finite {
    match e
    case Origin => p.currentFloor
    case Destination => p.dropOffFloor
  }

  /** `p.currentFloor === floor` (Origin) or `p.dropOffFloor === floor` (Destination). */
  predicate At(p: Person, e: End, floor: nat) {
    FloorOf(p, e) == Int(floor)
  }

  /** A record whose floors the car can reach: both are integers, neither is below the ground floor. */
  predicate Placed(p: Person) {
    p.currentFloor.Int? && p.currentFloor.value >= 0 && p.dropOffFloor.Int? && p.dropOffFloor.value >= 0
  }

  function OriginFloor(p: Person): nat requires Placed(p) { p.currentFloor.value }

  function DestinationFloor(p: Person): nat requires Placed(p) { p.dropOffFloor.value }

  predicate WellFormed(w: World) {
    (forall x :: x in w.requests ==> Placed(x)) && (forall x :: x in w.riders ==> Placed(x))
  }

  /** No rider's destination is the floor the car stands at. */
  predicate NoDropoffHere(w: World) {
    forall x :: x in w.riders ==> !At(x, Destination, w.floor)
  }

  /** Something is to be done at a floor: a request waits there or a rider is bound for it. */
  predicate Due(w: World, floor: nat) {
    (exists x :: x in w.requests && At(x, Origin, floor)) || (exists x :: x in w.riders && At(x, Destination, floor))
  }

  /** Nothing is left to do at the car's floor: no pickup and no dropoff. */
  predicate Cleared(w: World) {
    (forall x :: x in w.requests ==> !At(x, Origin, w.floor)) && NoDropoffHere(w)
  }

  /** Work left: a pending request still has to become a rider and then leave. */
  function Load(w: World): nat {
    2 * |w.requests| + |w.riders|
  }

  /** What every move and check keeps: no record appears from nowhere (requests only leave,
      riders come from requests), the work left does not grow and the counters do not go down. */
  predicate Progress(w: World, r: World) {
    && Load(r) <= Load(w)
    && (forall x :: x in r.requests ==> x in w.requests)
    && (forall x :: x in r.riders ==> x in w.riders || x in w.requests)
    && r.stops >= w.stops
    && r.traversed >= w.traversed
  }

  function Distance(a: nat, b: nat): nat {
    if a <= b then b - a else a - b
  }

  // ---------------------------------------------------------------------------------------------
  // Selecting matches: the `map`/`filter` of hasPickupApi and hasDropoffApi

  /** The elements at the floor, in their order. */
  function Matched(s: seq<Person>, e: End, floor: nat): (r: seq<Person>)
    ensures forall x :: x in r ==> x in s && At(x, e, floor)
    ensures forall x :: x in s && At(x, e, floor) ==> x in r
    decreases |s|
  {
    if s == [] then []
    else
      assert s == s[..|s| - 1] + [s[|s| - 1]];
      Matched(s[..|s| - 1], e, floor) + (if At(s[|s| - 1], e, floor) then [s[|s| - 1]] else [])
  }

  /** The elements not at the floor, in their order. */
  function Unmatched(s: seq<Person>, e: End, floor: nat): (r: seq<Person>)
    ensures forall x :: x in r ==> x in s && !At(x, e, floor)
    ensures forall x :: x in s && !At(x, e, floor) ==> x in r
    decreases |s|
  {
    if s == [] then []
    else
      assert s == s[..|s| - 1] + [s[|s| - 1]];
      Unmatched(s[..|s| - 1], e, floor) + (if At(s[|s| - 1], e, floor) then [] else [s[|s| - 1]])
  }

  /** The matched and the unmatched elements split the sequence: together they are all of it,
      with the same multiplicities, and with no match nothing is filtered out. */
  lemma Partition(s: seq<Person>, e: End, floor: nat)
    ensures multiset(Matched(s, e, floor)) + multiset(Unmatched(s, e, floor)) == multiset(s)
    ensures |Matched(s, e, floor)| + |Unmatched(s, e, floor)| == |s|
    ensures Matched(s, e, floor) == [] ==> Unmatched(s, e, floor) == s
  {
    PartitionMultiset(s, e, floor);
    if Matched(s, e, floor) == [] {
      PartitionEmpty(s, e, floor);
    }
  }

  /** Something matches exactly when some element is at the floor. */
  lemma AnyMatched(s: seq<Person>, e: End, floor: nat)
    ensures Matched(s, e, floor) != [] <==> exists x :: x in s && At(x, e, floor)
  {
    var m := Matched(s, e, floor);
    if m != [] {
      assert m[0] in m;
    }
  }

  lemma {:induction false} PartitionMultiset(s: seq<Person>, e: End, floor: nat)
    ensures multiset(Matched(s, e, floor)) + multiset(Unmatched(s, e, floor)) == multiset(s)
    decreases |s|
  {
    if s != [] {
      var p, x := s[..|s| - 1], s[|s| - 1];
      PartitionMultiset(p, e, floor);
      assert s == p + [x];
      if At(x, e, floor) {
        assert Matched(s, e, floor) == Matched(p, e, floor) + [x];
        assert Unmatched(s, e, floor) == Unmatched(p, e, floor);
        SplitStep(Matched(p, e, floor), Unmatched(p, e, floor), p, x, true);
      } else {
        assert Matched(s, e, floor) == Matched(p, e, floor);
        assert Unmatched(s, e, floor) == Unmatched(p, e, floor) + [x];
        SplitStep(Matched(p, e, floor), Unmatched(p, e, floor), p, x, false);
      }
    }
  }

  /** One element more, sent to one side of a split, keeps the split's multiplicities. */
  lemma SplitStep(m: seq<Person>, u: seq<Person>, p: seq<Person>, x: Person, left: bool)
    requires multiset(m) + multiset(u) == multiset(p)
    ensures left ==> multiset(m + [x]) + multiset(u) == multiset(p + [x])
    ensures !left ==> multiset(m) + multiset(u + [x]) == multiset(p + [x])
  {
    assert multiset(p + [x]) == multiset(p) + multiset{x};
    if left {
      assert multiset(m + [x]) == multiset(m) + multiset{x};
    } else {
      assert multiset(u + [x]) == multiset(u) + multiset{x};
    }
  }

  lemma {:induction false} PartitionEmpty(s: seq<Person>, e: End, floor: nat)
    requires forall x :: x in s ==> !At(x, e, floor)
    ensures Unmatched(s, e, floor) == s
    decreases |s|
  {
    if s != [] {
      var p, x := s[..|s| - 1], s[|s| - 1];
      assert s == p + [x];
      assert x in s;
      assert forall y :: y in p ==> y in s;
      PartitionEmpty(p, e, floor);
      assert Unmatched(s, e, floor) == Unmatched(p, e, floor) + [x];
    }
  }

  function Positions(s: seq<Person>, e: End, floor: nat): set<nat> {
    set i: nat | i < |s| && At(s[i], e, floor)
  }

  /** Filtering out the matching positions is filtering out the matching elements. */
  lemma {:induction false} WithoutPositions(s: seq<Person>, e: End, floor: nat)
    ensures Without(s, Positions(s, e, floor)) == Unmatched(s, e, floor)
    decreases |s|
  {
    if s != [] {
      var p, last := s[..|s| - 1], |s| - 1;
      var here, before := Positions(s, e, floor), Positions(p, e, floor);
      var kept := if At(s[last], e, floor) then [] else [s[last]];
      assert last in here <==> At(s[last], e, floor);
      assert Without(s, here) == Without(p, here) + kept;
      forall i: nat | i < |p| ensures i in here <==> i in before {
        assert s[i] == p[i];
      }
      WithoutAgrees(p, here, before);
      WithoutPositions(p, e, floor);
      assert Unmatched(s, e, floor) == Unmatched(p, e, floor) + kept;
    }
  }

  /** A match together with its position, as `{ request, idx }` in the source. */
  datatype Indexed = Indexed(person: Person, idx: nat)

  function Persons(ms: seq<Indexed>): (r: seq<Person>)
    ensures |r| == |ms| && forall j :: 0 <= j < |ms| ==> r[j] == ms[j].person
  {
    seq(|ms|, j requires 0 <= j < |ms| => ms[j].person)
  }

  function Indices(ms: seq<Indexed>): (r: seq<nat>)
    ensures |r| == |ms| && forall j :: 0 <= j < |ms| ==> r[j] == ms[j].idx
  {
    seq(|ms|, j requires 0 <= j < |ms| => ms[j].idx)
  }

  /** `s.map((x, idx) => ({ x, idx })).filter(({ x }) => At(x))`: every match with its position,
      positions strictly ascending, exactly the matching positions, the matched elements in order. */
  function Matches(s: seq<Person>, e: End, floor: nat): (r: seq<Indexed>)
    ensures forall j :: 0 <= j < |r| ==> r[j].idx < |s| && s[r[j].idx] == r[j].person
    ensures StrictlyAscending(Indices(r))
    ensures Elements(Indices(r)) == Positions(s, e, floor)
    ensures Persons(r) == Matched(s, e, floor)
    decreases |s|
  {
    if s == [] then []
    else
      var p, last := s[..|s| - 1], |s| - 1;
      var m := Matches(p, e, floor);
      var tail := if At(s[last], e, floor) then [Indexed(s[last], last)] else [];
      MatchesSnoc(s, m, tail);
      MatchesSnocContents(s, m, tail, e, floor);
      m + tail
  }

  /** The step of Matches: appending the last position's match keeps the positions in range,
      pointing at their elements, and strictly ascending. */
  lemma MatchesSnoc(s: seq<Person>, m: seq<Indexed>, tail: seq<Indexed>)
    requires s != []
    requires forall j :: 0 <= j < |m| ==> m[j].idx < |s| - 1 && s[..|s| - 1][m[j].idx] == m[j].person
    requires StrictlyAscending(Indices(m))
    requires tail == [] || tail == [Indexed(s[|s| - 1], |s| - 1)]
    ensures forall j :: 0 <= j < |m + tail| ==> (m + tail)[j].idx < |s| && s[(m + tail)[j].idx] == (m + tail)[j].person
    ensures StrictlyAscending(Indices(m + tail))
  {
    var r := m + tail;
    forall j | 0 <= j < |r| ensures r[j].idx < |s| && s[r[j].idx] == r[j].person {
      if j < |m| {
        assert r[j] == m[j];
        assert s[..|s| - 1][m[j].idx] == s[m[j].idx];
      }
    }
    assert Indices(r) == Indices(m) + Indices(tail);
  }

  /** The step of Matches, continued: the positions and the matched elements. */
  lemma MatchesSnocContents(s: seq<Person>, m: seq<Indexed>, tail: seq<Indexed>, e: End, floor: nat)
    requires s != []
    requires Elements(Indices(m)) == Positions(s[..|s| - 1], e, floor)
    requires Persons(m) == Matched(s[..|s| - 1], e, floor)
    requires tail == if At(s[|s| - 1], e, floor) then [Indexed(s[|s| - 1], |s| - 1)] else []
    ensures Elements(Indices(m + tail)) == Positions(s, e, floor)
    ensures Persons(m + tail) == Matched(s, e, floor)
  {
    MatchesSnocPositions(s, m, tail, e, floor);
    MatchesSnocPersons(s, m, tail, e, floor);
  }

  lemma MatchesSnocPositions(s: seq<Person>, m: seq<Indexed>, tail: seq<Indexed>, e: End, floor: nat)
    requires s != []
    requires Elements(Indices(m)) == Positions(s[..|s| - 1], e, floor)
    requires tail == if At(s[|s| - 1], e, floor) then [Indexed(s[|s| - 1], |s| - 1)] else []
    ensures Elements(Indices(m + tail)) == Positions(s, e, floor)
  {
    assert Indices(m + tail) == Indices(m) + Indices(tail);
    ElementsAppend(Indices(m), Indices(tail));
    PositionsSnoc(s, e, floor);
    if tail == [] {
      assert Indices(tail) == [];
    } else {
      assert Indices(tail) == [|s| - 1];
    }
    ElementsSmall(Indices(tail));
    assert Elements(Indices(tail)) == if At(s[|s| - 1], e, floor) then {|s| - 1} else {};
  }

  lemma MatchesSnocPersons(s: seq<Person>, m: seq<Indexed>, tail: seq<Indexed>, e: End, floor: nat)
    requires s != []
    requires Persons(m) == Matched(s[..|s| - 1], e, floor)
    requires tail == if At(s[|s| - 1], e, floor) then [Indexed(s[|s| - 1], |s| - 1)] else []
    ensures Persons(m + tail) == Matched(s, e, floor)
  {
    assert Persons(m + tail) == Persons(m) + Persons(tail);
    assert Persons(tail) == if At(s[|s| - 1], e, floor) then [s[|s| - 1]] else [];
  }

  lemma PositionsSnoc(s: seq<Person>, e: End, floor: nat)
    requires s != []
    ensures Positions(s, e, floor)
            == Positions(s[..|s| - 1], e, floor) + (if At(s[|s| - 1], e, floor) then {|s| - 1} else {})
  {
    var p := s[..|s| - 1];
    forall i: nat | i < |p| ensures s[i] == p[i] { }
  }

  /** `pickups.sort((a, b) => b.idx - a.idx)`: the matches by descending position. On strictly
      ascending positions the sort's result is the reversal. */
  function ByIndexDescending(ms: seq<Indexed>): (r: seq<Indexed>)
    requires StrictlyAscending(Indices(ms))
    ensures StrictlyDescending(Indices(r))
    ensures multiset(r) == multiset(ms)
    ensures Persons(r) == Reverse(Persons(ms))
    ensures Elements(Indices(r)) == Elements(Indices(ms))
  {
    ReversePreservesMultiset(ms);
    var r := Reverse(ms);
    assert Indices(r) == Reverse(Indices(ms));
    assert Elements(Indices(r)) == Elements(Indices(ms)) by {
      forall x | x in Indices(ms) ensures x in Indices(r) {
        var j :| 0 <= j < |ms| && Indices(ms)[j] == x;
        assert Indices(r)[|ms| - 1 - j] == x;
      }
    }
    r
  }

  /** The descending `splice` loop of a pickup or dropoff deletes exactly the matches and keeps
      the order of everything else. */
  lemma DeleteMatches(s: seq<Person>, e: End, floor: nat)
    ensures forall j :: 0 <= j < |ByIndexDescending(Matches(s, e, floor))| ==>
              Indices(ByIndexDescending(Matches(s, e, floor)))[j] < |s|
    ensures DeleteEach(s, Indices(ByIndexDescending(Matches(s, e, floor)))) == Unmatched(s, e, floor)
  {
    var order := ByIndexDescending(Matches(s, e, floor));
    DeleteDescending(s, Indices(order));
    WithoutPositions(s, e, floor);
  }

  // ---------------------------------------------------------------------------------------------
  // The checks at a floor

  /** hasPickupApi: every request waiting at the car's floor becomes a rider. The requests lose
      exactly those (the rest keep their order); the riders gain them at the end, in the order the
      deletions visited them, which is descending position; the result says whether any matched. */
  function Pickup(w: World): (r: (World, bool))
    ensures r.0.floor == w.floor && r.0.stops == w.stops && r.0.traversed == w.traversed
    ensures r.0.requests == Unmatched(w.requests, Origin, w.floor)
    ensures r.0.riders == w.riders + Reverse(Matched(w.requests, Origin, w.floor))
    ensures r.1 <==> exists x :: x in w.requests && At(x, Origin, w.floor)
    ensures !r.1 ==> r.0 == w
  {
    var picked := Matched(w.requests, Origin, w.floor);
    AnyMatched(w.requests, Origin, w.floor);
    if picked == [] then
      Partition(w.requests, Origin, w.floor);
      assert Reverse(picked) == [];
      assert w.riders + Reverse(picked) == w.riders;
      (w, false)
    else
      (w.(requests := Unmatched(w.requests, Origin, w.floor), riders := w.riders + Reverse(picked)), true)
  }

  /** A pickup neither loses nor duplicates a passenger: the two sequences together hold the
      same records, with the same multiplicities, before and after. */
  lemma PickupConserves(w: World)
    ensures multiset(Pickup(w).0.requests) + multiset(Pickup(w).0.riders)
            == multiset(w.requests) + multiset(w.riders)
  {
    ReversePreservesMultiset(Matched(w.requests, Origin, w.floor));
    Partition(w.requests, Origin, w.floor);
  }

  /** hasDropoffApi: every rider whose destination is the car's floor leaves; the other riders keep
      their order, the requests are not touched; the result says whether anyone left. */
  function Dropoff(w: World): (r: (World, bool))
    ensures r.0.floor == w.floor && r.0.stops == w.stops && r.0.traversed == w.traversed
    ensures r.0.requests == w.requests
    ensures r.0.riders == Unmatched(w.riders, Destination, w.floor)
    ensures r.1 <==> exists x :: x in w.riders && At(x, Destination, w.floor)
    ensures !r.1 ==> r.0 == w
  {
    var dropped := Matched(w.riders, Destination, w.floor);
    AnyMatched(w.riders, Destination, w.floor);
    if dropped == [] then
      Partition(w.riders, Destination, w.floor);
      (w, false)
    else
      (w.(riders := Unmatched(w.riders, Destination, w.floor)), true)
  }

  /** hasStopApi: both checks always run, the pickup first; a stop is reported when either acted
      and the car has travelled at least one floor. */
  function StopCheck(w: World): (r: (World, bool))
    ensures r.0.floor == w.floor && r.0.stops == w.stops && r.0.traversed == w.traversed
  {
    var p := Pickup(w);
    var d := Dropoff(p.0);
    (d.0, (p.1 || d.1) && d.0.traversed > 0)
  }

  /** A stop is reported exactly when the car has moved and a request waits at the floor or a
      rider's destination is the floor; never while nothing has been traversed. */
  lemma StopCheckReports(w: World)
    ensures StopCheck(w).1 <==> w.traversed > 0 && Due(w, w.floor)
  {
  }

  /** After the two checks nothing is left to do at the floor, including for riders who boarded
      there with that floor as their destination. */
  lemma StopCheckClears(w: World)
    ensures Cleared(StopCheck(w).0)
  {
  }

  /** The two checks keep every record's origin, never send a rider away before its floor, and
      make strict progress when a rider's destination is the floor. */
  lemma StopCheckProgress(w: World)
    ensures Progress(w, StopCheck(w).0)
    ensures forall x :: x in w.riders && !At(x, Destination, w.floor) ==> x in StopCheck(w).0.riders
    ensures (exists x :: x in w.riders && At(x, Destination, w.floor)) ==> Load(StopCheck(w).0) < Load(w)
  {
    var p := Pickup(w).0;
    var d := Dropoff(p).0;
    assert StopCheck(w).0 == d;
    PickupProgress(w);
    DropoffProgress(p);
    ProgressTransitive(w, p, d);
    if x :| x in w.riders && At(x, Destination, w.floor) {
      assert x in p.riders && At(x, Destination, p.floor);
    }
  }

  lemma PickupProgress(w: World)
    ensures Progress(w, Pickup(w).0)
    ensures forall x :: x in w.riders ==> x in Pickup(w).0.riders
  {
    var m := Matched(w.requests, Origin, w.floor);
    Partition(w.requests, Origin, w.floor);
    ReversePreservesMultiset(m);
    forall x | x in Reverse(m) ensures x in w.requests {
      assert x in multiset(Reverse(m));
    }
  }

  lemma DropoffProgress(w: World)
    ensures Progress(w, Dropoff(w).0)
    ensures forall x :: x in w.riders && !At(x, Destination, w.floor) ==> x in Dropoff(w).0.riders
    ensures (exists x :: x in w.riders && At(x, Destination, w.floor)) ==> Load(Dropoff(w).0) < Load(w)
  {
    Partition(w.riders, Destination, w.floor);
    if x :| x in w.riders && At(x, Destination, w.floor) {
      assert x in Matched(w.riders, Destination, w.floor);
    }
  }

  lemma ProgressTransitive(a: World, b: World, c: World)
    requires Progress(a, b) && Progress(b, c)
    ensures Progress(a, c)
  {
  }

  // ---------------------------------------------------------------------------------------------
  // Moving

  /** `if (await this.hasStopApi()) this.stops++`: both checks, and one more stop if they report one. */
  function CountStop(w: World): (r: World)
    ensures r.floor == w.floor && r.traversed == w.traversed
    ensures r.stops == w.stops || r.stops == w.stops + 1
  {
    var c := StopCheck(w);
    if c.1 then c.0.(stops := c.0.stops + 1) else c.0
  }

  /** The part moveUpApi and moveDownApi share once the floor has changed: one more floor
      traversed, then the checks at the new floor. */
  function Arrive(w: World, floor: nat): (r: World)
    ensures r.floor == floor && r.traversed == w.traversed + 1
    ensures r.stops == w.stops || r.stops == w.stops + 1
  {
    CountStop(w.(floor := floor, traversed := w.traversed + 1))
  }

  /** A stop is counted on arrival exactly when a request waits there or a rider's destination is there. */
  lemma ArriveCounts(w: World, floor: nat)
    ensures Arrive(w, floor).stops == w.stops || Arrive(w, floor).stops == w.stops + 1
    ensures Arrive(w, floor).stops == w.stops + 1 <==> Due(w, floor)
  {
    StopCheckReports(w.(floor := floor, traversed := w.traversed + 1));
  }

  /** After the checks and the count nothing is left to do at the floor, no record appeared from
      nowhere, riders bound elsewhere are still aboard, and a rider bound here means strict progress. */
  lemma CountStopSettles(w: World)
    ensures Cleared(CountStop(w)) && Progress(w, CountStop(w))
    ensures forall x :: x in w.riders && !At(x, Destination, w.floor) ==> x in CountStop(w).riders
    ensures (exists x :: x in w.riders && At(x, Destination, w.floor)) ==> Load(CountStop(w)) < Load(w)
  {
    var c := StopCheck(w);
    StopCheckClears(w);
    StopCheckProgress(w);
    var r := CountStop(w);
    assert r.requests == c.0.requests && r.riders == c.0.riders && r.floor == c.0.floor;
  }

  /** The same for a whole arrival, measured against the world before the move. */
  lemma ArriveSettles(w: World, floor: nat)
    ensures Cleared(Arrive(w, floor)) && Progress(w, Arrive(w, floor))
    ensures Arrive(w, floor).floor == floor && Arrive(w, floor).traversed == w.traversed + 1
    ensures forall x :: x in w.riders && !At(x, Destination, floor) ==> x in Arrive(w, floor).riders
    ensures (exists x :: x in w.riders && At(x, Destination, floor)) ==> Load(Arrive(w, floor)) < Load(w)
  {
    var moved := w.(floor := floor, traversed := w.traversed + 1);
    CountStopSettles(moved);
    ProgressTransitive(w, moved, CountStop(moved));
  }

  /** moveUpApi: one floor up, one more floor traversed, and at most one more stop. */
  function MoveUp(w: World): (r: World)
    ensures r.floor == w.floor + 1 && r.traversed == w.traversed + 1
    ensures r.stops == w.stops || r.stops == w.stops + 1
  {
    Arrive(w, w.floor + 1)
  }

  /** moveDownApi: at the ground floor nothing changes at all; above it, one floor down, one
      more floor traversed, and at most one more stop. */
  function MoveDown(w: World): (r: World)
    ensures w.floor == 0 ==> r == w
    ensures w.floor > 0 ==> r.floor == w.floor - 1 && r.traversed == w.traversed + 1
    ensures r.stops == w.stops || r.stops == w.stops + 1
  {
    if w.floor <= 0 then w
    else Arrive(w, w.floor - 1)
  }

  /** Moving up counts a stop exactly when something happens at the new floor: the floors
      traversed are already positive when the checks run. */
  lemma MoveUpStops(w: World)
    ensures MoveUp(w).stops == w.stops + 1 <==> Due(w, w.floor + 1)
  {
    assert MoveUp(w) == Arrive(w, w.floor + 1);
    ArriveCounts(w, w.floor + 1);
  }

  /** Moving down from floor below + 1 counts a stop exactly when something happens at the
      new floor. */
  lemma MoveDownStops(w: World, below: nat)
    requires w.floor == below + 1
    ensures MoveDown(w).stops == w.stops + 1 <==> Due(w, below)
  {
    assert MoveDown(w).stops == Arrive(w, below).stops;
    ArriveCounts(w, below);
  }

  /** After moving up, the mirror's view of the floor is settled: no request waits there and no
      rider is bound for it; nothing appeared from nowhere; riders bound elsewhere are still aboard,
      and a rider bound for the new floor means strict progress. */
  lemma MoveUpSettles(w: World)
    ensures Cleared(MoveUp(w)) && Progress(w, MoveUp(w))
    ensures forall x :: x in w.riders && !At(x, Destination, w.floor + 1) ==> x in MoveUp(w).riders
    ensures (exists x :: x in w.riders && At(x, Destination, w.floor + 1)) ==> Load(MoveUp(w)) < Load(w)
  {
    var above := w.floor + 1;
    var r := MoveUp(w);
    assert r == Arrive(w, above);
    ArriveSettles(w, above);
    assert Cleared(r) && Progress(w, r);
  }

  /** The same after moving down from floor below + 1. */
  lemma MoveDownSettles(w: World, below: nat)
    requires w.floor == below + 1
    ensures Cleared(MoveDown(w)) && Progress(w, MoveDown(w))
    ensures forall x :: x in w.riders && !At(x, Destination, below) ==> x in MoveDown(w).riders
    ensures (exists x :: x in w.riders && At(x, Destination, below)) ==> Load(MoveDown(w)) < Load(w)
  {
    var r := MoveDown(w);
    assert r == Arrive(w, below);
    ArriveSettles(w, below);
    assert Cleared(r) && Progress(w, r);
  }

  /** One iteration of a driving loop: up when the target is above, otherwise down. Away from the
      target it always gets one floor closer, so the ground-floor no-op never happens here. */
  function Toward(w: World, target: nat): (r: World)
    requires w.floor != target
    ensures Distance(r.floor, target) + 1 == Distance(w.floor, target)
    ensures r.traversed == w.traversed + 1
  {
    if target > w.floor then MoveUp(w) else MoveDown(w)
  }

  /** After one iteration nothing is left to do at the new floor, nothing appeared from nowhere,
      riders bound elsewhere are still aboard, and a rider bound there means strict progress. */
  lemma TowardSettles(w: World, target: nat)
    requires w.floor != target
    ensures Cleared(Toward(w, target)) && Progress(w, Toward(w, target))
    ensures forall x :: x in w.riders && !At(x, Destination, Toward(w, target).floor) ==> x in Toward(w, target).riders
    ensures (exists x :: x in w.riders && At(x, Destination, Toward(w, target).floor)) ==> Load(Toward(w, target)) < Load(w)
  {
    if target > w.floor {
      MoveUpSettles(w);
    } else {
      MoveDownSettles(w, w.floor - 1);
    }
  }

  /** The first loop of goToFloorApi: drive to the target one floor at a time. It arrives after
      exactly as many moves as the floors between, and a car that moved has nothing left to do
      at the floor it reached. */
  function DriveTo(w: World, target: nat): (r: World)
    ensures r.floor == target
    ensures r.traversed == w.traversed + Distance(w.floor, target)
    ensures Progress(w, r)
    ensures w.floor == target ==> r == w
    ensures w.floor != target ==> Cleared(r)
    decreases Distance(w.floor, target)
  {
    if w.floor == target then w
    else
      TowardSettles(w, target);
      DriveTo(Toward(w, target), target)
  }

  /** The inner rider loop of goToFloorApi: drive towards the cached target while riders remain. */
  function Chase(w: World, target: nat): (r: World)
    ensures r.floor == target || r.riders == []
    ensures Progress(w, r)
    decreases Distance(w.floor, target)
  {
    if w.floor == target || w.riders == [] then w
    else
      TowardSettles(w, target);
      Chase(Toward(w, target), target)
  }

  /** Chasing a rider's destination never stops short of it: the rider is still aboard on every
      floor before, and on arrival it leaves, so the work left strictly shrinks. */
  lemma {:induction false} ChaseDelivers(w: World, target: nat, chased: Person)
    requires WellFormed(w)
    requires chased in w.riders && At(chased, Destination, target) && w.floor != target
    ensures Chase(w, target).floor == target
    ensures Load(Chase(w, target)) < Load(w)
    ensures WellFormed(Chase(w, target)) && NoDropoffHere(Chase(w, target))
    decreases Distance(w.floor, target)
  {
    var next := Toward(w, target);
    TowardSettles(w, target);
    if next.floor != target {
      assert chased in next.riders;
      ChaseDelivers(next, target, chased);
    } else {
      assert Chase(next, target) == next;
    }
  }

  /** The outer rider loop of goToFloorApi: chase the destination of `riders[0]`, re-read after
      every chase, until no rider is left. */
  function ServeRiders(w: World): (r: World)
    requires WellFormed(w) && NoDropoffHere(w)
    ensures r.riders == []
    ensures WellFormed(r) && Progress(w, r)
    decreases Load(w)
  {
    if w.riders == [] then w
    else
      var rider := w.riders[0];
      ChaseDelivers(w, DestinationFloor(rider), rider);
      ServeRiders(Chase(w, DestinationFloor(rider)))
  }

  /** goToFloorApi with the lobby policy switched off: drive to the request's origin floor, then
      serve riders until none is left. */
  function GoToFloor(w: World, person: Person): (r: World)
    requires WellFormed(w) && NoDropoffHere(w) && Placed(person)
    ensures r.riders == []
    ensures WellFormed(r) && Progress(w, r)
  {
    ServeRiders(DriveTo(w, OriginFloor(person)))
  }

  /** A request whose origin is the floor the car already stands at is not picked up by its own
      turn: the first loop makes no move, so no check runs, and with no rider aboard nothing else
      happens. */
  lemma NoMoveNoPickup(w: World, person: Person)
    requires WellFormed(w) && NoDropoffHere(w) && Placed(person)
    requires w.floor == OriginFloor(person) && w.riders == []
    ensures GoToFloor(w, person) == w
  {
  }

  /** The loop of dispatchApi over the requests it saw at its start. */
  function DispatchFrom(w: World, pending: seq<Person>): (r: World)
    requires WellFormed(w) && NoDropoffHere(w)
    requires forall x :: x in pending ==> Placed(x)
    ensures WellFormed(r) && Progress(w, r)
    ensures pending != [] ==> r.riders == []
    ensures pending == [] ==> r == w
    decreases |pending|
  {
    if pending == [] then w
    else
      var w' := if w.riders != [] || w.requests != [] then GoToFloor(w, pending[0]) else w;
      DispatchFrom(w', pending[1..])
  }

  /** dispatchApi: serve the pending requests of the snapshot taken at its start. Nothing appears
      from nowhere and no counter goes down; with any request pending, no rider is left aboard;
      with none, nothing moves and nothing changes. */
  function Dispatch(w: World): (r: World)
    requires WellFormed(w) && NoDropoffHere(w)
    ensures WellFormed(r) && Progress(w, r)
    ensures w.requests != [] ==> r.riders == []
    ensures w.requests == [] ==> r == w
  {
    DispatchFrom(w, w.requests)
  }
}
