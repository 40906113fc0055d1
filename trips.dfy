/** A single request, dispatched on its own: the car drives to the request's origin floor through
    floors where nothing is due, picks the passenger up there, carries them to the destination
    floor through floors where nothing is due, and sets them down. For every start floor other
    than the origin, every pair of floors and any counters, the run ends at the destination with
    both sequences empty, one stop per end of the trip and exactly the floors between counted. */
module Trips {
  import opened Passengers
  import opened Seqs
  import opened DispatchModel

  /** The floor one step from g towards the target. */
  function Next(g: nat, target: nat): (r: nat)
    requires g != target
    ensures Distance(r, target) + 1 == Distance(g, target)
  {
    if target > g then g + 1 else g - 1
  }

  /** One iteration of a driving loop is an arrival at the next floor. */
  lemma StepArrives(w: World, target: nat)
    requires w.floor != target
    ensures Toward(w, target) == CountStop(w.(floor := Next(w.floor, target), traversed := w.traversed + 1))
  {
    var n := Next(w.floor, target);
    if target > w.floor {
      TowardUp(w, target);
      UpArrives(w);
    } else {
      TowardDown(w, target);
      DownArrives(w, n);
    }
    ArrivalCounts(w, n);
  }

  lemma TowardUp(w: World, target: nat)
    requires target > w.floor
    ensures Toward(w, target) == MoveUp(w)
  {
  }

  lemma TowardDown(w: World, target: nat)
    requires target < w.floor
    ensures Toward(w, target) == MoveDown(w)
  {
  }

  lemma UpArrives(w: World)
    ensures MoveUp(w) == Arrive(w, w.floor + 1)
  {
  }

  lemma DownArrives(w: World, below: nat)
    requires w.floor == below + 1
    ensures MoveDown(w) == Arrive(w, below)
  {
  }

  lemma ArrivalCounts(w: World, floor: nat)
    ensures Arrive(w, floor) == CountStop(w.(floor := floor, traversed := w.traversed + 1))
  {
  }

  /** The filters on a one-element sequence. */
  lemma Alone(p: Person, e: End, floor: nat)
    ensures Matched([p], e, floor) == if At(p, e, floor) then [p] else []
    ensures Unmatched([p], e, floor) == if At(p, e, floor) then [] else [p]
  {
    assert [p][..0] == [];
  }

  /** A floor other than the origin, with the passenger still waiting: nothing happens. */
  lemma PassesOrigin(g: nat, st: nat, t: nat, p: Person)
    requires Placed(p) && g != OriginFloor(p)
    ensures CountStop(World(g, st, t, [p], [])) == World(g, st, t, [p], [])
  {
    var w := World(g, st, t, [p], []);
    Alone(p, Origin, g);
    assert Pickup(w) == (w, false);
    assert Dropoff(w) == (w, false);
    assert StopCheck(w) == (w, false);
  }

  /** The origin floor, reached after at least one move: the passenger boards, and leaves at once
      when the destination is the same floor; one stop is counted. */
  lemma Boards(st: nat, t: nat, p: Person)
    requires Placed(p) && t > 0
    ensures CountStop(World(OriginFloor(p), st, t, [p], []))
            == World(OriginFloor(p), st + 1, t, [], if At(p, Destination, OriginFloor(p)) then [] else [p])
  {
    var a := OriginFloor(p);
    var w := World(a, st, t, [p], []);
    var boarded := World(a, st, t, [], [p]);
    var after := World(a, st, t, [], if At(p, Destination, a) then [] else [p]);
    Alone(p, Origin, a);
    Alone(p, Destination, a);
    assert [] + Reverse([p]) == [p];
    assert Pickup(w) == (boarded, true);
    assert Dropoff(boarded).0 == after;
    assert StopCheck(w) == (after, true);
  }

  /** A floor other than the destination, with the passenger aboard: nothing happens. */
  lemma PassesDestination(g: nat, st: nat, t: nat, p: Person)
    requires Placed(p) && g != DestinationFloor(p)
    ensures CountStop(World(g, st, t, [], [p])) == World(g, st, t, [], [p])
  {
    var w := World(g, st, t, [], [p]);
    Alone(p, Destination, g);
    assert Pickup(w) == (w, false);
    assert Dropoff(w) == (w, false);
    assert StopCheck(w) == (w, false);
  }

  /** The destination floor: the passenger leaves and one stop is counted. */
  lemma Delivers(st: nat, t: nat, p: Person)
    requires Placed(p) && t > 0
    ensures CountStop(World(DestinationFloor(p), st, t, [], [p])) == World(DestinationFloor(p), st + 1, t, [], [])
  {
    var b := DestinationFloor(p);
    var w := World(b, st, t, [], [p]);
    var left := World(b, st, t, [], []);
    Alone(p, Destination, b);
    assert Pickup(w) == (w, false);
    assert Dropoff(w) == (left, true);
    assert StopCheck(w) == (left, true);
  }

  lemma DriveStep(w: World, target: nat)
    requires w.floor != target
    ensures DriveTo(w, target) == DriveTo(Toward(w, target), target)
  {
  }

  lemma ChaseStep(w: World, target: nat)
    requires w.floor != target && w.riders != []
    ensures Chase(w, target) == Chase(Toward(w, target), target)
  {
  }

  lemma ChaseHere(w: World, target: nat)
    requires w.floor == target
    ensures Chase(w, target) == w
  {
  }

  /** The first loop of goToFloorApi for a lone request: one stop, at the origin, after exactly
      the floors between. */
  lemma {:induction false} DriveToOrigin(g: nat, st: nat, t: nat, p: Person)
    requires Placed(p) && g != OriginFloor(p)
    ensures DriveTo(World(g, st, t, [p], []), OriginFloor(p))
            == World(OriginFloor(p), st + 1, t + Distance(g, OriginFloor(p)), [],
                     if At(p, Destination, OriginFloor(p)) then [] else [p])
    decreases Distance(g, OriginFloor(p))
  {
    var a := OriginFloor(p);
    var w := World(g, st, t, [p], []);
    var n := Next(g, a);
    var moved := World(n, st, t + 1, [p], []);
    StepArrives(w, a);
    assert w.(floor := n, traversed := t + 1) == moved;
    if n != a {
      PassesOrigin(n, st, t + 1, p);
      DriveStep(w, a);
      DriveToOrigin(n, st, t + 1, p);
    } else {
      Boards(st, t + 1, p);
      DriveStep(w, a);
    }
  }

  /** The inner rider loop for a lone rider: one stop, at the destination, after exactly the
      floors between. */
  lemma {:induction false} ChaseToDestination(g: nat, st: nat, t: nat, p: Person)
    requires Placed(p) && g != DestinationFloor(p)
    ensures Chase(World(g, st, t, [], [p]), DestinationFloor(p))
            == World(DestinationFloor(p), st + 1, t + Distance(g, DestinationFloor(p)), [], [])
    decreases Distance(g, DestinationFloor(p))
  {
    var b := DestinationFloor(p);
    var w := World(g, st, t, [], [p]);
    var n := Next(g, b);
    ChaseStep(w, b);
    if n != b {
      RidesOn(g, st, t, p);
      ChaseToDestination(n, st, t + 1, p);
    } else {
      RidesLast(g, st, t, p);
      ChaseHere(Toward(w, b), b);
    }
  }

  /** One move towards the destination that does not yet reach it. */
  lemma RidesOn(g: nat, st: nat, t: nat, p: Person)
    requires Placed(p) && g != DestinationFloor(p) && Next(g, DestinationFloor(p)) != DestinationFloor(p)
    ensures Toward(World(g, st, t, [], [p]), DestinationFloor(p))
            == World(Next(g, DestinationFloor(p)), st, t + 1, [], [p])
  {
    var b := DestinationFloor(p);
    var w := World(g, st, t, [], [p]);
    var n := Next(g, b);
    StepArrives(w, b);
    assert w.(floor := n, traversed := t + 1) == World(n, st, t + 1, [], [p]);
    PassesDestination(n, st, t + 1, p);
  }

  /** The move that reaches the destination: the passenger leaves there. */
  lemma RidesLast(g: nat, st: nat, t: nat, p: Person)
    requires Placed(p) && g != DestinationFloor(p) && Next(g, DestinationFloor(p)) == DestinationFloor(p)
    ensures Toward(World(g, st, t, [], [p]), DestinationFloor(p))
            == World(DestinationFloor(p), st + 1, t + 1, [], [])
  {
    var b := DestinationFloor(p);
    var w := World(g, st, t, [], [p]);
    StepArrives(w, b);
    assert w.(floor := b, traversed := t + 1) == World(b, st, t + 1, [], [p]);
    Delivers(st, t + 1, p);
  }

  /** The outer rider loop once the lone passenger is aboard, or already gone. */
  lemma ServesAlone(st: nat, t: nat, p: Person, a: nat, b: nat, w: World)
    requires Placed(p) && a == OriginFloor(p) && b == DestinationFloor(p)
    requires w == World(a, st, t, [], if At(p, Destination, a) then [] else [p])
    ensures WellFormed(w) && NoDropoffHere(w)
    ensures ServeRiders(w) == World(b, if a == b then st else st + 1, t + Distance(a, b), [], [])
  {
    if a != b {
      assert w.riders == [p];
      ChaseToDestination(a, st, t, p);
      var done := World(b, st + 1, t + Distance(a, b), [], []);
      assert ServeRiders(w) == ServeRiders(done);
    } else {
      assert w.riders == [];
    }
  }

  /** goToFloorApi for a lone request, with the car at another floor and no rider aboard. */
  lemma GoesAlone(f: nat, s: nat, t: nat, p: Person)
    requires Placed(p) && f != OriginFloor(p)
    ensures var a, b := OriginFloor(p), DestinationFloor(p);
            GoToFloor(World(f, s, t, [p], []), p)
            == World(b, if a == b then s + 1 else s + 2, t + Distance(f, a) + Distance(a, b), [], [])
  {
    var a, b := OriginFloor(p), DestinationFloor(p);
    var w := World(f, s, t, [p], []);
    var mid := World(a, s + 1, t + Distance(f, a), [], if At(p, Destination, a) then [] else [p]);
    DriveToOrigin(f, s, t, p);
    assert DriveTo(w, a) == mid;
    ServesAlone(s + 1, t + Distance(f, a), p, a, b, mid);
    assert GoToFloor(w, p) == ServeRiders(mid);
  }

  /** One request from floor a to floor b, dispatched with the car at another floor and no rider
      aboard: the car ends at b with both sequences empty, having stopped once at a and once at b
      (once in all when a == b) and traversed exactly the floors from its start to a and from a to b. */
  lemma SingleRequest(f: nat, s: nat, t: nat, p: Person)
    requires Placed(p) && f != OriginFloor(p)
    ensures var a, b := OriginFloor(p), DestinationFloor(p);
            Dispatch(World(f, s, t, [p], []))
            == World(b, if a == b then s + 1 else s + 2, t + Distance(f, a) + Distance(a, b), [], [])
  {
    var a, b := OriginFloor(p), DestinationFloor(p);
    var w := World(f, s, t, [p], []);
    var done := World(b, if a == b then s + 1 else s + 2, t + Distance(f, a) + Distance(a, b), [], []);
    GoesAlone(f, s, t, p);
    assert DispatchFrom(w, [p]) == DispatchFrom(done, []);
  }
}
