/** Concrete runs: the two scenarios of the repository's API test, and small worlds that show
    how the engine orders riders and what it does with a request at its own floor. */
module Scenarios {
  import opened Passengers
  import opened Seqs
  import opened Server
  import opened DispatchModel
  import opened Engine

  /** At a floor where nothing is due the checks change nothing and no stop is counted. */
  lemma Quiet(w: World)
    requires !Due(w, w.floor)
    ensures CountStop(w) == w
  {
    assert Pickup(w) == (w, false);
    assert Dropoff(w) == (w, false);
  }

  function Anne(): Person { Person("Anne", Int(1), Int(3)) }

  lemma AnneBoards()
    ensures Toward(World(0, 0, 0, [Anne()], []), 1) == World(1, 1, 1, [], [Anne()])
  {
    var m := World(1, 0, 1, [Anne()], []);
    var boarded := World(1, 0, 1, [], [Anne()]);
    assert Matched([Anne()], Origin, 1) == [Anne()];
    assert Unmatched([Anne()], Origin, 1) == [];
    assert Reverse([Anne()]) == [Anne()];
    assert Pickup(m) == (boarded, true);
    Quiet(boarded);
    assert Dropoff(boarded) == (boarded, false);
    assert CountStop(m) == boarded.(stops := 1);
  }

  lemma AnneLeaves()
    ensures Chase(World(1, 1, 1, [], [Anne()]), 3) == World(3, 2, 3, [], [])
  {
    var passing := World(2, 1, 2, [], [Anne()]);
    Quiet(passing);
    assert Toward(World(1, 1, 1, [], [Anne()]), 3) == passing;
    var m := World(3, 1, 3, [], [Anne()]);
    assert Matched([Anne()], Destination, 3) == [Anne()];
    assert Unmatched([Anne()], Destination, 3) == [];
    assert Pickup(m) == (m, false);
    assert Dropoff(m) == (World(3, 1, 3, [], []), true);
    assert Toward(passing, 3) == World(3, 2, 3, [], []);
  }

  lemma AnneServed()
    ensures ServeRiders(World(1, 1, 1, [], [Anne()])) == World(3, 2, 3, [], [])
  {
    AnneLeaves();
  }

  lemma AnneGoes()
    ensures GoToFloor(World(0, 0, 0, [Anne()], []), Anne()) == World(3, 2, 3, [], [])
  {
    AnneBoards();
    assert DriveTo(World(0, 0, 0, [Anne()], []), 1) == World(1, 1, 1, [], [Anne()]);
    AnneServed();
  }

  /** Anne, from floor 1 to floor 3, with the car at the ground floor: one stop to pick her up,
      one to drop her off, three floors traversed, ending at floor 3 with nothing left. */
  lemma AnneRide()
    ensures Dispatch(World(0, 0, 0, [Anne()], [])) == World(3, 2, 3, [], [])
  {
    AnneGoes();
    assert DispatchFrom(World(0, 0, 0, [Anne()], []), [Anne()]) == DispatchFrom(World(3, 2, 3, [], []), []);
  }

  // -------------------------------------------------------------------------------------------
  // Two requests at one floor: the riders board in reverse order

  function Ada(): Person { Person("Ada", Int(2), Int(5)) }
  function Ben(): Person { Person("Ben", Int(2), Int(1)) }

  lemma PairMatched()
    ensures Matched([Ada(), Ben()], Origin, 2) == [Ada(), Ben()]
    ensures Unmatched([Ada(), Ben()], Origin, 2) == []
  {
    assert [Ada(), Ben()][..1] == [Ada()];
  }

  /** Ada (2 to 5) and Ben (2 to 1) both wait at floor 2. The pickup there takes both, but Ben,
      the later request, is appended first, so Ben becomes riders[0], the rider whose floor
      ServeRiders chases first. */
  lemma PairBoardsReversed()
    ensures Pickup(World(2, 0, 2, [Ada(), Ben()], [])) == (World(2, 0, 2, [], [Ben(), Ada()]), true)
  {
    var m := World(2, 0, 2, [Ada(), Ben()], []);
    PairMatched();
    assert Reverse([Ada(), Ben()]) == [Ben(), Ada()];
    assert Ada() in m.requests && At(Ada(), Origin, 2);
    var r := Pickup(m);
    assert r.0.requests == [];
    assert [] + [Ben(), Ada()] == [Ben(), Ada()];
    assert r.0.riders == [Ben(), Ada()];
    assert r.0 == World(2, 0, 2, [], [Ben(), Ada()]);
  }

  // -------------------------------------------------------------------------------------------
  // A request at the car's own floor

  function Cy(): Person { Person("Cy", Int(0), Int(4)) }

  /** Cy waits at the ground floor, where the car already is. Dispatch takes Cy's turn, but the
      drive to floor 0 makes no move, so no check runs: Cy is never picked up. */
  lemma StartFloorRequestStays()
    ensures Dispatch(World(0, 0, 0, [Cy()], [])) == World(0, 0, 0, [Cy()], [])
  {
    var w := World(0, 0, 0, [Cy()], []);
    NoMoveNoPickup(w, Cy());
    assert DispatchFrom(w, [Cy()]) == DispatchFrom(w, []);
  }

  // -------------------------------------------------------------------------------------------
  // The API test, as direct calls on the store and the car

  /** Create, list, delete at index 0, list again: one record, named Bob, then none. */
  method CrudRoundTrip() returns (created: Result<Person>, listed: seq<Person>, deleted: Result<Person>, after: seq<Person>)
    ensures created == Ok(Person("Bob", Int(3), Int(9)))
    ensures |listed| == 1 && listed[0].name == "Bob"
    ensures deleted == created && after == []
  {
    var store := new Store();
    created := store.PostRequest(Body(Str("Bob"), Num(Int(3)), Num(Int(9))));
    listed := store.ListRequests();
    deleted := store.DeleteRequest(Int(0));
    after := store.ListRequests();
  }

  /** Anne's request through a fresh car and store: one request and no rider before dispatch;
      afterwards floor 3, two stops, three floors traversed, and both sequences empty. */
  method AnneThroughTheApi() returns (before: Snapshot, floor: nat, stops: nat, traversed: nat, after: Snapshot)
    ensures before == Snapshot([Anne()], [])
    ensures floor == 3 && stops == 2 && traversed == 3
    ensures after == Snapshot([], [])
  {
    var store := new Store();
    var car := new ApiElevator(store);
    var added := car.AddRequest(Encode(Anne()));
    before := store.State();
    assert car.Model() == World(0, 0, 0, [Anne()], []);
    car.Dispatch();
    AnneRide();
    floor, stops, traversed := car.currentFloor, car.stops, car.floorsTraversed;
    after := store.State();
  }
}
