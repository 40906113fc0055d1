/** The API-backed elevator: a car that keeps its floor and counters in fields and mirrors the
    store's two sequences, re-reading them before every decision and changing them only through
    the store's operations. Each HTTP call of the source is a direct call on the Store it holds;
    each `await` is an ordinary sequential call. HasPickup, HasDropoff, HasStop, MoveUp, CountStop,
    Step, GoToFloor and Dispatch are proved to change the car and the store exactly as the
    DispatchModel function of the same meaning says, and to leave the mirror equal to the store;
    MoveDown does so above the ground floor and changes nothing at it. SyncFromApi, AddRequest,
    DeleteRequestsAt, DeleteRidersAt, PostRiders and the constructor are stated directly against
    the store and the mirror. */
module Engine {
  import opened Passengers
  import opened Seqs
  import opened Server
  import opened DispatchModel

  class ApiElevator {
    const store: Store
    var currentFloor: nat
    var stops: nat
    var floorsTraversed: nat
    // the mirror of the store, as last read
    var requests: seq<Person>
    var riders: seq<Person>

    /** The car at the ground floor with nothing counted and an empty mirror. */
    constructor (store: Store)
      ensures this.store == store
      ensures currentFloor == 0 && stops == 0 && floorsTraversed == 0
      ensures requests == [] && riders == []
    {
      this.store := store;
      currentFloor, stops, floorsTraversed := 0, 0, 0;
      requests, riders := [], [];
    }

    /** The car together with the store's current contents. */
    function Model(): World
      reads this, store
    {
      World(currentFloor, stops, floorsTraversed, store.requests, store.riders)
    }

    /** The mirror holds what the store holds. */
    predicate Synced()
      reads this, store
    {
      requests == store.requests && riders == store.riders
    }

    /** syncFromApi: replace both mirrored sequences with one snapshot of the store. */
    method SyncFromApi()
      modifies this`requests, this`riders
      ensures Synced()
    {
      var state := store.State();
      requests := state.requests;
      riders := state.riders;
    }

    /** addRequest: post a request, then re-read the store. A rejected body makes the client
        throw before the re-read, so the mirror is left as it was. */
    method AddRequest(body: Payload) returns (r: Result<Person>)
      modifies this`requests, this`riders, store
      ensures store.riders == old(store.riders)
      ensures IsValidPerson(body) ==>
                r == Ok(Decode(body).value) && store.requests == old(store.requests) + [r.value] && Synced()
      ensures !IsValidPerson(body) ==>
                r == Err(InvalidPayload) && store.requests == old(store.requests)
                && requests == old(requests) && riders == old(riders)
    {
      r := store.PostRequest(body);
      if r.Err? {
        return;
      }
      SyncFromApi();
    }

    /** The deletion loop of hasPickupApi: one DELETE /requests/:index call per position, in the
        given order. Positions that are strictly descending are each still valid at their turn. */
    method DeleteRequestsAt(ix: seq<nat>)
      requires StrictlyDescending(ix) && forall j :: 0 <= j < |ix| ==> ix[j] < |store.requests|
      modifies store
      ensures store.requests == DeleteEach(old(store.requests), ix)
      ensures store.riders == old(store.riders)
    {
      ghost var target := DeleteEach(store.requests, ix);
      for i := 0 to |ix|
        invariant forall j :: i <= j < |ix| ==> ix[j] < |store.requests|
        invariant DeleteEach(store.requests, ix[i..]) == target
        invariant store.riders == old(store.riders)
      {
        DeleteStep(store.requests, ix, i);
        var removed := store.DeleteRequest(Int(ix[i]));
      }
      assert ix[|ix|..] == [];
    }

    /** The deletion loop of hasDropoffApi: one DELETE /riders/:index call per position. */
    method DeleteRidersAt(ix: seq<nat>)
      requires StrictlyDescending(ix) && forall j :: 0 <= j < |ix| ==> ix[j] < |store.riders|
      modifies store
      ensures store.riders == DeleteEach(old(store.riders), ix)
      ensures store.requests == old(store.requests)
    {
      ghost var target := DeleteEach(store.riders, ix);
      for i := 0 to |ix|
        invariant forall j :: i <= j < |ix| ==> ix[j] < |store.riders|
        invariant DeleteEach(store.riders, ix[i..]) == target
        invariant store.requests == old(store.requests)
      {
        DeleteStep(store.riders, ix, i);
        var removed := store.DeleteRider(Int(ix[i]));
      }
      assert ix[|ix|..] == [];
    }

    /** The posting loop of hasPickupApi: one POST /riders call per record, in the given order.
        A record the store handed out always passes validation again, so every call appends. */
    method PostRiders(people: seq<Person>)
      modifies store
      ensures store.riders == old(store.riders) + people
      ensures store.requests == old(store.requests)
    {
      for i := 0 to |people|
        invariant store.riders == old(store.riders) + people[..i]
        invariant store.requests == old(store.requests)
      {
        DecodeEncode(people[i]);
        var added := store.PostRider(Encode(people[i]));
        assert people[..i + 1] == people[..i] + [people[i]];
      }
      assert people[..|people|] == people;
    }

    /** hasPickupApi: delete every request waiting at this floor, by descending index so each index
        is still valid when its turn comes, then post the deleted records as riders in the order the
        deletions visited them. */
    method HasPickup() returns (picked: bool)
      modifies this`requests, this`riders, store
      ensures (Model(), picked) == Pickup(old(Model()))
      ensures Synced()
    {
      SyncFromApi();
      ghost var w := Model();
      assert w == old(Model());
      var pickups := Matches(requests, Origin, currentFloor);
      if |pickups| == 0 {
        assert Matched(w.requests, Origin, w.floor) == [];
        picked := false;
      } else {
        pickups := ByIndexDescending(pickups);
        DeleteMatches(requests, Origin, currentFloor);
        DeleteRequestsAt(Indices(pickups));
        assert store.requests == Unmatched(w.requests, Origin, w.floor);
        PostRiders(Persons(pickups));
        assert store.riders == w.riders + Reverse(Matched(w.requests, Origin, w.floor));
        SyncFromApi();
        ghost var after := w.(requests := Unmatched(w.requests, Origin, w.floor),
                              riders := w.riders + Reverse(Matched(w.requests, Origin, w.floor)));
        assert Model() == after;
        assert Pickup(w) == (after, true);
        picked := true;
      }
    }

    /** hasDropoffApi: delete every rider whose destination is this floor, by descending index. */
    method HasDropoff() returns (dropped: bool)
      modifies this`requests, this`riders, store
      ensures (Model(), dropped) == Dropoff(old(Model()))
      ensures Synced()
    {
      SyncFromApi();
      ghost var w := Model();
      assert w == old(Model());
      var dropoffs := Matches(riders, Destination, currentFloor);
      if |dropoffs| == 0 {
        assert Matched(w.riders, Destination, w.floor) == [];
        dropped := false;
      } else {
        dropoffs := ByIndexDescending(dropoffs);
        DeleteMatches(riders, Destination, currentFloor);
        DeleteRidersAt(Indices(dropoffs));
        assert store.riders == Unmatched(w.riders, Destination, w.floor);
        SyncFromApi();
        ghost var after := w.(riders := Unmatched(w.riders, Destination, w.floor));
        assert Model() == after;
        assert Dropoff(w) == (after, true);
        dropped := true;
      }
    }

    /** hasStopApi: run both checks, never short-circuiting, and report a stop only after at
        least one floor has been traversed. */
    method HasStop() returns (stop: bool)
      modifies this`requests, this`riders, store
      ensures (Model(), stop) == StopCheck(old(Model()))
      ensures Synced()
    {
      var hadPickup := HasPickup();
      var hadDropoff := HasDropoff();
      stop := (hadPickup || hadDropoff) && floorsTraversed > 0;
    }

    /** moveUpApi */
    method MoveUp()
      modifies this, store
      ensures Model() == DispatchModel.MoveUp(old(Model()))
      ensures Synced()
    {
      ghost var w := Model();
      currentFloor := currentFloor + 1;
      floorsTraversed := floorsTraversed + 1;
      assert Model() == w.(floor := w.floor + 1, traversed := w.traversed + 1);
      CountStop();
    }

    /** moveDownApi: at the ground floor it returns at once, touching neither car, mirror nor store. */
    method MoveDown()
      modifies this, store
      ensures Model() == DispatchModel.MoveDown(old(Model()))
      ensures old(currentFloor) > 0 ==> Synced()
      ensures old(currentFloor) == 0 ==> requests == old(requests) && riders == old(riders)
    {
      if currentFloor <= 0 {
        return;
      }
      ghost var w := Model();
      currentFloor := currentFloor - 1;
      floorsTraversed := floorsTraversed + 1;
      assert Model() == w.(floor := currentFloor, traversed := w.traversed + 1);
      CountStop();
    }

    /** The last line of moveUpApi and moveDownApi: run the checks and count a stop if they report one. */
    method CountStop()
      modifies this`requests, this`riders, this`stops, store
      ensures Model() == DispatchModel.CountStop(old(Model()))
      ensures Synced()
    {
      ghost var c := StopCheck(Model());
      var stop := HasStop();
      assert Model() == c.0 && stop == c.1;
      if stop {
        stops := stops + 1;
      }
    }

    /** The body of both driving loops of goToFloorApi: up when the target is above, else down. */
    method Step(target: nat)
      requires currentFloor != target
      modifies this, store
      ensures Model() == Toward(old(Model()), target)
      ensures Synced()
    {
      if target > currentFloor {
        MoveUp();
      } else {
        MoveDown();
      }
    }

    /** goToFloorApi: drive to the person's origin floor, then, while riders remain, chase the
        destination of the rider that is first at the start of each round, re-reading the store
        after every floor. The lobby policy is off, so nothing follows. */
    method GoToFloor(person: Person)
      requires WellFormed(Model()) && NoDropoffHere(Model()) && Placed(person)
      modifies this, store
      ensures Model() == DispatchModel.GoToFloor(old(Model()), person)
      ensures Synced()
    {
      ghost var start := Model();
      while Int(currentFloor) != person.currentFloor
        invariant DriveTo(Model(), OriginFloor(person)) == DriveTo(start, OriginFloor(person))
        decreases Distance(currentFloor, OriginFloor(person))
      {
        Step(OriginFloor(person));
      }
      SyncFromApi();
      ghost var arrived := Model();
      while |riders| > 0
        invariant Synced()
        invariant WellFormed(Model()) && NoDropoffHere(Model())
        invariant ServeRiders(Model()) == ServeRiders(arrived)
        decreases Load(Model())
      {
        var rider := riders[0];
        ghost var round := Model();
        ChaseDelivers(round, DestinationFloor(rider), rider);
        while Int(currentFloor) != rider.dropOffFloor && |riders| > 0
          invariant Synced()
          invariant Chase(Model(), DestinationFloor(rider)) == Chase(round, DestinationFloor(rider))
          decreases Distance(currentFloor, DestinationFloor(rider))
        {
          Step(DestinationFloor(rider));
          SyncFromApi();
        }
        SyncFromApi();
      }
    }

    /** dispatchApi: take the pending requests once, then for each of them re-read the store and,
        while anything is pending or aboard, go to its floor. */
    method Dispatch()
      requires WellFormed(Model()) && NoDropoffHere(Model())
      modifies this, store
      ensures Model() == DispatchModel.Dispatch(old(Model()))
      ensures Synced()
    {
      SyncFromApi();
      var snapshot := requests;
      ghost var start := Model();
      for k := 0 to |snapshot|
        invariant Synced()
        invariant WellFormed(Model()) && NoDropoffHere(Model())
        invariant DispatchFrom(Model(), snapshot[k..]) == DispatchFrom(start, snapshot)
      {
        var request := snapshot[k];
        assert snapshot[k..][1..] == snapshot[k + 1..];
        SyncFromApi();
        if |riders| > 0 || |requests| > 0 {
          GoToFloor(request);
        }
      }
    }
  }
}
