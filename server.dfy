/** The in-memory store that `createApp` keeps behind its HTTP handlers: two ordered sequences,
    pending requests and riders, with list, append, clear and delete-at-index. Each handler is a
    method; the HTTP status it answers with becomes the method's result. */
module Server {
  import opened Passengers
  import opened Seqs

  /** 400 'Invalid person payload' and 404 'Request not found' / 'Rider not found'. */
  datatype Failure = InvalidPayload | NotFound

  datatype Result<T> = Ok(value: T) | Err(failure: Failure)

  /** The body of GET /state. */
  datatype Snapshot = Snapshot(requests: seq<Person>, riders: seq<Person>)

  /** The guard of both delete-at-index handlers: `Number.isInteger(idx) && idx >= 0 && idx < length`. */
  predicate IndexInRange(index: Number, length: nat) {
    IsInteger(index) && 0 <= index.value < length
  }

  class Store {
    var requests: seq<Person>
    var riders: seq<Person>

    constructor ()
      ensures requests == [] && riders == []
    {
      requests, riders := [], [];
    }

    /** GET /state */
    method State() returns (s: Snapshot)
      ensures s.requests == requests && s.riders == riders
    {
      s := Snapshot(requests, riders);
    }

    /** POST /reset */
    method Reset()
      modifies this
      ensures requests == [] && riders == []
    {
      requests := [];
      riders := [];
    }

    /** GET /requests */
    method ListRequests() returns (r: seq<Person>)
      ensures r == requests
    {
      r := requests;
    }

    /** POST /requests */
    method PostRequest(body: Payload) returns (r: Result<Person>)
      modifies this
      ensures riders == old(riders)
      ensures IsValidPerson(body) ==> r == Ok(Decode(body).value) && requests == old(requests) + [r.value]
      ensures !IsValidPerson(body) ==> r == Err(InvalidPayload) && requests == old(requests)
    {
      if !IsValidPerson(body) {
        return Err(InvalidPayload);
      }
      var person := Decode(body).value;
      requests := requests + [person];
      r := Ok(person);
    }

    /** DELETE /requests */
    method ClearRequests()
      modifies this
      ensures requests == [] && riders == old(riders)
    {
      requests := [];
    }

    /** DELETE /requests/:index */
    method DeleteRequest(index: Number) returns (r: Result<Person>)
      modifies this
      ensures riders == old(riders)
      ensures IndexInRange(index, |old(requests)|) ==>
                r == Ok(old(requests)[index.value]) && requests == RemoveAt(old(requests), index.value)
      ensures !IndexInRange(index, |old(requests)|) ==> r == Err(NotFound) && requests == old(requests)
    {
      if !IndexInRange(index, |requests|) {
        return Err(NotFound);
      }
      var removed := requests[index.value];
      requests := RemoveAt(requests, index.value);
      r := Ok(removed);
    }

    /** GET /riders */
    method ListRiders() returns (r: seq<Person>)
      ensures r == riders
    {
      r := riders;
    }

    /** POST /riders */
    method PostRider(body: Payload) returns (r: Result<Person>)
      modifies this
      ensures requests == old(requests)
      ensures IsValidPerson(body) ==> r == Ok(Decode(body).value) && riders == old(riders) + [r.value]
      ensures !IsValidPerson(body) ==> r == Err(InvalidPayload) && riders == old(riders)
    {
      if !IsValidPerson(body) {
        return Err(InvalidPayload);
      }
      var person := Decode(body).value;
      riders := riders + [person];
      r := Ok(person);
    }

    /** DELETE /riders */
    method ClearRiders()
      modifies this
      ensures riders == [] && requests == old(requests)
    {
      riders := [];
    }

    /** DELETE /riders/:index */
    method DeleteRider(index: Number) returns (r: Result<Person>)
      modifies this
      ensures requests == old(requests)
      ensures IndexInRange(index, |old(riders)|) ==>
                r == Ok(old(riders)[index.value]) && riders == RemoveAt(old(riders), index.value)
      ensures !IndexInRange(index, |old(riders)|) ==> r == Err(NotFound) && riders == old(riders)
    {
      if !IndexInRange(index, |riders|) {
        return Err(NotFound);
      }
      var removed := riders[index.value];
      riders := RemoveAt(riders, index.value);
      r := Ok(removed);
    }
  }
}
