/** Passenger records as they cross the store's boundary: the JSON body of a POST, the check
    `isValidPerson` the server applies to it, and the record the store keeps. */
module Passengers {

  datatype Option<T> = None | Some(value: T)

  /** A JavaScript number. `Fraction` stands for every finite number that is not an integer: no
      such number equals an integer floor or passes `Number.isInteger`, so its value is not kept. */
  datatype Number = Int(value: int) | Fraction | NaN | Infinite

  /** `Number.isFinite` */
  predicate IsFinite(n: Number) {
    n.Int? || n.Fraction?
  }

  /** `Number.isInteger` */
  predicate IsInteger(n: Number) {
    n.Int?
  }

  type Finite = n: Number | IsFinite(n) witness Int(0)

  /** A JSON value in one of the three fields the store looks at. */
  datatype JsValue = Undefined | Null | Bool(b: bool) | Str(s: string) | Num(n: Number) | Structured

  /** A request body: absent (or any falsy value), or an object seen through the fields
      `name`, `currentFloor` and `dropOffFloor`. */
  datatype Payload = Absent | Body(name: JsValue, currentFloor: JsValue, dropOffFloor: JsValue)

  /** A passenger record as the store holds it and hands it out. */
  datatype Person = Person(name: string, currentFloor: Finite, dropOffFloor: Finite)

  /** The server's validation: present, a string name, and two finite floor numbers. */
  predicate IsValidPerson(p: Payload) {
    && p.Body?
    && p.name.Str?
    && p.currentFloor.Num? && IsFinite(p.currentFloor.n)
    && p.dropOffFloor.Num? && IsFinite(p.dropOffFloor.n)
  }

  /** The record a body denotes, when the server accepts it. */
  function Decode(p: Payload): (r: Option<Person>)
    ensures r.Some? <==> IsValidPerson(p)
    ensures r.Some? ==> p.name == Str(r.value.name)
                        && p.currentFloor == Num(r.value.currentFloor)
                        && p.dropOffFloor == Num(r.value.dropOffFloor)
  {
    if IsValidPerson(p) then Some(Person(p.name.s, p.currentFloor.n, p.dropOffFloor.n)) else None
  }

  /** `JSON.stringify` of a record, as the engine sends it back to the store. */
  function Encode(p: Person): (r: Payload)
    ensures IsValidPerson(r)
  {
    Body(Str(p.name), Num(p.currentFloor), Num(p.dropOffFloor))
  }

  /** Every stored record passes validation again when it is sent back, unchanged. */
  lemma DecodeEncode(p: Person)
    ensures IsValidPerson(Encode(p))
    ensures Decode(Encode(p)) == Some(p)
  {
  }

  /** An accepted body is exactly the encoding of the record it denotes. */
  lemma EncodeDecode(p: Payload)
    requires IsValidPerson(p)
    ensures Encode(Decode(p).value) == p
  {
  }

  /** Validation rejects a missing body, a name that is not a string, and a floor that is not a finite number. */
  lemma RejectsMalformed(name: JsValue, origin: JsValue, destination: JsValue)
    ensures !IsValidPerson(Absent)
    ensures !name.Str? ==> !IsValidPerson(Body(name, origin, destination))
    ensures origin == Num(NaN) || origin == Num(Infinite) || origin == Str("3") || origin == Null || origin == Undefined
            ==> !IsValidPerson(Body(name, origin, destination))
    ensures destination == Num(NaN) || destination == Num(Infinite) || destination == Str("3")
            || destination == Null || destination == Undefined
            ==> !IsValidPerson(Body(name, origin, destination))
  {
  }

  /** Validation does not reject an empty name, a negative floor or a non-integer floor. */
  lemma AcceptsLooseRecords()
    ensures IsValidPerson(Body(Str(""), Num(Int(-2)), Num(Fraction)))
  {
  }
}
