/** The customer entity and the in-memory store that holds the customers in store order. */
module Customers {

  /** A calendar date kept as its (year, month, day) triple; no calendar rule is checked. */
  datatype Date = Date(year: int, month: int, day: int)

  /** One customer record. `Id` is the primary key; the other three fields are mutable. */
  datatype Customer = Customer(Id: int, firstName: string, lastName: string, dateOfBirth: Date)

  datatype Option<T> = None | Some(value: T)

  /** Some record of `s` is keyed `id`. */
  ghost predicate HasId(s: seq<Customer>, id: int)
  {
    exists i :: 0 <= i < |s| && s[i].Id == id
  }

  /** No two records of `s` share a key, as the store's primary key demands. */
  ghost predicate UniqueIds(s: seq<Customer>)
  {
    forall i, j :: 0 <= i < j < |s| ==> s[i].Id != s[j].Id
  }

  /** Primary-key lookup: the position of the first record keyed `id`, or None. */
  function Locate(s: seq<Customer>, id: int): (r: Option<nat>)
    ensures r.None? <==> !HasId(s, id)
    ensures r.Some? ==> r.value < |s| && s[r.value].Id == id
    ensures r.Some? ==> forall j :: 0 <= j < r.value ==> s[j].Id != id
  {
    if s == [] then None
    else if s[0].Id == id then Some(0)
    else
      match Locate(s[1..], id)
      case None =>
        assert forall i :: 1 <= i < |s| ==> s[i] == s[1..][i - 1];
        None
      case Some(k) => Some(k + 1)
  }

  /** In a store with unique keys, the lookup of a record's key finds that record. */
  lemma LocateUnique(s: seq<Customer>, i: nat)
    requires UniqueIds(s) && i < |s|
    ensures Locate(s, s[i].Id) == Some(i)
  {
  }

  /** The store behind the context's `Customers` set: the records in store order. */
  class CustomersDbContext {
    var customers: seq<Customer>

    /** The primary key is unique across the store, so the key lookup finds every
        record at its own position. */
    ghost predicate Valid()
      reads this
      ensures Valid() ==> forall i :: 0 <= i < |customers| ==> Locate(customers, customers[i].Id) == Some(i)
    {
      UniqueIds(customers)
    }

    constructor ()
      ensures customers == [] && Valid()
    {
      customers := [];
    }
  }
}
