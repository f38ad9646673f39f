/** The request handlers of the customers controller over the store. */
module Controllers {
  import opened Customers
  import opened Strings

  /** What a handler produces: a record, a plain success message, a not-found answer
      carrying the requested id, the search's static not-found answer, or an exception
      logged and rethrown by the handler's catch block. */
  datatype Outcome = Ok(record: Customer) | OkMsg | NotFound(id: int) | NoMatch | Fault

  /** The whole collection, in store order. */
  function GetAll(customers: seq<Customer>): (r: seq<Customer>)
    ensures r == customers
  {
    customers
  }

  /** Lookup by id: the record keyed `id`, or NotFound carrying the id. */
  function Get(customers: seq<Customer>, id: int): (r: Outcome)
    ensures r.Ok? || r == NotFound(id)
    ensures r.Ok? <==> HasId(customers, id)
    ensures r.Ok? ==> r.record.Id == id && r.record in customers
    ensures UniqueIds(customers) ==>
      forall i :: 0 <= i < |customers| && customers[i].Id == id ==> r == Ok(customers[i])
  {
    match Locate(customers, id)
    case None => NotFound(id)
    case Some(i) => Ok(customers[i])
  }

  /** The search filter: both names contain the given fragments. The default empty
      fragments match every record. */
  predicate Matches(c: Customer, firstName: string, lastName: string): (r: bool)
    ensures firstName == [] && lastName == [] ==> r
  {
    Contains(c.firstName, firstName) && Contains(c.lastName, lastName)
  }

  /** Position `i` holds a match and no earlier record matches. */
  ghost predicate IsFirstMatch(customers: seq<Customer>, i: int, firstName: string, lastName: string)
  {
    0 <= i < |customers| && Matches(customers[i], firstName, lastName)
    && forall j :: 0 <= j < i ==> !Matches(customers[j], firstName, lastName)
  }

  /** `Where(filter).FirstOrDefault()`: the position of the first matching record, or None. */
  function FirstMatch(customers: seq<Customer>, firstName: string, lastName: string): (r: Option<nat>)
    ensures r.None? <==> forall i :: 0 <= i < |customers| ==> !Matches(customers[i], firstName, lastName)
    ensures r.Some? ==> r.value < |customers| && Matches(customers[r.value], firstName, lastName)
    ensures r.Some? ==> forall j :: 0 <= j < r.value ==> !Matches(customers[j], firstName, lastName)
  {
    if customers == [] then None
    else if Matches(customers[0], firstName, lastName) then Some(0)
    else
      match FirstMatch(customers[1..], firstName, lastName)
      case None =>
        assert forall i :: 1 <= i < |customers| ==> customers[i] == customers[1..][i - 1];
        None
      case Some(k) => Some(k + 1)
  }

  /** The guard `found == null && found.firstName == ""` with C#'s short-circuit `&&`:
      None stands for the NullReferenceException raised by reading `firstName` of a null
      result; otherwise the value of the condition. The condition can never be true. */
  function GuardAsWritten(found: Option<Customer>): (r: Option<bool>)
    ensures r != Some(true)
    ensures r.None? <==> found.None?
  {
    if found.None? then None  // `found.firstName` is read on a null result
    else Some(false)          // `found == null` is false, so `&&` stops there
  }

  /** Find-first name search as written: the first record, in store order, whose first
      name contains `firstName` and whose last name contains `lastName`; when none
      matches, the guard faults, so the handler never answers not-found. */
  function SearchByName(customers: seq<Customer>, firstName: string := "", lastName: string := ""): (r: Outcome)
    ensures r.Ok? || r.Fault?
    ensures r.Ok? <==> exists i :: 0 <= i < |customers| && Matches(customers[i], firstName, lastName)
    ensures r.Ok? ==> exists i :: IsFirstMatch(customers, i, firstName, lastName) && r.record == customers[i]
  {
    var first := FirstMatch(customers, firstName, lastName);
    var found := if first.Some? then Some(customers[first.value]) else None;
    match GuardAsWritten(found)
    case None => Fault
    case Some(true) => NoMatch
    case Some(false) => Ok(found.value)
  }

  /** The name search with the guard it evidently intends (`found == null`): the first
      match, or the static not-found answer when nothing matches. */
  function SearchByNameIntended(customers: seq<Customer>, firstName: string := "", lastName: string := ""): (r: Outcome)
    ensures r.Ok? || r.NoMatch?
    ensures r.NoMatch? <==> forall i :: 0 <= i < |customers| ==> !Matches(customers[i], firstName, lastName)
    ensures r.Ok? ==> exists i :: IsFirstMatch(customers, i, firstName, lastName) && r.record == customers[i]
  {
    match FirstMatch(customers, firstName, lastName)
    case None => NoMatch
    case Some(i) => Ok(customers[i])
  }

  /** Where both searches differ: the written one faults exactly where the intended one
      answers not-found, and they agree on every match. */
  lemma SearchAsWrittenVersusIntended(customers: seq<Customer>, firstName: string, lastName: string)
    ensures SearchByNameIntended(customers, firstName, lastName).NoMatch?
      <==> SearchByName(customers, firstName, lastName) == Fault
    ensures SearchByNameIntended(customers, firstName, lastName).Ok?
      ==> SearchByName(customers, firstName, lastName) == SearchByNameIntended(customers, firstName, lastName)
  {
  }

  /** With both fragments left at their defaults every record matches, so a search of a
      non-empty store yields its first record. */
  lemma SearchDefaultsToFirst(customers: seq<Customer>)
    requires customers != []
    ensures SearchByName(customers) == Ok(customers[0])
  {
  }

  /** The record stored by an update: `e`'s key with `c`'s names and date of birth. */
  function Overwrite(e: Customer, c: Customer): (r: Customer)
    ensures r.Id == e.Id
    ensures r.firstName == c.firstName && r.lastName == c.lastName && r.dateOfBirth == c.dateOfBirth
  {
    e.(firstName := c.firstName, lastName := c.lastName, dateOfBirth := c.dateOfBirth)
  }

  /** Reference meaning of an update: every record keyed `id` overwritten from `c`. */
  function Overwritten(s: seq<Customer>, id: int, c: Customer): seq<Customer>
  {
    if s == [] then []
    else [if s[0].Id == id then Overwrite(s[0], c) else s[0]] + Overwritten(s[1..], id, c)
  }

  /** Reference meaning of a deletion: the store with the records keyed `id` filtered out. */
  function Without(s: seq<Customer>, id: int): seq<Customer>
  {
    if s == [] then []
    else (if s[0].Id == id then [] else [s[0]]) + Without(s[1..], id)
  }

  /** Overwriting the one record at `i` in place is the reference update of its key. */
  lemma {:induction false} OverwriteAtIsOverwritten(s: seq<Customer>, i: nat, c: Customer)
    requires UniqueIds(s) && i < |s|
    ensures s[i := Overwrite(s[i], c)] == Overwritten(s, s[i].Id, c)
  {
    if i == 0 {
      NoneOverwritten(s[1..], s[0].Id, c);
      assert s[0 := Overwrite(s[0], c)] == [Overwrite(s[0], c)] + s[1..];
    } else {
      OverwriteAtIsOverwritten(s[1..], i - 1, c);
      assert s[i := Overwrite(s[i], c)] == [s[0]] + s[1..][i - 1 := Overwrite(s[i], c)];
    }
  }

  /** An update of a key no record has changes nothing. */
  lemma {:induction false} NoneOverwritten(s: seq<Customer>, id: int, c: Customer)
    requires forall j :: 0 <= j < |s| ==> s[j].Id != id
    ensures Overwritten(s, id, c) == s
  {
    if s != [] {
      NoneOverwritten(s[1..], id, c);
    }
  }

  /** Removing the one record at `i` is the reference deletion of its key, and the other
      records keep their relative order. */
  lemma {:induction false} RemoveAtIsWithout(s: seq<Customer>, i: nat)
    requires UniqueIds(s) && i < |s|
    ensures s[..i] + s[i + 1..] == Without(s, s[i].Id)
  {
    if i == 0 {
      NoneWithout(s[1..], s[0].Id);
      assert s[..0] + s[1..] == s[1..];
    } else {
      RemoveAtIsWithout(s[1..], i - 1);
      assert s[1..][..i - 1] + s[1..][i..] == s[1..i] + s[i + 1..];
      assert s[..i] + s[i + 1..] == [s[0]] + (s[1..i] + s[i + 1..]);
    }
  }

  /** Removing one record keeps the keys unique. */
  lemma RemoveAtUnique(s: seq<Customer>, i: nat)
    requires UniqueIds(s) && i < |s|
    ensures UniqueIds(s[..i] + s[i + 1..])
    ensures |s[..i] + s[i + 1..]| == |s| - 1
  {
    var t := s[..i] + s[i + 1..];
    assert forall j :: 0 <= j < |t| ==> t[j] == if j < i then s[j] else s[j + 1];
  }

  /** Deleting a key no record has changes nothing. */
  lemma {:induction false} NoneWithout(s: seq<Customer>, id: int)
    requires forall j :: 0 <= j < |s| ==> s[j].Id != id
    ensures Without(s, id) == s
  {
    if s != [] {
      NoneWithout(s[1..], id);
    }
  }

  /** Lookup in a store that starts with `x`. */
  lemma GetCons(x: Customer, t: seq<Customer>, k: int)
    ensures Get([x] + t, k) == if x.Id == k then Ok(x) else Get(t, k)
  {
  }

  /** After an update every other key is looked up as before. */
  lemma {:induction false} OverwrittenKeepsOthers(s: seq<Customer>, id: int, c: Customer, k: int)
    requires k != id
    ensures Get(Overwritten(s, id, c), k) == Get(s, k)
  {
    if s != [] {
      OverwrittenKeepsOthers(s[1..], id, c, k);
      var x := if s[0].Id == id then Overwrite(s[0], c) else s[0];
      GetCons(x, Overwritten(s[1..], id, c), k);
      GetCons(s[0], s[1..], k);
      assert [s[0]] + s[1..] == s;
    }
  }

  /** After a deletion the key is gone. */
  lemma {:induction false} WithoutDropsId(s: seq<Customer>, id: int)
    ensures Get(Without(s, id), id) == NotFound(id)
  {
    if s != [] {
      WithoutDropsId(s[1..], id);
      if s[0].Id != id {
        GetCons(s[0], Without(s[1..], id), id);
      }
    }
  }

  /** After a deletion every other key is looked up as before. */
  lemma {:induction false} WithoutKeepsOthers(s: seq<Customer>, id: int, k: int)
    requires k != id
    ensures Get(Without(s, id), k) == Get(s, k)
  {
    if s != [] {
      WithoutKeepsOthers(s[1..], id, k);
      GetCons(s[0], s[1..], k);
      assert [s[0]] + s[1..] == s;
      if s[0].Id != id {
        assert Without(s, id) == [s[0]] + Without(s[1..], id);
        GetCons(s[0], Without(s[1..], id), k);
      } else {
        assert Without(s, id) == Without(s[1..], id);
      }
    }
  }

  /** Appending a record with a fresh key keeps keys unique; the new key finds the new
      record and every other key is looked up as before. */
  lemma AppendFresh(s: seq<Customer>, c: Customer, k: int)
    requires UniqueIds(s) && !HasId(s, c.Id)
    ensures UniqueIds(s + [c])
    ensures Get(s + [c], c.Id) == Ok(c)
    ensures k != c.Id ==> Get(s + [c], k) == Get(s, k)
  {
    assert forall j :: 0 <= j < |s| ==> (s + [c])[j] == s[j];
    assert (s + [c])[|s|] == c;
  }

  /** The controller: each handler reads or changes the shared context's store. */
  class CustomersController {
    const db: CustomersDbContext

    constructor (db: CustomersDbContext)
      ensures this.db == db
    {
      this.db := db;
    }

    /** Adds `customer` as given and answers with it; afterwards its id finds it. */
    method Post(customer: Customer) returns (r: Outcome)
      requires db.Valid() && !HasId(db.customers, customer.Id)
      modifies db
      ensures db.Valid()
      ensures db.customers == old(db.customers) + [customer]
      ensures r == Ok(customer)
      ensures Get(db.customers, customer.Id) == Ok(customer)
      ensures forall k :: k != customer.Id ==> Get(db.customers, k) == Get(old(db.customers), k)
    {
      forall k | k != customer.Id
        ensures Get(db.customers + [customer], k) == Get(db.customers, k)
      {
        AppendFresh(db.customers, customer, k);
      }
      AppendFresh(db.customers, customer, customer.Id);
      db.customers := db.customers + [customer];
      r := Ok(customer);
    }

    /** Overwrites the names and date of birth of the record keyed `id` (the route's id;
        `customer.Id` is ignored) and answers with the updated record, or answers
        NotFound(id) and changes nothing. */
    method Put(id: int, customer: Customer) returns (r: Outcome)
      requires db.Valid()
      modifies db
      ensures db.Valid()
      ensures |db.customers| == |old(db.customers)|
      ensures !HasId(old(db.customers), id) ==> r == NotFound(id) && db.customers == old(db.customers)
      ensures HasId(old(db.customers), id) ==>
        r == Ok(Customer(id, customer.firstName, customer.lastName, customer.dateOfBirth))
        && db.customers == Overwritten(old(db.customers), id, customer)
        && Get(db.customers, id) == r
      ensures forall j :: 0 <= j < |old(db.customers)| && old(db.customers)[j].Id != id ==>
        db.customers[j] == old(db.customers)[j]
    {
      var found := Locate(db.customers, id);
      if found.None? {
        r := NotFound(id);
      } else {
        var i := found.value;
        var entity := Overwrite(db.customers[i], customer);
        OverwriteAtIsOverwritten(db.customers, i, customer);
        ghost var s := db.customers;
        db.customers := db.customers[i := entity];
        assert forall j :: 0 <= j < |s| ==> db.customers[j].Id == s[j].Id;
        assert UniqueIds(db.customers);
        LocateUnique(db.customers, i);
        r := Ok(entity);
      }
    }

    /** Removes the record keyed `id` and answers with a success message, or answers
        NotFound(id) and changes nothing; afterwards `id` is not found. */
    method Delete(id: int) returns (r: Outcome)
      requires db.Valid()
      modifies db
      ensures db.Valid()
      ensures !HasId(old(db.customers), id) ==> r == NotFound(id) && db.customers == old(db.customers)
      ensures HasId(old(db.customers), id) ==>
        r == OkMsg
        && db.customers == Without(old(db.customers), id)
        && |db.customers| == |old(db.customers)| - 1
      ensures Get(db.customers, id) == NotFound(id)
    {
      var found := Locate(db.customers, id);
      if found.None? {
        r := NotFound(id);
      } else {
        var i := found.value;
        RemoveAtIsWithout(db.customers, i);
        RemoveAtUnique(db.customers, i);
        WithoutDropsId(db.customers, id);
        db.customers := db.customers[..i] + db.customers[i + 1..];
        r := OkMsg;
      }
    }
  }
}
