/** Behaviour of the handlers on the freshly seeded store. */
module Scenarios {
  import opened Customers
  import opened Controllers
  import opened DbContextExtension
  import opened Strings

  /** Seeding an empty store twice gives the same four records as seeding it once. */
  method SeedTwiceFromEmpty() returns (once: seq<Customer>, twice: seq<Customer>)
    ensures once == twice == SeedCustomers
    ensures |twice| == 4
  {
    var context := new CustomersDbContext();
    EnsureSeeded(context);
    once := context.customers;
    EnsureSeeded(context);
    twice := context.customers;
  }

  /** The seeded store answers id 1 with Alan Chen and id 3 with Tom Hanks. */
  lemma SeededLookups()
    ensures Get(SeedCustomers, 1) == Ok(Customer(1, "Alan", "Chen", Date(1970, 2, 3)))
    ensures Get(SeedCustomers, 3) == Ok(Customer(3, "Tom", "Hanks", Date(1962, 3, 4)))
  {
  }

  /** Searching the seeded store for ("Tom", "Hanks") yields the record keyed 3. */
  lemma SearchTomHanks()
    ensures SearchByName(SeedCustomers, "Tom", "Hanks") == Ok(Customer(3, "Tom", "Hanks", Date(1962, 3, 4)))
  {
    assert !Contains("Chen", "Hanks");
    assert "Singh"[..5][0] != "Hanks"[0] && "Singh"[1..] == "ingh";
    assert !Contains("Singh", "Hanks");
    assert !Matches(SeedCustomers[0], "Tom", "Hanks");
    assert !Matches(SeedCustomers[1], "Tom", "Hanks");
    assert Matches(SeedCustomers[2], "Tom", "Hanks");
  }

  /** A search nothing matches faults as written, where the intended guard answers
      not-found. */
  lemma SearchNoSuchFaults()
    ensures SearchByName(SeedCustomers, "NoSuch", "") == Fault
    ensures SearchByNameIntended(SeedCustomers, "NoSuch", "") == NoMatch
  {
  }

  /** Deleting id 99 from the seeded store answers NotFound(99) and keeps four records. */
  method DeleteMissingAfterSeed() returns (r: Outcome, size: nat)
    ensures r == NotFound(99)
    ensures size == 4
  {
    var context := new CustomersDbContext();
    EnsureSeeded(context);
    SeedIdsDistinct();
    var controller := new CustomersController(context);
    r := controller.Delete(99);
    size := |context.customers|;
  }

  /** Updating id 2 of the seeded store keeps its key, takes the posted fields and
      leaves the other three records as they were. */
  method PutAfterSeed(posted: Customer) returns (r: Outcome, after: seq<Customer>)
    ensures r == Ok(Customer(2, posted.firstName, posted.lastName, posted.dateOfBirth))
    ensures |after| == 4
    ensures after[0] == SeedCustomers[0] && after[2] == SeedCustomers[2] && after[3] == SeedCustomers[3]
  {
    var context := new CustomersDbContext();
    EnsureSeeded(context);
    SeedIdsDistinct();
    assert context.customers[1].Id == 2;
    var controller := new CustomersController(context);
    r := controller.Put(2, posted);
    after := context.customers;
  }
}
