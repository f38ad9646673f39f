/** The seeding routine: fills an empty store with four fixed customers. */
module DbContextExtension {
  import opened Customers

  /** The four initial customers, in the order they are added. */
  const SeedCustomers: seq<Customer> := [
    Customer(1, "Alan", "Chen", Date(1970, 2, 3)),
    Customer(2, "Mikka", "Singh", Date(1985, 4, 2)),
    Customer(3, "Tom", "Hanks", Date(1962, 3, 4)),
    Customer(4, "Julia", "Roberts", Date(1972, 4, 4))
  ]

  /** The seed holds four records keyed 1 to 4 in order, so its keys are distinct. */
  lemma SeedIdsDistinct()
    ensures |SeedCustomers| == 4
    ensures forall i :: 0 <= i < |SeedCustomers| ==> SeedCustomers[i].Id == i + 1
    ensures UniqueIds(SeedCustomers)
  {
  }

  /** Leaves a non-empty store alone; otherwise adds the four seed records. Afterwards the
      store is non-empty, so a second call changes nothing. */
  method EnsureSeeded(context: CustomersDbContext)
    modifies context
    ensures old(context.customers) != [] ==> context.customers == old(context.customers)
    ensures old(context.customers) == [] ==> context.customers == SeedCustomers
    ensures context.customers != []
    ensures old(context.Valid()) ==> context.Valid()
  {
    if |context.customers| > 0 {
      return;
    }
    SeedIdsDistinct();
    context.customers := context.customers + SeedCustomers;
  }
}
