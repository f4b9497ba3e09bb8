/**
 The sample-data endpoint. The concrete catalogue it inserts is data, so it
 is a parameter here; what is modelled is the guard that makes a second call
 a no-op.
 */
module Seed {
  import opened Wrappers
  import opened Models
  import opened Collections

  const AlreadySeeded := "Sample data already exists"
  const Seeded := "Sample data initialized successfully"

  /**
   The sample records carry fresh UUIDs: distinct among themselves, and no
   sample product reuses the id of a stored product.
   */
  predicate FreshSample(store: Store, sampleCategories: seq<Category>, sampleProducts: seq<Product>)
  {
    && DistinctBy(sampleCategories, CategoryId)
    && DistinctBy(sampleProducts, ProductId)
    && forall i, j :: 0 <= i < |sampleProducts| && 0 <= j < |store.products| ==>
         sampleProducts[i].id != store.products[j].id
  }

  /** POST /init-data: inserts the sample catalogue unless any category, active or not, exists. */
  function InitializeSampleData(store: Store, sampleCategories: seq<Category>, sampleProducts: seq<Product>)
    : (r: Reply<string>)
    requires FreshSample(store, sampleCategories, sampleProducts)
    ensures |store.categories| > 0 ==> r == Reply(store, Ok(AlreadySeeded))
    ensures |store.categories| == 0 ==>
      && r.result == Ok(Seeded)
      && r.store == store.(categories := sampleCategories, products := store.products + sampleProducts)
  {
    if |store.categories| > 0 then Reply(store, Ok(AlreadySeeded))
    else
      Reply(store.(categories := store.categories + sampleCategories,
                   products := store.products + sampleProducts),
            Ok(Seeded))
  }

  /** Once a non-empty sample catalogue is in, seeding again changes nothing. */
  lemma SeedingTwiceIsSeedingOnce(store: Store, sampleCategories: seq<Category>, sampleProducts: seq<Product>,
                                  moreCategories: seq<Category>, moreProducts: seq<Product>)
    requires |sampleCategories| > 0
    requires FreshSample(store, sampleCategories, sampleProducts)
    requires FreshSample(InitializeSampleData(store, sampleCategories, sampleProducts).store,
                         moreCategories, moreProducts)
    ensures var once := InitializeSampleData(store, sampleCategories, sampleProducts);
      InitializeSampleData(once.store, moreCategories, moreProducts) == Reply(once.store, Ok(AlreadySeeded))
  {
  }

  /** Seeding with fresh sample ids keeps every collection's ids distinct. */
  lemma SeedPreservesWellFormed(store: Store, sampleCategories: seq<Category>, sampleProducts: seq<Product>)
    requires WellFormed(store)
    requires FreshSample(store, sampleCategories, sampleProducts)
    ensures WellFormed(InitializeSampleData(store, sampleCategories, sampleProducts).store)
  {
  }
}
