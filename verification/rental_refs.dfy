/** The list of rental ids a car or a customer keeps as a back-reference. */
module RentalRefs {
  import opened Seqs
  import opened Rentals

  /** `addRental`: append the id unless it is already listed. */
  function AddRental(refs: seq<Id>, x: Id): (r: seq<Id>)
    ensures x in r
    ensures forall y :: y in r <==> y in refs || y == x
    ensures |refs| <= |r| <= |refs| + 1 && r[..|refs|] == refs
    ensures NoDuplicates(refs) ==> NoDuplicates(r)
  {
    if x in refs then refs else refs + [x]
  }

  /** `removeRental`: keep every id other than `x`, in order. */
  function RemoveRental(refs: seq<Id>, x: Id): (r: seq<Id>)
    ensures x !in r
    ensures forall y :: y != x ==> (y in r <==> y in refs)
    ensures NoDuplicates(refs) ==> NoDuplicates(r)
  {
    FilterNoDuplicatesIf(refs, y => y != x);
    Filter(refs, y => y != x)
  }

  lemma FilterNoDuplicatesIf(s: seq<Id>, p: Id -> bool)
    ensures NoDuplicates(s) ==> NoDuplicates(Filter(s, p))
  {
    if NoDuplicates(s) {
      FilterNoDuplicates(s, p);
    }
  }

  /** Adding an id that is already listed changes nothing, so adding twice is adding once. */
  lemma AddIdempotent(refs: seq<Id>, x: Id)
    ensures AddRental(AddRental(refs, x), x) == AddRental(refs, x)
  {
  }

  /** Adding an id that is already listed leaves the list as it is, duplicates included. */
  lemma AddPresent(refs: seq<Id>, x: Id)
    requires x in refs
    ensures AddRental(refs, x) == refs
  {
  }

  /** Removing keeps each other id as often as it was listed. */
  lemma RemoveKeepsOthers(refs: seq<Id>, x: Id, y: Id)
    requires y != x
    ensures multiset(RemoveRental(refs, x))[y] == multiset(refs)[y]
  {
    FilterCount(refs, z => z != x, y);
  }

  /** Removing distributes over concatenation: the survivors keep their order. */
  lemma RemoveKeepsOrder(a: seq<Id>, b: seq<Id>, x: Id)
    ensures RemoveRental(a + b, x) == RemoveRental(a, x) + RemoveRental(b, x)
  {
    FilterConcat(a, b, y => y != x);
  }

  /** Removing an id that is not listed changes nothing. */
  lemma RemoveAbsent(refs: seq<Id>, x: Id)
    requires x !in refs
    ensures RemoveRental(refs, x) == refs
  {
    FilterKeepsAll(refs, y => y != x);
  }

  /** Adding then removing an id leaves it absent and undoes the addition. */
  lemma AddThenRemove(refs: seq<Id>, x: Id)
    ensures x !in RemoveRental(AddRental(refs, x), x)
    ensures RemoveRental(AddRental(refs, x), x) == RemoveRental(refs, x)
  {
    if x !in refs {
      RemoveKeepsOrder(refs, [x], x);
      assert RemoveRental([x], x) == [];
    }
  }

  /** Removing twice is removing once. */
  lemma RemoveIdempotent(refs: seq<Id>, x: Id)
    ensures RemoveRental(RemoveRental(refs, x), x) == RemoveRental(refs, x)
  {
    RemoveAbsent(RemoveRental(refs, x), x);
  }
}
