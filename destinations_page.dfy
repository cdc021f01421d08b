/** The public Destinations page: the search over names and countries. */
module DestinationsPage {
  import opened Common
  import opened Records
  import opened Store

  /** The search text occurs in the name or the country, ignoring ASCII
      case. */
  function Matches(searchTerm: string): Row<Destination> -> bool
  {
    (d: Row<Destination>) => IncludesIgnoringCase(d.val.name, searchTerm) || IncludesIgnoringCase(d.val.country, searchTerm)
  }

  /** filteredDestinations. */
  function FilteredDestinations(destinations: seq<Row<Destination>>, searchTerm: string): seq<Row<Destination>>
  {
    Filter(destinations, Matches(searchTerm))
  }

  /** A destination is listed exactly when its name or country matches, in
      the fetched order, and an empty search lists every destination. */
  lemma FilteredDestinationsExactly(destinations: seq<Row<Destination>>, searchTerm: string)
    ensures forall x :: x in FilteredDestinations(destinations, searchTerm) <==>
              x in destinations && (IncludesIgnoringCase(x.val.name, searchTerm) || IncludesIgnoringCase(x.val.country, searchTerm))
    ensures IsSubsequence(FilteredDestinations(destinations, searchTerm), destinations)
    ensures FilteredDestinations(destinations, "") == destinations
  {
    forall i | 0 <= i < |destinations| ensures Matches("")(destinations[i]) {
      IncludesEmpty(destinations[i].val.name);
    }
  }

  /** Description, climate, attractions and image are never searched: two
      destinations with the same name and country are both listed or both
      left out. */
  lemma OnlyNameAndCountry(a: Row<Destination>, b: Row<Destination>, searchTerm: string)
    requires a.val.name == b.val.name && a.val.country == b.val.country
    ensures FilteredDestinations([a], searchTerm) == [a] <==> FilteredDestinations([b], searchTerm) == [b]
    ensures FilteredDestinations([a], searchTerm) == [] <==> FilteredDestinations([b], searchTerm) == []
  {
  }

  /** Searching the result again with the same text changes nothing. */
  lemma SearchIdempotent(destinations: seq<Row<Destination>>, searchTerm: string)
    ensures FilteredDestinations(FilteredDestinations(destinations, searchTerm), searchTerm) ==
            FilteredDestinations(destinations, searchTerm)
  {
    FilterIdempotent(destinations, Matches(searchTerm));
  }
}
