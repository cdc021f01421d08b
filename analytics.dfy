/** The Analytics page: totals over the daily records, the chart series, and
    the top-5 rankings of blogs and destinations by the number of days that
    list them. */
module Analytics {
  import opened Common
  import opened Records
  import opened Store
  import opened Sorting

  /** One record of the `analytics` collection. */
  datatype Day = Day(
    date: string,
    pageViews: int,
    uniqueVisitors: int,
    newUsers: int,
    topBlogs: seq<int>,
    topDestinations: seq<int>)

  datatype Metric = PageViews | UniqueVisitors | NewUsers

  datatype Board = TopBlogs | TopDestinations

  /** A row of a ranking table: the id as the object key it was counted
      under, the title (or name) shown, and the count. */
  datatype TopRow = TopRow(id: string, title: string, views: nat)

  function Value(d: Day, m: Metric): int
  {
    match m
    case PageViews => d.pageViews
    case UniqueVisitors => d.uniqueVisitors
    case NewUsers => d.newUsers
  }

  function Ids(d: Day, b: Board): seq<int>
  {
    match b
    case TopBlogs => d.topBlogs
    case TopDestinations => d.topDestinations
  }

  // ---------------------------------------------------------------------------
  // Totals and series
  // ---------------------------------------------------------------------------

  /** `reduce((sum, day) => sum + day.<metric>, acc)`: a left fold. */
  function Reduce(days: seq<Day>, m: Metric, acc: int): int
  {
    if days == [] then acc else Reduce(days[1..], m, acc + Value(days[0], m))
  }

  /** The sum of a metric, adding the last day to the sum of the earlier ones. */
  function Sum(days: seq<Day>, m: Metric): int
  {
    if days == [] then 0 else Sum(days[..|days| - 1], m) + Value(days[|days| - 1], m)
  }

  /** totalPageViews, totalUniqueVisitors, totalNewUsers: the reduce from 0
      is the sum of the daily values. */
  function Total(days: seq<Day>, m: Metric): (t: int)
    ensures t == Sum(days, m)
  {
    ReduceIsSum(days, m, 0);
    Reduce(days, m, 0)
  }

  lemma {:induction false} SumPrepend(d: Day, days: seq<Day>, m: Metric)
    ensures Sum([d] + days, m) == Value(d, m) + Sum(days, m)
    decreases |days|
  {
    if days != [] {
      var all := [d] + days;
      assert all[..|all| - 1] == [d] + days[..|days| - 1];
      SumPrepend(d, days[..|days| - 1], m);
    }
  }

  lemma {:induction false} ReduceIsSum(days: seq<Day>, m: Metric, acc: int)
    ensures Reduce(days, m, acc) == acc + Sum(days, m)
    decreases |days|
  {
    if days != [] {
      ReduceIsSum(days[1..], m, acc + Value(days[0], m));
      SumPrepend(days[0], days[1..], m);
      assert [days[0]] + days[1..] == days;
    }
  }

  /** The totals are the sums of the daily values: 0 for no days, and one
      more day adds exactly its own value. */
  lemma TotalIsSum(days: seq<Day>, d: Day, m: Metric)
    ensures Total([], m) == 0
    ensures Total(days, m) == Sum(days, m)
    ensures Total(days + [d], m) == Total(days, m) + Value(d, m)
  {
    ReduceIsSum(days, m, 0);
    ReduceIsSum(days + [d], m, 0);
    assert (days + [d])[..|days|] == days;
  }

  /** `analyticsData.map(day => day.<metric>)`: one value per day, in the
      order of the date labels. */
  function Series(days: seq<Day>, m: Metric): (r: seq<int>)
    ensures |r| == |Labels(days)|
    ensures forall i :: 0 <= i < |r| ==> r[i] == Value(days[i], m) && Labels(days)[i] == days[i].date
  {
    seq(|days|, i requires 0 <= i < |days| => Value(days[i], m))
  }

  function Labels(days: seq<Day>): (r: seq<string>)
    ensures |r| == |days|
  {
    seq(|days|, i requires 0 <= i < |days| => days[i].date)
  }

  // ---------------------------------------------------------------------------
  // Rankings
  // ---------------------------------------------------------------------------

  /** Every id the days list on a board, day after day. */
  function AllIds(days: seq<Day>, b: Board): seq<int>
  {
    if days == [] then [] else AllIds(days[..|days| - 1], b) + Ids(days[|days| - 1], b)
  }

  ghost predicate Distinct<T>(s: seq<T>)
  {
    forall i, j :: 0 <= i < j < |s| ==> s[i] != s[j]
  }

  /** The counting object after the ids `s`: `counts` holds for every id
      listed in `s` the number of times it is listed, and `keys` holds those
      ids once each, in the order they were first listed. */
  ghost predicate Tallies(counts: map<int, nat>, keys: seq<int>, s: seq<int>)
  {
    && (forall id :: (id in counts <==> id in multiset(s)) && (id in counts ==> counts[id] == multiset(s)[id]))
    && (forall id :: id in counts <==> id in keys)
    && Distinct(keys)
  }

  /** One more listing of `id` adds one to its count, and a new id becomes
      the last key. */
  lemma TallyStep(counts: map<int, nat>, keys: seq<int>, s: seq<int>, id: int)
    requires Tallies(counts, keys, s)
    ensures Tallies(counts[id := (if id in counts then counts[id] else 0) + 1],
                    if id in counts then keys else keys + [id], s + [id])
  {
    assert multiset(s + [id]) == multiset(s) + multiset{id};
  }

  lemma AllIdsStep(days: seq<Day>, b: Board, d: int)
    requires 0 <= d < |days|
    ensures AllIds(days[..d + 1], b) == AllIds(days[..d], b) + Ids(days[d], b)
  {
    assert days[..d + 1][..d] == days[..d];
  }

  /** The inner `forEach` over one day's ids. */
  method CountDay(counts0: map<int, nat>, keys0: seq<int>, ids: seq<int>, ghost before: seq<int>)
    returns (counts: map<int, nat>, keys: seq<int>)
    requires Tallies(counts0, keys0, before)
    ensures Tallies(counts, keys, before + ids)
  {
    counts, keys := counts0, keys0;
    for j := 0 to |ids|
      invariant Tallies(counts, keys, before + ids[..j])
    {
      assert before + ids[..j + 1] == (before + ids[..j]) + [ids[j]];
      TallyStep(counts, keys, before + ids[..j], ids[j]);
      if ids[j] in counts {
        counts := counts[ids[j] := counts[ids[j]] + 1];
      } else {
        counts := counts[ids[j] := 1];
        keys := keys + [ids[j]];
      }
    }
    assert ids[..|ids|] == ids;
  }

  /** The nested `forEach`: `counts[id] = (counts[id] || 0) + 1` for every id
      of every day. `keys` is the order in which the object got its keys. */
  method CountIds(days: seq<Day>, b: Board) returns (counts: map<int, nat>, keys: seq<int>)
    ensures forall id :: id in counts <==> id in AllIds(days, b)
    ensures forall id :: id in counts ==> counts[id] == multiset(AllIds(days, b))[id]
    ensures forall id :: id in keys <==> id in counts
    ensures Distinct(keys)
  {
    counts, keys := map[], [];
    for d := 0 to |days|
      invariant Tallies(counts, keys, AllIds(days[..d], b))
    {
      AllIdsStep(days, b, d);
      counts, keys := CountDay(counts, keys, Ids(days[d], b), AllIds(days[..d], b));
    }
    assert days[..|days|] == days;
  }

  /** `es` lists every key of `counts` exactly once, each with its count. */
  ghost predicate Enumerates(es: seq<(int, nat)>, counts: map<int, nat>)
  {
    && (forall i :: 0 <= i < |es| ==> es[i].0 in counts && es[i].1 == counts[es[i].0])
    && (forall id :: id in counts ==> exists i :: 0 <= i < |es| && es[i].0 == id)
    && (forall i, j :: 0 <= i < j < |es| ==> es[i].0 != es[j].0)
  }

  /** An element occurring twice in a sequence sits at two positions. */
  lemma {:induction false} Twice<T>(s: seq<T>, x: T)
    requires multiset(s)[x] >= 2
    ensures exists a, b :: 0 <= a < b < |s| && s[a] == x && s[b] == x
  {
    var a :| 0 <= a < |s| && s[a] == x;
    var rest := s[..a] + s[a + 1..];
    assert s == s[..a] + [s[a]] + s[a + 1..];
    assert multiset(rest)[x] >= 1;
    var k :| 0 <= k < |rest| && rest[k] == x;
    if k < a {
      assert s[k] == x;
    } else {
      assert s[k + 1] == x;
    }
  }

  /** Reordering a sequence without repetitions leaves it without any. */
  lemma DistinctPermuted<T>(s: seq<T>, t: seq<T>)
    requires Distinct(s) && multiset(t) == multiset(s)
    ensures Distinct(t)
  {
    forall i, j | 0 <= i < j < |t| ensures t[i] != t[j] {
      if t[i] == t[j] {
        assert t == t[..i] + [t[i]] + t[i + 1..j] + [t[j]] + t[j + 1..];
        assert multiset(s)[t[i]] >= 2;
        Twice(s, t[i]);
      }
    }
  }

  function Self(id: int): int
  {
    id
  }

  /** The keys `keys` of `counts`, in ascending order. */
  lemma AscendingKeys(counts: map<int, nat>, keys: seq<int>, ks: seq<int>)
    requires forall id :: id in keys <==> id in counts
    requires Distinct(keys)
    requires ks == SortBy(keys, Self, false)
    ensures forall i :: 0 <= i < |ks| ==> ks[i] in counts
    ensures forall id :: id in counts ==> id in ks
    ensures forall i, j :: 0 <= i < j < |ks| ==> ks[i] < ks[j]
  {
    SortByMembers(keys, Self, false);
    DistinctPermuted(keys, ks);
    forall i | 0 <= i < |ks| ensures ks[i] in counts {
      assert ks[i] in ks;
    }
    forall i, j | 0 <= i < j < |ks| ensures ks[i] < ks[j] {
      assert InOrder(Self(ks[i]), Self(ks[j]), false);
    }
  }

  function Tabulate(counts: map<int, nat>, ks: seq<int>): (es: seq<(int, nat)>)
    requires forall i :: 0 <= i < |ks| ==> ks[i] in counts
    ensures |es| == |ks|
    ensures forall i :: 0 <= i < |es| ==> es[i] == (ks[i], counts[ks[i]])
  {
    seq(|ks|, i requires 0 <= i < |ks| => (ks[i], counts[ks[i]]))
  }

  /** `Object.entries(counts)`. The keys are integer ids, which JavaScript
      lists in ascending numeric order whatever order they were added in. */
  function Entries(counts: map<int, nat>, keys: seq<int>): (es: seq<(int, nat)>)
    requires forall id :: id in keys <==> id in counts
    requires Distinct(keys)
    ensures Enumerates(es, counts)
    ensures forall i, j :: 0 <= i < j < |es| ==> es[i].0 < es[j].0
  {
    var ks := SortBy(keys, Self, false);
    AscendingKeys(counts, keys, ks);
    var es := Tabulate(counts, ks);
    assert forall id :: id in counts ==> exists i :: 0 <= i < |es| && es[i].0 == id by {
      forall id | id in counts ensures exists i :: 0 <= i < |es| && es[i].0 == id {
        var i :| 0 <= i < |ks| && ks[i] == id;
        assert es[i].0 == id;
      }
    }
    es
  }

  function EntryCount(e: (int, nat)): int
  {
    e.1
  }

  function Take<T>(s: seq<T>, n: nat): (r: seq<T>)
    ensures |r| == if |s| < n then |s| else n
    ensures r == s[..|r|]
  {
    if |s| < n then s else s[..n]
  }

  /** Reordering an enumeration of the counts is still one. */
  lemma PermutedEnumerates(es: seq<(int, nat)>, sorted: seq<(int, nat)>, counts: map<int, nat>)
    requires Enumerates(es, counts)
    requires multiset(sorted) == multiset(es)
    ensures Enumerates(sorted, counts)
  {
    forall i | 0 <= i < |sorted| ensures sorted[i].0 in counts && sorted[i].1 == counts[sorted[i].0] {
      assert sorted[i] in multiset(es);
    }
    forall id | id in counts ensures exists i :: 0 <= i < |sorted| && sorted[i].0 == id {
      var k :| 0 <= k < |es| && es[k].0 == id;
      assert es[k] in multiset(sorted);
    }
    assert Distinct(es) by {
      forall i, j | 0 <= i < j < |es| ensures es[i] != es[j] {
        assert es[i].0 != es[j].0;
      }
    }
    DistinctPermuted(es, sorted);
    forall i, j | 0 <= i < j < |sorted| ensures sorted[i].0 != sorted[j].0 {
      assert sorted[i] != sorted[j];
    }
  }

  /** An id left out of a prefix of a sorted enumeration is counted no more
      than any id kept. */
  lemma Dominates(sorted: seq<(int, nat)>, counts: map<int, nat>, n: nat, id: int, i: int)
    requires Enumerates(sorted, counts) && SortedBy(sorted, EntryCount, true)
    requires n <= |sorted| && 0 <= i < n
    requires id in counts && forall k :: 0 <= k < n ==> sorted[k].0 != id
    ensures sorted[i].1 >= counts[id]
  {
    var j :| 0 <= j < |sorted| && sorted[j].0 == id;
    assert InOrder(EntryCount(sorted[i]), EntryCount(sorted[j]), true);
  }

  /** `.sort((a, b) => b[1] - a[1]).slice(0, 5)`: the five most listed ids,
      most listed first. Every id kept is listed at least as often as every
      id left out. */
  function Rank(es: seq<(int, nat)>, ghost counts: map<int, nat>): (top: seq<(int, nat)>)
    requires Enumerates(es, counts)
    ensures |top| == if |es| < 5 then |es| else 5
    ensures forall i, j :: 0 <= i < j < |top| ==> top[i].1 >= top[j].1
    ensures forall i :: 0 <= i < |top| ==> top[i].0 in counts && top[i].1 == counts[top[i].0]
    ensures forall i, j :: 0 <= i < j < |top| ==> top[i].0 != top[j].0
    ensures forall id, i :: id in counts && (forall k :: 0 <= k < |top| ==> top[k].0 != id) && 0 <= i < |top| ==>
              top[i].1 >= counts[id]
    ensures |top| < 5 ==> forall id :: id in counts ==> exists k :: 0 <= k < |top| && top[k].0 == id
  {
    var sorted := SortBy(es, EntryCount, true);
    RankFacts(es, counts, sorted, Take(sorted, 5));
    Take(sorted, 5)
  }

  lemma RankFacts(es: seq<(int, nat)>, counts: map<int, nat>, sorted: seq<(int, nat)>, top: seq<(int, nat)>)
    requires Enumerates(es, counts)
    requires sorted == SortBy(es, EntryCount, true) && top == Take(sorted, 5)
    ensures forall i, j :: 0 <= i < j < |top| ==> top[i].1 >= top[j].1
    ensures forall i :: 0 <= i < |top| ==> top[i].0 in counts && top[i].1 == counts[top[i].0]
    ensures forall i, j :: 0 <= i < j < |top| ==> top[i].0 != top[j].0
    ensures forall id, i :: id in counts && (forall k :: 0 <= k < |top| ==> top[k].0 != id) && 0 <= i < |top| ==>
              top[i].1 >= counts[id]
    ensures |top| < 5 ==> forall id :: id in counts ==> exists k :: 0 <= k < |top| && top[k].0 == id
  {
    PermutedEnumerates(es, sorted, counts);
    PrefixFacts(sorted, counts, top);
    if |top| < 5 {
      assert top == sorted;
    }
  }

  /** The facts about a prefix of a sorted enumeration. */
  lemma PrefixFacts(sorted: seq<(int, nat)>, counts: map<int, nat>, top: seq<(int, nat)>)
    requires Enumerates(sorted, counts) && SortedBy(sorted, EntryCount, true)
    requires |top| <= |sorted| && top == sorted[..|top|]
    ensures forall i, j :: 0 <= i < j < |top| ==> top[i].1 >= top[j].1
    ensures forall i :: 0 <= i < |top| ==> top[i].0 in counts && top[i].1 == counts[top[i].0]
    ensures forall i, j :: 0 <= i < j < |top| ==> top[i].0 != top[j].0
    ensures forall id, i :: id in counts && (forall k :: 0 <= k < |top| ==> top[k].0 != id) && 0 <= i < |top| ==>
              top[i].1 >= counts[id]
  {
    forall i, j | 0 <= i < j < |top| ensures top[i].1 >= top[j].1 {
      assert InOrder(EntryCount(sorted[i]), EntryCount(sorted[j]), true);
    }
    forall id, i | id in counts && (forall k :: 0 <= k < |top| ==> top[k].0 != id) && 0 <= i < |top|
      ensures top[i].1 >= counts[id]
    {
      Dominates(sorted, counts, |top|, id, i);
    }
  }

  /** The ranking the two tables show: the ids a board lists most often over
      all days, at most five, most listed first, each with its number of
      listings, and none left out that is listed more often than one kept. */
  method TopListed(days: seq<Day>, b: Board) returns (top: seq<(int, nat)>)
    ensures |top| <= 5
    ensures forall i, j :: 0 <= i < j < |top| ==> top[i].1 >= top[j].1
    ensures forall i :: 0 <= i < |top| ==>
              top[i].0 in AllIds(days, b) && top[i].1 == multiset(AllIds(days, b))[top[i].0]
    ensures forall i, j :: 0 <= i < j < |top| ==> top[i].0 != top[j].0
    ensures forall id, i :: id in AllIds(days, b) && (forall k :: 0 <= k < |top| ==> top[k].0 != id) && 0 <= i < |top| ==>
              top[i].1 >= multiset(AllIds(days, b))[id]
    ensures |top| < 5 ==> forall id :: id in AllIds(days, b) ==> exists k :: 0 <= k < |top| && top[k].0 == id
  {
    var counts, keys := CountIds(days, b);
    var es := Entries(counts, keys);
    top := Rank(es, counts);
    RankedIds(top, counts, AllIds(days, b));
  }

  /** Read over a board's ids, the ranking of their counts keeps its
      meaning: each count is the id's number of listings. */
  lemma RankedIds(top: seq<(int, nat)>, counts: map<int, nat>, all: seq<int>)
    requires forall id :: id in counts <==> id in all
    requires forall id :: id in counts ==> counts[id] == multiset(all)[id]
    requires forall i :: 0 <= i < |top| ==> top[i].0 in counts && top[i].1 == counts[top[i].0]
    requires forall id, i :: id in counts && (forall k :: 0 <= k < |top| ==> top[k].0 != id) && 0 <= i < |top| ==>
               top[i].1 >= counts[id]
    requires |top| < 5 ==> forall id :: id in counts ==> exists k :: 0 <= k < |top| && top[k].0 == id
    ensures forall i :: 0 <= i < |top| ==> top[i].0 in all && top[i].1 == multiset(all)[top[i].0]
    ensures forall id, i :: id in all && (forall k :: 0 <= k < |top| ==> top[k].0 != id) && 0 <= i < |top| ==>
              top[i].1 >= multiset(all)[id]
    ensures |top| < 5 ==> forall id :: id in all ==> exists k :: 0 <= k < |top| && top[k].0 == id
  {
    if |top| < 5 {
      forall id | id in all ensures exists k :: 0 <= k < |top| && top[k].0 == id {
        assert id in counts;
      }
    }
    forall i | 0 <= i < |top| ensures top[i].0 in all && top[i].1 == multiset(all)[top[i].0] {
      var id := top[i].0;
      assert id in counts && top[i].1 == counts[id];
    }
  }

  // ---------------------------------------------------------------------------
  // Titles
  // ---------------------------------------------------------------------------

  /** `blogs.find(b => b.id === Number.parseInt(key))?.title ?? "Blog " + key`. */
  function BlogTitle(blogs: seq<Row<Blog>>, key: string): string
  {
    var n := ParseInt(key);
    if n.Some? && Find(blogs, n.value).Some? then Find(blogs, n.value).value.val.title else "Blog " + key
  }

  function DestinationName(destinations: seq<Row<Destination>>, key: string): string
  {
    var n := ParseInt(key);
    if n.Some? && Find(destinations, n.value).Some? then Find(destinations, n.value).value.val.name
    else "Destination " + key
  }

  /** The object key an id was counted under reads back as that id, so a row
      shows the title of the blog with that id, and "Blog <id>" when there is
      none. */
  lemma BlogTitleOfId(blogs: seq<Row<Blog>>, id: int)
    ensures Has(blogs, id) ==> BlogTitle(blogs, Decimal(id)) == Find(blogs, id).value.val.title
    ensures !Has(blogs, id) ==> BlogTitle(blogs, Decimal(id)) == "Blog " + Decimal(id)
  {
    ParseDecimal(id);
  }

  lemma DestinationNameOfId(destinations: seq<Row<Destination>>, id: int)
    ensures Has(destinations, id) ==> DestinationName(destinations, Decimal(id)) == Find(destinations, id).value.val.name
    ensures !Has(destinations, id) ==> DestinationName(destinations, Decimal(id)) == "Destination " + Decimal(id)
  {
    ParseDecimal(id);
  }

  /** topBlogsData: the ranked ids as table rows titled by `BlogTitle`. */
  function BlogRows(blogs: seq<Row<Blog>>, top: seq<(int, nat)>): (rows: seq<TopRow>)
    ensures |rows| == |top|
    ensures forall i :: 0 <= i < |top| ==>
              ParseInt(rows[i].id) == Some(top[i].0) && rows[i].views == top[i].1 &&
              rows[i].title == (if Has(blogs, top[i].0) then Find(blogs, top[i].0).value.val.title
                                else "Blog " + rows[i].id)
  {
    var rows := seq(|top|, i requires 0 <= i < |top| =>
                  TopRow(Decimal(top[i].0), BlogTitle(blogs, Decimal(top[i].0)), top[i].1));
    forall i | 0 <= i < |top|
      ensures ParseInt(rows[i].id) == Some(top[i].0) &&
              rows[i].title == (if Has(blogs, top[i].0) then Find(blogs, top[i].0).value.val.title
                                else "Blog " + rows[i].id)
    {
      ParseDecimal(top[i].0);
      BlogTitleOfId(blogs, top[i].0);
    }
    rows
  }

  /** topDestinationsData: the ranked ids as rows named by `DestinationName`. */
  function DestinationRows(destinations: seq<Row<Destination>>, top: seq<(int, nat)>): (rows: seq<TopRow>)
    ensures |rows| == |top|
    ensures forall i :: 0 <= i < |top| ==>
              ParseInt(rows[i].id) == Some(top[i].0) && rows[i].views == top[i].1 &&
              rows[i].title == (if Has(destinations, top[i].0) then Find(destinations, top[i].0).value.val.name
                                else "Destination " + rows[i].id)
  {
    var rows := seq(|top|, i requires 0 <= i < |top| =>
                  TopRow(Decimal(top[i].0), DestinationName(destinations, Decimal(top[i].0)), top[i].1));
    forall i | 0 <= i < |top|
      ensures ParseInt(rows[i].id) == Some(top[i].0) &&
              rows[i].title == (if Has(destinations, top[i].0) then Find(destinations, top[i].0).value.val.name
                                else "Destination " + rows[i].id)
    {
      ParseDecimal(top[i].0);
      DestinationNameOfId(destinations, top[i].0);
    }
    rows
  }
}
