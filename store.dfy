/** The JSON store behind the application, held in memory: one sequence of
    rows per collection, with the store's primitive operations written as
    functions on a collection (exact-match filtering is `Common.Filter`).
    A row pairs the id the store assigned with the record itself. */
module Store {
  import opened Common
  import opened Records

  datatype Row<T> = Row(id: int, val: T)

  ghost predicate UniqueIds<T>(s: seq<Row<T>>)
  {
    forall i, j :: 0 <= i < j < |s| ==> s[i].id != s[j].id
  }

  /** A collection as the store keeps it: ids are distinct and all below the
      next id the store will hand out. */
  ghost predicate TableOk<T>(s: seq<Row<T>>, next: int)
  {
    UniqueIds(s) && forall i :: 0 <= i < |s| ==> s[i].id < next
  }

  predicate Has<T>(s: seq<Row<T>>, id: int)
  {
    exists i | 0 <= i < |s| :: s[i].id == id
  }

  /** `GET /<collection>/<id>`: the row with that id, `None` for a 404. */
  function Find<T>(s: seq<Row<T>>, id: int): (r: Option<Row<T>>)
    ensures r.Some? <==> Has(s, id)
    ensures r.Some? ==> r.value in s && r.value.id == id
  {
    if s == [] then None
    else if s[0].id == id then Some(s[0])
    else
      var r := Find(s[1..], id);
      assert Has(s, id) ==> Has(s[1..], id) by {
        if Has(s, id) {
          var i :| 0 <= i < |s| && s[i].id == id;
          assert s[1..][i - 1].id == id;
        }
      }
      r
  }

  function IdIsNot<T>(id: int): Row<T> -> bool
  {
    (r: Row<T>) => r.id != id
  }

  /** Past a first row with another id, a search goes on in the rest. */
  lemma FindTail<T>(s: seq<Row<T>>, id: int)
    requires s != [] && s[0].id != id
    ensures Has(s, id) == Has(s[1..], id) && Find(s, id) == Find(s[1..], id)
  {
    if Has(s, id) {
      var k :| 0 <= k < |s| && s[k].id == id;
      assert s[1..][k - 1].id == id;
    }
  }

  /** `DELETE /<collection>/<id>`: every other row, in order. */
  function Remove<T(!new)>(s: seq<Row<T>>, id: int): (r: seq<Row<T>>)
    ensures forall x :: x in r <==> x in s && x.id != id
    ensures IsSubsequence(r, s)
    ensures !Has(s, id) ==> r == s
  {
    Filter(s, IdIsNot(id))
  }

  /** `PUT`/`PATCH /<collection>/<id>` once the new record is known: the row
      with that id now holds `v`; every row keeps its place and its id. */
  function Replace<T>(s: seq<Row<T>>, id: int, v: T): (r: seq<Row<T>>)
    ensures |r| == |s|
    ensures forall i :: 0 <= i < |s| ==> r[i] == (if s[i].id == id then Row(id, v) else s[i])
  {
    seq(|s|, i requires 0 <= i < |s| => if s[i].id == id then Row(id, v) else s[i])
  }

  lemma {:induction false} FilterKeepsUnique<T(!new)>(s: seq<Row<T>>, p: Row<T> -> bool)
    requires UniqueIds(s)
    ensures UniqueIds(Filter(s, p))
  {
    if s != [] {
      FilterKeepsUnique(s[1..], p);
      var rest := Filter(s[1..], p);
      if p(s[0]) {
        forall j | 0 <= j < |rest| ensures rest[j].id != s[0].id {
          assert rest[j] in s[1..];
          var k :| 0 <= k < |s[1..]| && s[1..][k] == rest[j];
          assert s[k + 1] == rest[j];
        }
      }
    }
  }

  lemma RemoveOk<T(!new)>(s: seq<Row<T>>, id: int, next: int)
    requires TableOk(s, next)
    ensures TableOk(Remove(s, id), next)
  {
    FilterKeepsUnique(s, IdIsNot(id));
    var r := Remove(s, id);
    forall i | 0 <= i < |r| ensures r[i].id < next {
      assert r[i] in s;
    }
  }

  lemma ReplaceOk<T>(s: seq<Row<T>>, id: int, v: T, next: int)
    requires TableOk(s, next)
    ensures TableOk(Replace(s, id, v), next)
  {
  }

  lemma AppendOk<T>(s: seq<Row<T>>, v: T, next: int)
    requires TableOk(s, next)
    ensures TableOk(s + [Row(next, v)], next + 1)
  {
  }

  /** With distinct ids, deleting the id of the row at `i` removes exactly that row. */
  lemma {:induction false} RemoveAt<T(!new)>(s: seq<Row<T>>, i: int)
    requires UniqueIds(s) && 0 <= i < |s|
    ensures Remove(s, s[i].id) == s[..i] + s[i + 1..]
  {
    var id := s[i].id;
    var t := s[1..];
    if i == 0 {
      forall k | 0 <= k < |t| ensures IdIsNot(id)(t[k]) {
        assert t[k] == s[k + 1];
      }
      assert Remove(s, id) == Filter(t, IdIsNot(id));
    } else {
      UniqueTail(s);
      assert t[i - 1] == s[i];
      RemoveAt(t, i - 1);
      assert Remove(s, id) == [s[0]] + Remove(t, id);
      Splice(s, i);
    }
  }

  lemma UniqueTail<T>(s: seq<Row<T>>)
    requires UniqueIds(s) && s != []
    ensures UniqueIds(s[1..])
  {
    var t := s[1..];
    forall j, k | 0 <= j < k < |t| ensures t[j].id != t[k].id {
      assert t[j] == s[j + 1] && t[k] == s[k + 1];
    }
  }

  lemma Splice<T>(s: seq<T>, i: int)
    requires 0 < i < |s|
    ensures [s[0]] + (s[1..][..i - 1] + s[1..][i..]) == s[..i] + s[i + 1..]
  {
    assert s[1..][..i - 1] == s[1..i];
    assert s[1..][i..] == s[i + 1..];
    assert s[..i] == [s[0]] + s[1..i];
  }

  /** Keeps the rows whose id is not the id of any row of `vs`. */
  function IdNotIn<T>(vs: seq<Row<T>>): Row<T> -> bool
  {
    (r: Row<T>) => forall k | 0 <= k < |vs| :: vs[k].id != r.id
  }

  function Not<T>(p: T -> bool): T -> bool
  {
    (x: T) => !p(x)
  }

  /** Deleting the rows of an empty list deletes nothing. */
  lemma NoneListed<T(!new)>(s: seq<Row<T>>, vs: seq<Row<T>>)
    requires vs == []
    ensures Filter(s, IdNotIn(vs)) == s
  {
    assert forall i :: 0 <= i < |s| ==> IdNotIn(vs)(s[i]);
  }

  /** Deleting one more row by id, after the rows `vs` were deleted by id. */
  lemma {:induction false} RemoveStep<T(!new)>(s: seq<Row<T>>, vs: seq<Row<T>>, v: Row<T>)
    ensures Remove(Filter(s, IdNotIn(vs)), v.id) == Filter(s, IdNotIn(vs + [v]))
  {
    if s != [] {
      RemoveStep(s[1..], vs, v);
      var x := s[0];
      var rest := Filter(s[1..], IdNotIn(vs));
      var all := vs + [v];
      assert IdNotIn(all)(x) == (IdNotIn(vs)(x) && x.id != v.id) by {
        assert all[|vs|] == v;
        assert forall k :: 0 <= k < |vs| ==> all[k] == vs[k];
      }
      if IdNotIn(vs)(x) {
        assert ([x] + rest)[1..] == rest;
      }
    }
  }

  /** Deleting by id every row that satisfies `p` leaves exactly the rows
      that do not, provided the ids are distinct. */
  lemma RemoveMatching<T(!new)>(s: seq<Row<T>>, p: Row<T> -> bool)
    requires UniqueIds(s)
    ensures Filter(s, IdNotIn(Filter(s, p))) == Filter(s, Not(p))
  {
    var f := Filter(s, p);
    forall i | 0 <= i < |s| ensures IdNotIn(f)(s[i]) == Not(p)(s[i]) {
      if p(s[i]) {
        assert s[i] in f;
      } else {
        forall k | 0 <= k < |f| ensures f[k].id != s[i].id {
          assert f[k] in s;
          var j :| 0 <= j < |s| && s[j] == f[k];
        }
      }
    }
    FilterCongruent(s, IdNotIn(f), Not(p));
  }


  /** The whole store. Every handler of the application is a sequence of
      requests against it; each request is one assignment to a field. */
  class Db {
    var blogs: seq<Row<Blog>>
    var comments: seq<Row<Comment>>
    var likes: seq<Row<Like>>
    var commentLikes: seq<Row<Like>>
    var reports: seq<Row<Report>>
    var users: seq<Row<User>>
    var categories: seq<Row<Category>>
    var destinations: seq<Row<Destination>>
    var nextId: int

    ghost predicate Valid()
      reads this
    {
      && TableOk(blogs, nextId)
      && TableOk(comments, nextId)
      && TableOk(likes, nextId)
      && TableOk(commentLikes, nextId)
      && TableOk(reports, nextId)
      && TableOk(users, nextId)
      && TableOk(categories, nextId)
      && TableOk(destinations, nextId)
    }

    constructor Empty()
      ensures Valid()
      ensures blogs == [] && comments == [] && likes == [] && commentLikes == []
      ensures reports == [] && users == [] && categories == [] && destinations == []
    {
      blogs, comments, likes, commentLikes := [], [], [], [];
      reports, users, categories, destinations := [], [], [], [];
      nextId := 1;
    }
  }
}
