/** The like bookkeeping shared by blog likes (`likes` rows, target = blogId)
    and comment likes (`commentLikes` rows, target = commentId): the query for
    a user's rows on a target, the two row operations a toggle performs, and
    the read-modify-write of the denormalised counter. The toggle trusts the
    caller's `isLiked` flag: it never checks what the rows say. */
module Engagement {
  import opened Common
  import opened Records
  import opened Store

  function IsPair(userId: int, targetId: int): Row<Like> -> bool
  {
    (r: Row<Like>) => r.val.userId == userId && r.val.targetId == targetId
  }

  /** `GET /likes?userId=<u>&blogId=<t>` (or `/commentLikes?userId=<u>&commentId=<t>`). */
  function Matching(rows: seq<Row<Like>>, userId: int, targetId: int): (r: seq<Row<Like>>)
    ensures forall x :: x in r <==> x in rows && x.val.userId == userId && x.val.targetId == targetId
  {
    Filter(rows, IsPair(userId, targetId))
  }

  /** The unlike step: delete the first row of the query's answer, if there is one. */
  function DropFirst(rows: seq<Row<Like>>, userId: int, targetId: int): seq<Row<Like>>
  {
    var m := Matching(rows, userId, targetId);
    if m == [] then rows else Remove(rows, m[0].id)
  }

  /** The like step: post one more row, whatever rows already exist. */
  function AddRow(rows: seq<Row<Like>>, userId: int, targetId: int, id: int, now: int): seq<Row<Like>>
  {
    rows + [Row(id, Like(userId, targetId, now))]
  }

  /** New counter after a like: `(likes || 0) + 1`. */
  function Liked(count: Option<int>): (n: int)
    ensures n > OrZero(count)
    ensures OrZero(count) >= 0 ==> Unliked(Some(n)) == OrZero(count)
  {
    OrZero(count) + 1
  }

  /** New counter after an unlike: `Math.max(0, (likes || 0) - 1)`. */
  function Unliked(count: Option<int>): (n: int)
    ensures n >= 0
    ensures OrZero(count) > 0 ==> n == OrZero(count) - 1
  {
    Max(0, OrZero(count) - 1)
  }

  function Pair(r: Row<Like>): (int, int)
  {
    (r.val.userId, r.val.targetId)
  }

  /** The (userId, targetId) pairs of a collection of like rows, with multiplicity. */
  function Pairs(rows: seq<Row<Like>>): multiset<(int, int)>
  {
    if rows == [] then multiset{} else multiset{Pair(rows[0])} + Pairs(rows[1..])
  }

  lemma {:induction false} PairsAppend(a: seq<Row<Like>>, b: seq<Row<Like>>)
    ensures Pairs(a + b) == Pairs(a) + Pairs(b)
  {
    if a == [] {
      assert a + b == b;
    } else {
      assert (a + b)[1..] == a[1..] + b;
      PairsAppend(a[1..], b);
    }
  }

  /** checkBlogLiked: true iff some row pairs the user with the target; an
      unreachable store answers false. */
  function CheckLiked(rows: seq<Row<Like>>, userId: int, targetId: int, reachable: bool): (r: bool)
    ensures r <==> reachable && exists i :: 0 <= i < |rows| && rows[i].val.userId == userId && rows[i].val.targetId == targetId
  {
    var m := Matching(rows, userId, targetId);
    assert m != [] ==> m[0] in rows;
    reachable && m != []
  }

  /** An unlike removes at most one row: the first row for the pair, in store
      order, and no other; it takes one copy of the pair out of the multiset. */
  lemma UnlikeRemovesFirst(rows: seq<Row<Like>>, userId: int, targetId: int)
    requires UniqueIds(rows)
    ensures Matching(rows, userId, targetId) == [] ==> DropFirst(rows, userId, targetId) == rows
    ensures Matching(rows, userId, targetId) != [] ==>
              exists i :: 0 <= i < |rows| && Pair(rows[i]) == (userId, targetId) &&
                (forall k :: 0 <= k < i ==> Pair(rows[k]) != (userId, targetId)) &&
                DropFirst(rows, userId, targetId) == rows[..i] + rows[i + 1..]
    ensures Matching(rows, userId, targetId) != [] ==>
              |DropFirst(rows, userId, targetId)| == |rows| - 1 &&
              Pairs(DropFirst(rows, userId, targetId)) == Pairs(rows) - multiset{(userId, targetId)}
  {
    var m := Matching(rows, userId, targetId);
    if m != [] {
      var i := FilterHead(rows, IsPair(userId, targetId));
      RemoveAt(rows, i);
      PairsWithout(rows, i);
    }
  }

  /** Taking out the row at `i` takes its pair out of the multiset once. */
  lemma {:induction false} PairsWithout(rows: seq<Row<Like>>, i: int)
    requires 0 <= i < |rows|
    ensures Pairs(rows) == Pairs(rows[..i] + rows[i + 1..]) + multiset{Pair(rows[i])}
  {
    var t := rows[1..];
    if i == 0 {
      assert rows[..0] + rows[1..] == t;
      assert Pairs(rows) == multiset{Pair(rows[0])} + Pairs(t);
    } else {
      PairsWithout(t, i - 1);
      var rest := t[..i - 1] + t[i..];
      Splice(rows, i);
      assert ([rows[0]] + rest)[1..] == rest;
      assert t[i - 1] == rows[i];
      var p0, pr := Pair(rows[0]), Pairs(rest);
      assert Pairs([rows[0]] + rest) == multiset{p0} + pr;
      assert Pairs(rows) == multiset{p0} + Pairs(t);
    }
  }

  /** Liking never checks for an existing row: it always adds one more row for
      the pair, so a repeated like duplicates it. */
  lemma LikeAlwaysAdds(rows: seq<Row<Like>>, userId: int, targetId: int, id: int, now: int)
    ensures Pairs(AddRow(rows, userId, targetId, id, now)) == Pairs(rows) + multiset{(userId, targetId)}
    ensures |Matching(AddRow(rows, userId, targetId, id, now), userId, targetId)| ==
            |Matching(rows, userId, targetId)| + 1
  {
    PairsAppend(rows, [Row(id, Like(userId, targetId, now))]);
    FilterAppend(rows, [Row(id, Like(userId, targetId, now))], IsPair(userId, targetId));
  }

  /** Like then unlike for the same pair gives back the pairs the rows held,
      and (for a counter that was not negative) the counter's value. */
  lemma LikeThenUnlike(rows: seq<Row<Like>>, userId: int, targetId: int, id: int, now: int, count: Option<int>)
    requires UniqueIds(rows) && !Has(rows, id)
    requires OrZero(count) >= 0
    ensures Pairs(DropFirst(AddRow(rows, userId, targetId, id, now), userId, targetId)) == Pairs(rows)
    ensures Unliked(Some(Liked(count))) == OrZero(count)
  {
    var added := AddRow(rows, userId, targetId, id, now);
    assert UniqueIds(added) by {
      forall i, j | 0 <= i < j < |added| ensures added[i].id != added[j].id {
        if j == |rows| { assert added[i] == rows[i]; assert !(rows[i].id == id); }
      }
    }
    LikeAlwaysAdds(rows, userId, targetId, id, now);
    UnlikeRemovesFirst(added, userId, targetId);
  }

  /** The counter after a run of toggles, `true` standing for a like and
      `false` for an unlike, starting from `count`. */
  function AfterToggles(count: int, likes: seq<bool>): int
    decreases |likes|
  {
    if likes == [] then count
    else AfterToggles(if likes[0] then Liked(Some(count)) else Unliked(Some(count)), likes[1..])
  }

  /** A counter that starts non-negative stays non-negative whatever the
      toggles; after an unlike it is non-negative whatever it was before. */
  lemma {:induction false} CounterNeverNegative(count: int, likes: seq<bool>)
    requires count >= 0 || (likes != [] && !likes[0])
    ensures AfterToggles(count, likes) >= 0
    decreases |likes|
  {
    if likes != [] {
      CounterNeverNegative(if likes[0] then Liked(Some(count)) else Unliked(Some(count)), likes[1..]);
    }
  }

  /** Because the flag is trusted, an unlike with no row for the pair removes
      nothing yet still takes one off a positive counter: the counter and the
      rows drift apart. */
  lemma UnlikeWithoutRow(rows: seq<Row<Like>>, userId: int, targetId: int, count: int)
    requires Matching(rows, userId, targetId) == [] && count > 0
    ensures DropFirst(rows, userId, targetId) == rows
    ensures Unliked(Some(count)) == count - 1
  {
  }
}
