/** Ordered listings of a table: what ORDER BY, a cursor and a limit make of its rows. */
module Listings {

  ghost predicate Ascending<T>(s: seq<T>, lt: (T, T) -> bool)
  {
    forall i, j :: 0 <= i < j < |s| ==> lt(s[i], s[j])
  }

  ghost predicate Strict<T(!new)>(lt: (T, T) -> bool)
  {
    && (forall x :: !lt(x, x))
    && (forall x, y, z {:trigger lt(x, y), lt(y, z)} :: lt(x, y) && lt(y, z) ==> lt(x, z))
  }

  /** How the store compares texts. */
  type Collation = (string, string) -> bool

  ghost predicate Total(less: Collation)
  {
    Strict(less) && forall a, b {:trigger less(a, b)} :: a == b || less(a, b) || less(b, a)
  }

  /** One ascending listing holds the given rows. */
  lemma {:induction false} OneListing<T(!new)>(a: seq<T>, b: seq<T>, lt: (T, T) -> bool)
    requires Strict(lt) && Ascending(a, lt) && Ascending(b, lt)
    requires forall x :: x in a <==> x in b
    ensures a == b
    decreases |a| + |b|, |b|
  {
    if a != [] {
      var x := a[|a| - 1];
      assert x in b;
      var y := b[|b| - 1];
      assert y in a;
      assert x == y;
      var a', b' := a[..|a| - 1], b[..|b| - 1];
      assert a == a' + [x] && b == b' + [x];
      forall t ensures t in a' <==> t in b' {
        if t in a' { assert t in b && t != x; }
        if t in b' { assert t in a && t != x; }
      }
      OneListing(a', b', lt);
    } else if b != [] {
      OneListing(b, a, lt);
    }
  }

  predicate Increasing(s: seq<int>)
  {
    forall i, j :: 0 <= i < j < |s| ==> s[i] < s[j]
  }

  lemma OneIncreasingListing(a: seq<int>, b: seq<int>)
    requires Increasing(a) && Increasing(b)
    requires forall t :: t in a <==> t in b
    ensures a == b
  {
    var lt := (x: int, y: int) => x < y;
    assert Strict(lt);
    assert Ascending(a, lt);
    assert Ascending(b, lt);
    assert forall x :: x in a <==> x in b;
    OneListing(a, b, lt);
  }

  // ---------------------------------------------------------------- selecting and sorting

  /** A strict order under which no two rows of the table stand level. */
  ghost predicate Orders<T(!new)>(lt: (T, T) -> bool, rows: seq<T>)
  {
    Strict(lt) && forall i, j :: 0 <= i < j < |rows| ==> lt(rows[i], rows[j]) || lt(rows[j], rows[i])
  }

  function Where<T>(rows: seq<T>, p: T -> bool): seq<T>
  {
    if rows == [] then []
    else Where(rows[..|rows| - 1], p) + if p(rows[|rows| - 1]) then [rows[|rows| - 1]] else []
  }

  function Insert<T>(x: T, s: seq<T>, lt: (T, T) -> bool): seq<T>
  {
    if s == [] || lt(x, s[0]) then [x] + s else [s[0]] + Insert(x, s[1..], lt)
  }

  function Sorted<T>(rows: seq<T>, lt: (T, T) -> bool): seq<T>
  {
    if rows == [] then [] else Insert(rows[|rows| - 1], Sorted(rows[..|rows| - 1], lt), lt)
  }

  /** `SELECT … WHERE p ORDER BY lt`. */
  function Listing<T>(rows: seq<T>, p: T -> bool, lt: (T, T) -> bool): seq<T>
  {
    Sorted(Where(rows, p), lt)
  }

  lemma {:induction false} WhereHolds<T(!new)>(rows: seq<T>, p: T -> bool, lt: (T, T) -> bool)
    requires Orders(lt, rows)
    ensures Orders(lt, Where(rows, p)) && forall x :: x in Where(rows, p) <==> x in rows && p(x)
    decreases |rows|
  {
    if rows != [] {
      var rest, last := rows[..|rows| - 1], rows[|rows| - 1];
      assert rows == rest + [last];
      WhereHolds(rest, p, lt);
      var w := Where(rest, p);
      forall i | 0 <= i < |w| ensures lt(w[i], last) || lt(last, w[i]) {
        assert w[i] in rest;
      }
    }
  }

  lemma {:induction false} InsertHolds<T(!new)>(x: T, s: seq<T>, lt: (T, T) -> bool)
    requires Strict(lt) && Ascending(s, lt) && forall y :: y in s ==> lt(x, y) || lt(y, x)
    ensures Ascending(Insert(x, s, lt), lt) && forall y :: y in Insert(x, s, lt) <==> y == x || y in s
    decreases |s|
  {
    if s == [] {
    } else if lt(x, s[0]) {
      var out := [x] + s;
      forall j | 0 < j < |out| ensures lt(x, out[j]) { assert lt(x, s[0]); }
    } else {
      assert s[0] in s;
      InsertHolds(x, s[1..], lt);
      var more := Insert(x, s[1..], lt);
      assert s == [s[0]] + s[1..];
      forall j | 0 <= j < |more| ensures lt(s[0], more[j]) {
        assert more[j] in more;
        if more[j] != x {
          var k :| 0 <= k < |s[1..]| && s[1..][k] == more[j];
          assert s[k + 1] == more[j];
        }
      }
    }
  }

  lemma {:induction false} SortedHolds<T(!new)>(rows: seq<T>, lt: (T, T) -> bool)
    requires Orders(lt, rows)
    ensures Ascending(Sorted(rows, lt), lt) && forall x :: x in Sorted(rows, lt) <==> x in rows
    decreases |rows|
  {
    if rows != [] {
      var rest, last := rows[..|rows| - 1], rows[|rows| - 1];
      assert rows == rest + [last];
      SortedHolds(rest, lt);
      forall y | y in Sorted(rest, lt) ensures lt(last, y) || lt(y, last) { assert y in rest; }
      InsertHolds(last, Sorted(rest, lt), lt);
    }
  }

  /** A listing is in order and holds exactly the rows that satisfy the condition; and nothing else does. */
  lemma ListingIsTheOnlyOne<T(!new)>(rows: seq<T>, p: T -> bool, lt: (T, T) -> bool, out: seq<T>)
    requires Orders(lt, rows)
    ensures out == Listing(rows, p, lt) <==> Ascending(out, lt) && forall x :: x in out <==> x in rows && p(x)
  {
    WhereHolds(rows, p, lt);
    SortedHolds(Where(rows, p), lt);
    if Ascending(out, lt) && forall x :: x in out <==> x in rows && p(x) { OneListing(out, Listing(rows, p, lt), lt); }
  }

  // ---------------------------------------------------------------- cursors

  /** A cursor cuts a listing in two: nothing is lost, repeated or out of order. */
  lemma CursorCuts<T(!new)>(rows: seq<T>, p: T -> bool, upTo: T -> bool, past: T -> bool, lt: (T, T) -> bool)
    requires Orders(lt, rows)
    requires forall x :: (p(x) <==> upTo(x) || past(x)) && !(upTo(x) && past(x))
    requires forall x, y :: past(x) && lt(x, y) ==> !upTo(y)
    ensures Listing(rows, p, lt) == Listing(rows, upTo, lt) + Listing(rows, past, lt)
  {
    var a, b := Listing(rows, upTo, lt), Listing(rows, past, lt);
    ListingIsTheOnlyOne(rows, upTo, lt, a);
    ListingIsTheOnlyOne(rows, past, lt, b);
    assert Ascending(a + b, lt) by {
      forall i, j | 0 <= i < |a| && 0 <= j < |b| ensures lt(a[i], b[j]) {
        assert a[i] in a && b[j] in b;
        TwoRows(rows, a[i], b[j], lt);
      }
    }
    ListingIsTheOnlyOne(rows, p, lt, a + b);
  }

  lemma TwoRows<T(!new)>(rows: seq<T>, x: T, y: T, lt: (T, T) -> bool)
    requires Orders(lt, rows) && x in rows && y in rows && x != y
    ensures lt(x, y) || lt(y, x)
  {
    var i :| 0 <= i < |rows| && rows[i] == x;
    var j :| 0 <= j < |rows| && rows[j] == y;
    assert if i < j then lt(rows[i], rows[j]) || lt(rows[j], rows[i]) else lt(rows[j], rows[i]) || lt(rows[i], rows[j]);
  }

  /** What stands after the last row of a page is the rest of the listing. */
  lemma AfterIsTheRest<T(!new)>(rows: seq<T>, p: T -> bool, past: T -> bool, lt: (T, T) -> bool, k: nat)
    requires Orders(lt, rows) && 0 < k <= |Listing(rows, p, lt)|
    requires forall x :: x in rows ==> (past(x) <==> p(x) && lt(Listing(rows, p, lt)[k - 1], x))
    ensures Listing(rows, past, lt) == Listing(rows, p, lt)[k..]
  {
    var all := Listing(rows, p, lt);
    var cursor := all[k - 1];
    ListingIsTheOnlyOne(rows, p, lt, all);
    assert forall i :: 0 <= i < k - 1 ==> lt(all[i], cursor);
    forall x ensures x in all[k..] <==> x in all && lt(cursor, x) {
      if x in all && lt(cursor, x) {
        var i :| 0 <= i < |all| && all[i] == x;
        assert !(i < k - 1) && i != k - 1;
        assert all[k..][i - k] == x;
      }
      if x in all[k..] {
        var i :| 0 <= i < |all[k..]| && all[k..][i] == x;
        assert all[i + k] == x;
      }
    }
    ListingIsTheOnlyOne(rows, past, lt, all[k..]);
  }

  // ---------------------------------------------------------------- pages

  function Page<T>(s: seq<T>, limit: nat): seq<T>
  {
    if |s| <= limit then s else s[..limit]
  }

  /** `after(k)` is what a query finds with the `k`th of `n` rows as its cursor. */
  ghost predicate Answers<T>(after: nat -> seq<T>, n: nat)
  {
    forall k: nat :: k <= n ==> |after(k)| == n - k
  }

  /** Pages asked for one after another, each after the last row of the one before, until one comes back empty. */
  ghost function Walk<T>(after: nat -> seq<T>, n: nat, limit: nat, k: nat): seq<seq<T>>
    requires Answers(after, n) && limit > 0 && k <= n
    decreases n - k
  {
    var page := Page(after(k), limit);
    if page == [] then [] else [page] + Walk(after, n, limit, k + |page|)
  }

  ghost function Flat<T>(pages: seq<seq<T>>): seq<T>
  {
    if pages == [] then [] else pages[0] + Flat(pages[1..])
  }

  lemma FlatFirst<T>(page: seq<T>, more: seq<seq<T>>)
    ensures Flat([page] + more) == page + Flat(more)
  {
    assert ([page] + more)[1..] == more;
  }

  lemma FirstPage<T>(all: seq<T>, k: nat, limit: nat)
    requires k <= |all|
    ensures var page := Page(all[k..], limit); k + |page| <= |all| && all[k..] == page + all[k + |page|..]
  {}

  lemma WalkStep<T>(after: nat -> seq<T>, n: nat, limit: nat, k: nat)
    requires Answers(after, n) && limit > 0 && k < n
    ensures var page := Page(after(k), limit);
            0 < |page| <= limit && k + |page| <= n
              && Walk(after, n, limit, k) == [page] + Walk(after, n, limit, k + |page|)
  {}

  lemma PageFits<T>(after: nat -> seq<T>, n: nat, limit: nat, k: nat)
    requires Answers(after, n) && limit > 0 && k < n
    ensures 0 < |Page(after(k), limit)| <= n - k
  {}

  lemma WalkEnds<T>(after: nat -> seq<T>, n: nat, limit: nat)
    requires Answers(after, n) && limit > 0
    ensures after(n) == [] && Walk(after, n, limit, n) == []
  {}

  lemma WalkOne<T>(after: nat -> seq<T>, all: seq<T>, limit: nat, k: nat, m: nat)
    requires Answers(after, |all|) && limit > 0 && k < |all| && m == |Page(after(k), limit)| && k + m <= |all|
    requires after(k) == all[k..] && Flat(Walk(after, |all|, limit, k + m)) == all[k + m..]
    ensures Flat(Walk(after, |all|, limit, k)) == all[k..]
  {
    WalkStep(after, |all|, limit, k);
    FlatFirst(Page(after(k), limit), Walk(after, |all|, limit, k + m));
    FirstPage(all, k, limit);
  }

  /** The pages of a walk end, and put together are every row once, in order. */
  lemma {:induction false} WalkFrom<T>(after: nat -> seq<T>, all: seq<T>, limit: nat, k: nat)
    requires Answers(after, |all|) && limit > 0 && k <= |all|
    requires forall j: nat {:trigger after(j)} :: j <= |all| ==> after(j) == all[j..]
    ensures Flat(Walk(after, |all|, limit, k)) == all[k..]
    decreases |all| - k
  {
    if k == |all| {
      WalkEnds(after, |all|, limit);
    } else {
      var m := |Page(after(k), limit)|;
      PageFits(after, |all|, limit, k);
      WalkFrom(after, all, limit, k + m);
      WalkOne(after, all, limit, k, m);
    }
  }

  /** ... and no page is empty or past the limit. */
  lemma {:induction false} WalkFits<T>(after: nat -> seq<T>, n: nat, limit: nat, k: nat)
    requires Answers(after, n) && limit > 0 && k <= n
    ensures forall page :: page in Walk(after, n, limit, k) ==> 0 < |page| <= limit
    decreases n - k
  {
    if k == n {
      WalkEnds(after, n, limit);
    } else {
      WalkStep(after, n, limit, k);
      WalkFits(after, n, limit, k + |Page(after(k), limit)|);
    }
  }
}
