/** The chat activity summary: one row a room, totals over all of them, and one page. */
module Activity {
  import opened Common
  import opened Listings
  import opened Names
  import opened ReadMarkers

  datatype Row = Row(room: string, threads: nat, messages: nat, lastPostAt: Option<Instant>)

  datatype Summary = Summary(rows: seq<Row>, total: nat, threads: nat, messages: nat, lastPostAt: Option<Instant>)

  /** What a query asks for: one room or, if empty, all, and a page of them. */
  datatype Query = Query(room: string, limit: Option<int>, offset: int)

  // ---------------------------------------------------------------- the query

  function RoomsOf(messages: seq<Message>): seq<string>
  {
    seq(|messages|, i requires 0 <= i < |messages| => messages[i].structure)
  }

  function CountOf(rooms: seq<string>, room: string): nat
  {
    if rooms == [] then 0 else CountOf(rooms[..|rooms| - 1], room) + if rooms[|rooms| - 1] == room then 1 else 0
  }

  function Later(a: Option<Instant>, b: Option<Instant>): Option<Instant>
  {
    if a.None? then b else if b.None? then a else if b.value > a.value then b else a
  }

  function LatestIn(messages: seq<Message>, room: string): Option<Instant>
  {
    if messages == [] then None
    else
      var m := messages[|messages| - 1];
      Later(LatestIn(messages[..|messages| - 1], room), if m.structure == room then Some(m.createdAt) else None)
  }

  /** The full outer join of the threads grouped by room with the messages grouped by room. `threads` is their rooms. */
  function Join(threads: seq<string>, messages: seq<Message>): seq<Row>
  {
    var left, right := FirstSeen(threads, {}), FirstSeen(RoomsOf(messages), {});
    var alone := Where(right, r => r !in left);
    seq(|left|, i requires 0 <= i < |left| =>
      if left[i] in right
        then Row(left[i], CountOf(threads, left[i]), CountOf(RoomsOf(messages), left[i]), LatestIn(messages, left[i]))
      else Row(left[i], CountOf(threads, left[i]), 0, None))
    + seq(|alone|, i requires 0 <= i < |alone| =>
      Row(alone[i], 0, CountOf(RoomsOf(messages), alone[i]), LatestIn(messages, alone[i])))
  }

  /** Rooms that heard something lately first, those that never did last. */
  function ByActivity(less: Collation): (Row, Row) -> bool
  {
    (r: Row, s: Row) =>
      if r.lastPostAt == s.lastPostAt then less(r.room, s.room)
      else r.lastPostAt.Some? && (s.lastPostAt.None? || r.lastPostAt.value > s.lastPostAt.value)
  }

  predicate Asked(q: Query, room: string)
  {
    q.room == "" || room == q.room
  }

  function ThreadsAsked(q: Query, threads: seq<string>): seq<string>
  {
    Where(threads, r => Asked(q, r))
  }

  function MessagesAsked(q: Query, messages: seq<Message>): seq<Message>
  {
    Where(messages, (m: Message) => Asked(q, m.structure))
  }

  function Summarised(q: Query, threads: seq<string>, messages: seq<Message>, less: Collation): seq<Row>
  {
    Sorted(Join(ThreadsAsked(q, threads), MessagesAsked(q, messages)), ByActivity(less))
  }

  // ---------------------------------------------------------------- the loop

  function Slice(rows: seq<Row>, offset: int, limit: Option<int>): seq<Row>
  {
    var from := if offset < 0 then 0 else offset;
    if from >= |rows| then []
    else if limit.None? then rows[from..]
    else if limit.value < 0 then []
    else Page(rows[from..], limit.value)
  }

  lemma SliceAppend(rows: seq<Row>, r: Row, offset: int, limit: Option<int>)
    ensures Slice(rows + [r], offset, limit)
            == if |rows| >= offset && (limit.None? || |Slice(rows, offset, limit)| < limit.value)
               then Slice(rows, offset, limit) + [r] else Slice(rows, offset, limit)
  {
    var from := if offset < 0 then 0 else offset;
    if from <= |rows| { assert (rows + [r])[from..] == rows[from..] + [r]; }
  }

  ghost function Sum<T>(s: seq<T>, f: T -> nat): nat
  {
    if s == [] then 0 else Sum(s[..|s| - 1], f) + f(s[|s| - 1])
  }

  ghost function LatestOf(rows: seq<Row>): Option<Instant>
  {
    if rows == [] then None else Later(LatestOf(rows[..|rows| - 1]), rows[|rows| - 1].lastPostAt)
  }

  /** The totals over every row, and the page asked for. */
  ghost function Tallied(q: Query, rows: seq<Row>): Summary
  {
    Summary(Slice(rows, q.offset, q.limit), |rows|, Sum(rows, (r: Row) => r.threads),
            Sum(rows, (r: Row) => r.messages), LatestOf(rows))
  }

  /** One turn of the loop. */
  function Counted(q: Query, i: nat, page: Summary, r: Row): Summary
  {
    Summary(if i >= q.offset && (q.limit.None? || |page.rows| < q.limit.value) then page.rows + [r] else page.rows,
            page.total + 1, page.threads + r.threads, page.messages + r.messages, Later(page.lastPostAt, r.lastPostAt))
  }

  lemma TalliedAppend(q: Query, rows: seq<Row>, k: nat)
    requires k < |rows|
    ensures Tallied(q, rows[..k + 1]) == Counted(q, k, Tallied(q, rows[..k]), rows[k])
  {
    SliceAppend(rows[..k], rows[k], q.offset, q.limit);
    assert rows[..k + 1] == rows[..k] + [rows[k]] && rows[..k + 1][..k] == rows[..k];
  }

  /** The row-scanning loop of `Activity`. */
  method Tally(q: Query, rows: seq<Row>) returns (page: Summary)
    ensures page == Tallied(q, rows)
  {
    var shown: seq<Row>, total: nat, threads: nat, messages: nat, latest: Option<Instant> := [], 0, 0, 0, None;
    for i := 0 to |rows|
      invariant Summary(shown, total, threads, messages, latest) == Tallied(q, rows[..i])
    {
      var r := rows[i];
      TalliedAppend(q, rows, i);
      if r.lastPostAt.Some? {
        if latest.None? || r.lastPostAt.value > latest.value { latest := r.lastPostAt; }
      }
      total, threads, messages := total + 1, threads + r.threads, messages + r.messages;
      if i >= q.offset && (q.limit.None? || |shown| < q.limit.value) { shown := shown + [r]; }
    }
    assert rows[..|rows|] == rows;
    page := Summary(shown, total, threads, messages, latest);
  }

  // ---------------------------------------------------------------- the join

  /** What a room's row should say, counted over the raw rows. */
  ghost function RowOf(threads: seq<string>, messages: seq<Message>, room: string): Row
  {
    Row(room, CountOf(threads, room), CountOf(RoomsOf(messages), room), LatestIn(messages, room))
  }

  ghost predicate HasRoom(rows: seq<Row>, room: string)
  {
    exists i :: 0 <= i < |rows| && rows[i].room == room
  }

  /** Every room with a thread or a message has one row, which says what the raw rows say; and there is no other row. */
  ghost predicate EachRoomOnce(threads: seq<string>, messages: seq<Message>, rows: seq<Row>)
  {
    && (forall i :: 0 <= i < |rows| ==> rows[i] == RowOf(threads, messages, rows[i].room))
    && (forall i, j :: 0 <= i < j < |rows| ==> rows[i].room != rows[j].room)
    && (forall room :: HasRoom(rows, room) <==> room in threads || room in RoomsOf(messages))
  }

  lemma {:induction false} NoneThere(rooms: seq<string>, room: string)
    ensures CountOf(rooms, room) == 0 <==> room !in rooms
    decreases |rooms|
  {
    if rooms != [] {
      NoneThere(rooms[..|rooms| - 1], room);
      assert rooms == rooms[..|rooms| - 1] + [rooms[|rooms| - 1]];
    }
  }

  lemma {:induction false} NothingHeard(messages: seq<Message>, room: string)
    ensures LatestIn(messages, room).None? <==> room !in RoomsOf(messages)
    decreases |messages|
  {
    if messages != [] {
      var rest := messages[..|messages| - 1];
      NothingHeard(rest, room);
      assert RoomsOf(messages) == RoomsOf(rest) + [messages[|messages| - 1].structure];
    }
  }

  lemma FirstSeenAll(named: seq<string>)
    ensures forall a :: a in FirstSeen(named, {}) <==> a in named
    ensures NoneTwice(FirstSeen(named, {}))
  {
    FirstSeenIsTheOnlyOne(named, {}, FirstSeen(named, {}));
  }

  lemma {:induction false} WhereDistinct(s: seq<string>, p: string -> bool)
    requires NoneTwice(s)
    ensures (forall a :: a in Where(s, p) <==> a in s && p(a)) && NoneTwice(Where(s, p))
    decreases |s|
  {
    if s != [] {
      WhereDistinct(s[..|s| - 1], p);
      assert s == s[..|s| - 1] + [s[|s| - 1]];
    }
  }

  lemma RoomOfRow(rows: seq<Row>, rooms: seq<string>)
    requires |rows| == |rooms| && forall i :: 0 <= i < |rows| ==> rows[i].room == rooms[i]
    ensures forall room :: HasRoom(rows, room) <==> room in rooms
  {
    forall room | room in rooms ensures HasRoom(rows, room) {
      var i :| 0 <= i < |rooms| && rooms[i] == room;
      assert rows[i].room == room;
    }
  }

  lemma JoinHasEachRoomOnce(threads: seq<string>, messages: seq<Message>)
    ensures EachRoomOnce(threads, messages, Join(threads, messages))
  {
    var left, right := FirstSeen(threads, {}), FirstSeen(RoomsOf(messages), {});
    var alone := Where(right, r => r !in left);
    var rows := Join(threads, messages);
    FirstSeenAll(threads);
    FirstSeenAll(RoomsOf(messages));
    WhereDistinct(right, r => r !in left);
    RoomOfRow(rows, left + alone);
    forall i | 0 <= i < |rows| ensures rows[i] == RowOf(threads, messages, rows[i].room) {
      var room := (left + alone)[i];
      NoneThere(threads, room);
      NoneThere(RoomsOf(messages), room);
      NothingHeard(messages, room);
      if i >= |left| { assert alone[i - |left|] in alone; }
    }
    forall i, j | 0 <= i < j < |rows| ensures rows[i].room != rows[j].room {
      assert rows[i].room == (left + alone)[i] && rows[j].room == (left + alone)[j];
      if i < |left| <= j { assert left[i] in left && alone[j - |left|] in alone; }
    }
  }

  // ---------------------------------------------------------------- in order

  lemma ActivityOrders(rows: seq<Row>, less: Collation)
    requires Total(less) && forall i, j :: 0 <= i < j < |rows| ==> rows[i].room != rows[j].room
    ensures Orders(ByActivity(less), rows)
  {
    var lt := ByActivity(less);
    forall x, y, z | lt(x, y) && lt(y, z) ensures lt(x, z) {
      if x.lastPostAt == y.lastPostAt == z.lastPostAt { assert less(x.room, y.room) && less(y.room, z.room); }
    }
    forall i, j | 0 <= i < j < |rows| ensures lt(rows[i], rows[j]) || lt(rows[j], rows[i]) {
      assert less(rows[i].room, rows[j].room) || less(rows[j].room, rows[i].room);
    }
    forall x ensures !lt(x, x) { assert !less(x.room, x.room); }
    assert Strict(lt);
  }

  lemma SortedHasEachRoomOnce(threads: seq<string>, messages: seq<Message>, rows: seq<Row>, less: Collation)
    requires Total(less) && EachRoomOnce(threads, messages, rows)
    ensures EachRoomOnce(threads, messages, Sorted(rows, ByActivity(less)))
            && Ascending(Sorted(rows, ByActivity(less)), ByActivity(less))
  {
    var lt, out := ByActivity(less), Sorted(rows, ByActivity(less));
    ActivityOrders(rows, less);
    SortedHolds(rows, lt);
    forall i | 0 <= i < |out| ensures out[i] == RowOf(threads, messages, out[i].room) {
      assert out[i] in rows;
    }
    forall i, j | 0 <= i < j < |out| ensures out[i].room != out[j].room {
      assert lt(out[i], out[j]);
    }
    forall room ensures HasRoom(out, room) <==> HasRoom(rows, room) {
      SameRooms(out, rows, room);
      SameRooms(rows, out, room);
    }
  }

  lemma SameRooms(a: seq<Row>, b: seq<Row>, room: string)
    requires forall r :: r in a ==> r in b
    ensures HasRoom(a, room) ==> HasRoom(b, room)
  {
    if HasRoom(a, room) {
      var i :| 0 <= i < |a| && a[i].room == room;
      assert a[i] in b;
    }
  }

  // ---------------------------------------------------------------- totals

  lemma {:induction false} SumAgrees(rows: seq<Row>, f: Row -> nat, g: Row -> nat)
    requires forall i :: 0 <= i < |rows| ==> f(rows[i]) == g(rows[i])
    ensures Sum(rows, f) == Sum(rows, g)
    decreases |rows|
  {
    if rows != [] { SumAgrees(rows[..|rows| - 1], f, g); }
  }

  lemma {:induction false} SumOfZeros(rows: seq<Row>)
    ensures Sum(rows, (r: Row) => CountOf([], r.room)) == 0
    decreases |rows|
  {
    if rows != [] { SumOfZeros(rows[..|rows| - 1]); }
  }

  /** One more row of a room raises that room's count, and so the sum, by one. */
  lemma {:induction false} SumOneMore(rows: seq<Row>, rooms: seq<string>, room: string)
    requires forall i, j :: 0 <= i < j < |rows| ==> rows[i].room != rows[j].room
    ensures Sum(rows, (r: Row) => CountOf(rooms + [room], r.room))
            == Sum(rows, (r: Row) => CountOf(rooms, r.room)) + if HasRoom(rows, room) then 1 else 0
    decreases |rows|
  {
    if rows != [] {
      var rest, last := rows[..|rows| - 1], rows[|rows| - 1];
      SumOneMore(rest, rooms, room);
      assert (rooms + [room])[..|rooms|] == rooms;
      HasRoomAppend(rest, last, room);
      assert rows == rest + [last];
      if last.room == room && HasRoom(rest, room) { assert false; }
    }
  }

  lemma HasRoomAppend(rows: seq<Row>, r: Row, room: string)
    ensures HasRoom(rows + [r], room) <==> HasRoom(rows, room) || r.room == room
  {
    if HasRoom(rows, room) {
      var i :| 0 <= i < |rows| && rows[i].room == room;
      assert (rows + [r])[i].room == room;
    }
    assert (rows + [r])[|rows|] == r;
  }

  /** The rooms' counts of a column add up to the column's length. */
  lemma {:induction false} CountsAddUp(rows: seq<Row>, rooms: seq<string>)
    requires forall i, j :: 0 <= i < j < |rows| ==> rows[i].room != rows[j].room
    requires forall room :: room in rooms ==> HasRoom(rows, room)
    ensures Sum(rows, (r: Row) => CountOf(rooms, r.room)) == |rooms|
    decreases |rooms|
  {
    if rooms == [] {
      SumOfZeros(rows);
    } else {
      var rest, last := rooms[..|rooms| - 1], rooms[|rooms| - 1];
      assert rooms == rest + [last];
      CountsAddUp(rows, rest);
      SumOneMore(rows, rest, last);
    }
  }

  /** The time of the latest message, if there is any message. */
  ghost predicate IsLatest(at: Option<Instant>, messages: seq<Message>)
  {
    && (at.None? <==> messages == [])
    && (at.Some? ==> exists m :: m in messages && m.createdAt == at.value)
    && (at.Some? ==> forall m :: m in messages ==> m.createdAt <= at.value)
  }

  lemma {:induction false} LatestInIs(messages: seq<Message>, room: string)
    ensures var at := LatestIn(messages, room);
            && (at.Some? ==> exists m :: m in messages && m.structure == room && m.createdAt == at.value)
            && (forall m :: m in messages && m.structure == room ==> at.Some? && m.createdAt <= at.value)
    decreases |messages|
  {
    if messages != [] {
      var rest, last := messages[..|messages| - 1], messages[|messages| - 1];
      LatestInIs(rest, room);
      assert messages == rest + [last];
    }
  }

  lemma {:induction false} LatestOfIs(rows: seq<Row>)
    ensures var at := LatestOf(rows);
            && (at.Some? ==> exists i :: 0 <= i < |rows| && rows[i].lastPostAt == at)
            && (forall i :: 0 <= i < |rows| && rows[i].lastPostAt.Some? ==>
                at.Some? && rows[i].lastPostAt.value <= at.value)
    decreases |rows|
  {
    if rows != [] { LatestOfIs(rows[..|rows| - 1]); }
  }

  lemma LatestOverall(threads: seq<string>, messages: seq<Message>, rows: seq<Row>)
    requires EachRoomOnce(threads, messages, rows)
    ensures IsLatest(LatestOf(rows), messages)
  {
    LatestOfIs(rows);
    forall m | m in messages ensures LatestOf(rows).Some? && m.createdAt <= LatestOf(rows).value {
      LatestInIs(messages, m.structure);
      RoomHeard(messages, m);
      assert HasRoom(rows, m.structure);
      var i :| 0 <= i < |rows| && rows[i].room == m.structure;
      assert rows[i] == RowOf(threads, messages, m.structure);
    }
    if messages != [] { assert messages[0] in messages; }
    if LatestOf(rows).Some? {
      var i :| 0 <= i < |rows| && rows[i].lastPostAt == LatestOf(rows);
      LatestInIs(messages, rows[i].room);
      assert rows[i] == RowOf(threads, messages, rows[i].room);
    }
  }

  lemma RoomHeard(messages: seq<Message>, m: Message)
    requires m in messages
    ensures m.structure in RoomsOf(messages)
  {
    var i :| 0 <= i < |messages| && messages[i] == m;
    assert RoomsOf(messages)[i] == m.structure;
  }

  // ---------------------------------------------------------------- main results

  /**
   * True of a page whose rows are a slice of `rows`, each room once and in order, and whose totals count the raw rows.
   */
  ghost predicate Agrees(q: Query, threads: seq<string>, messages: seq<Message>, less: Collation,
                         rows: seq<Row>, page: Summary)
  {
    var t, m := ThreadsAsked(q, threads), MessagesAsked(q, messages);
    && EachRoomOnce(t, m, rows) && Ascending(rows, ByActivity(less)) && page.rows == Slice(rows, q.offset, q.limit)
    && page.total == |rows| && page.threads == |t| && page.messages == |m| && IsLatest(page.lastPostAt, m)
  }

  /**
   * The summary agrees with the raw rows asked for: each room once, in order, with its own figures; and totals that
   * count every row, whatever page is asked for.
   */
  lemma SummaryAgreesWithRows(q: Query, threads: seq<string>, messages: seq<Message>, less: Collation)
    requires Total(less)
    ensures var rows := Summarised(q, threads, messages, less);
            Agrees(q, threads, messages, less, rows, Tallied(q, rows))
  {
    var t, m := ThreadsAsked(q, threads), MessagesAsked(q, messages);
    var rows := Summarised(q, threads, messages, less);
    JoinHasEachRoomOnce(t, m);
    SortedHasEachRoomOnce(t, m, Join(t, m), less);
    CountsAddUp(rows, t);
    SumAgrees(rows, (r: Row) => r.threads, (r: Row) => CountOf(t, r.room));
    CountsAddUp(rows, RoomsOf(m));
    SumAgrees(rows, (r: Row) => r.messages, (r: Row) => CountOf(RoomsOf(m), r.room));
    LatestOverall(t, m, rows);
  }

  /**
   * The query in order, then the loop: one listing of the rooms, whatever page is asked for, and totals over all of it.
   */
  method Activity(q: Query, threads: seq<string>, messages: seq<Message>, less: Collation) returns (page: Summary)
    requires Total(less)
    ensures Agrees(q, threads, messages, less, Summarised(q, threads, messages, less), page)
  {
    SummaryAgreesWithRows(q, threads, messages, less);
    page := Tally(q, Summarised(q, threads, messages, less));
  }

  /** The pages at offset `from`, `from + limit`, ..., put together. */
  ghost function PagesFrom(rows: seq<Row>, from: nat, limit: nat): seq<Row>
    requires limit > 0
    decreases |rows| - from
  {
    if from >= |rows| then [] else Slice(rows, from, Some(limit)) + PagesFrom(rows, from + limit, limit)
  }

  lemma SliceThenRest(rows: seq<Row>, from: nat, limit: nat)
    requires from + limit <= |rows|
    ensures Slice(rows, from, Some(limit)) + rows[from + limit..] == rows[from..]
  {
    var rest := rows[from..];
    assert rest[..limit] + rest[limit..] == rest;
    assert rest[limit..] == rows[from + limit..];
  }

  /** Pages at successive offsets, put together, are the rest of the list. */
  lemma {:induction false} PagesConcatenate(rows: seq<Row>, from: nat, limit: nat)
    requires limit > 0 && from <= |rows|
    ensures PagesFrom(rows, from, limit) == rows[from..]
    decreases |rows| - from
  {
    if from + limit <= |rows| {
      PagesConcatenate(rows, from + limit, limit);
      SliceThenRest(rows, from, limit);
    }
  }
}
