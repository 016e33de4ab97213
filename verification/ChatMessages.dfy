/** Listing a chat thread's messages, whole or after a cursor. */
module ChatMessages {
  import opened Listings
  import opened ReadMarkers

  predicate Earlier(less: Collation, m: Message, n: Message)
  {
    m.createdAt < n.createdAt || (m.createdAt == n.createdAt && less(m.id, n.id))
  }

  function ByTime(less: Collation): (Message, Message) -> bool
  {
    (m, n) => Earlier(less, m, n)
  }

  ghost predicate UniqueIds(rows: seq<Message>)
  {
    forall i, j :: 0 <= i < j < |rows| ==> rows[i].id != rows[j].id
  }

  predicate InThread(structure: string, thread: string, m: Message)
  {
    m.structure == structure && (thread == "" || m.thread == thread)
  }

  /** The messages of a structure, or of one of its threads. */
  function ListMessages(rows: seq<Message>, less: Collation, structure: string, thread: string): seq<Message>
  {
    Listing(rows, m => InThread(structure, thread, m), ByTime(less))
  }

  /** The condition of `ListMessagesAfter`. */
  predicate Follows(less: Collation, after: Message, m: Message)
  {
    && m.structure == after.structure && m.thread == after.thread
    && (m.createdAt > after.createdAt || (m.createdAt == after.createdAt && less(after.id, m.id)))
  }

  /** The messages of the cursor's thread that stand after it. */
  function ListMessagesAfter(rows: seq<Message>, less: Collation, after: Message): seq<Message>
  {
    Listing(rows, m => Follows(less, after, m), ByTime(less))
  }

  /** The messages of the cursor's thread at or before it. */
  function ListMessagesUpTo(rows: seq<Message>, less: Collation, after: Message): seq<Message>
  {
    Listing(rows, m => InThread(after.structure, after.thread, m) && !Earlier(less, after, m), ByTime(less))
  }

  lemma TimeOrders(rows: seq<Message>, less: Collation)
    requires Total(less) && UniqueIds(rows)
    ensures Orders(ByTime(less), rows)
  {}

  /** A thread is what stands at or before any message, present or not, followed by what stands after it. */
  lemma CursorLosesNothing(rows: seq<Message>, less: Collation, after: Message)
    requires Total(less) && UniqueIds(rows) && after.thread != ""
    ensures ListMessages(rows, less, after.structure, after.thread)
            == ListMessagesUpTo(rows, less, after) + ListMessagesAfter(rows, less, after)
  {
    TimeOrders(rows, less);
    CursorCuts(rows, m => InThread(after.structure, after.thread, m),
               m => InThread(after.structure, after.thread, m) && !Earlier(less, after, m),
               m => Follows(less, after, m), ByTime(less));
  }

  /** A listing in time order holds exactly the thread's messages, and no other list does. */
  lemma ListMessagesIsTheThread(rows: seq<Message>, less: Collation, structure: string,
                                thread: string, out: seq<Message>)
    requires Total(less) && UniqueIds(rows)
    ensures out == ListMessages(rows, less, structure, thread) <==>
              Ascending(out, ByTime(less)) && forall m :: m in out <==> m in rows && InThread(structure, thread, m)
  {
    TimeOrders(rows, less);
    ListingIsTheOnlyOne(rows, m => InThread(structure, thread, m), ByTime(less), out);
  }

  lemma UpToIs(rows: seq<Message>, less: Collation, after: Message, out: seq<Message>)
    requires Total(less) && UniqueIds(rows)
    ensures out == ListMessagesUpTo(rows, less, after) <==>
              Ascending(out, ByTime(less))
              && forall m :: m in out <==>
                   m in rows && InThread(after.structure, after.thread, m) && !Earlier(less, after, m)
  {
    TimeOrders(rows, less);
    ListingIsTheOnlyOne(rows, m => InThread(after.structure, after.thread, m) && !Earlier(less, after, m),
                        ByTime(less), out);
  }

  /**
   * A reader who holds a thread and asks for what came after its last message ends up with the thread as it now is
   * exactly when every message posted meanwhile stands after that one; a post stamped earlier is never fetched.
   */
  lemma PollingCatchesUpIff(rows: seq<Message>, more: seq<Message>, less: Collation, structure: string, thread: string)
    requires Total(less) && UniqueIds(rows + more) && thread != "" && ListMessages(rows, less, structure, thread) != []
    ensures var held := ListMessages(rows, less, structure, thread);
            var last := held[|held| - 1];
            held + ListMessagesAfter(rows + more, less, last) == ListMessages(rows + more, less, structure, thread)
            <==> forall m :: m in more && InThread(structure, thread, m) ==> Earlier(less, last, m)
  {
    assert UniqueIds(rows) by { FirstOnes(rows, more); }
    var held := ListMessages(rows, less, structure, thread);
    var last := held[|held| - 1];
    ListMessagesIsTheThread(rows, less, structure, thread, held);
    assert last in held;
    CursorLosesNothing(rows + more, less, last);
    var upTo, later := ListMessagesUpTo(rows + more, less, last), ListMessagesAfter(rows + more, less, last);
    UpToIs(rows + more, less, last, upTo);
    if forall m :: m in more && InThread(structure, thread, m) ==> Earlier(less, last, m) {
      forall m | m in held ensures !Earlier(less, last, m) { NothingAfterTheLast(held, less, m); }
      UpToIs(rows + more, less, last, held);
    } else {
      var m :| m in more && InThread(structure, thread, m) && !Earlier(less, last, m);
      NotInBoth(rows, more, m);
      assert m in upTo && m !in held;
      SameEnd(held, upTo, later);
    }
  }

  lemma SameEnd(a: seq<Message>, b: seq<Message>, end: seq<Message>)
    ensures a + end == b + end ==> a == b
  {
    if a + end == b + end {
      assert |a| == |b|;
      assert a == (a + end)[..|a|] && b == (b + end)[..|b|];
    }
  }

  lemma FirstOnes(rows: seq<Message>, more: seq<Message>)
    requires UniqueIds(rows + more)
    ensures UniqueIds(rows)
  {
    forall i, j | 0 <= i < j < |rows| ensures rows[i].id != rows[j].id {
      assert (rows + more)[i] == rows[i] && (rows + more)[j] == rows[j];
    }
  }

  lemma NotInBoth(rows: seq<Message>, more: seq<Message>, m: Message)
    requires UniqueIds(rows + more) && m in more
    ensures m !in rows
  {
    var j :| 0 <= j < |more| && more[j] == m;
    assert (rows + more)[|rows| + j] == m;
    forall i | 0 <= i < |rows| ensures rows[i] != m { assert (rows + more)[i] == rows[i]; }
  }

  lemma NothingAfterTheLast(held: seq<Message>, less: Collation, m: Message)
    requires Strict(less) && Ascending(held, ByTime(less)) && m in held
    ensures !Earlier(less, held[|held| - 1], m)
  {
    var i :| 0 <= i < |held| && held[i] == m;
    if i < |held| - 1 {
      assert ByTime(less)(held[i], held[|held| - 1]);
      assert !(less(m.id, held[|held| - 1].id) && less(held[|held| - 1].id, m.id));
    }
  }

  /** One message is held, and another of its thread is posted with an earlier stamp: it is never fetched. */
  lemma AnEarlierStampIsMissed(less: Collation, first: Message, late: Message)
    requires Total(less) && first.id != late.id && first.thread != ""
    requires InThread(first.structure, first.thread, late) && late.createdAt < first.createdAt
    ensures ListMessages([first], less, first.structure, first.thread) == [first]
    ensures ListMessages([first, late], less, first.structure, first.thread) == [late, first]
    ensures ListMessagesAfter([first, late], less, first) == []
  {
    var structure, thread, both := first.structure, first.thread, [first, late];
    ListMessagesIsTheThread([first], less, structure, thread, [first]);
    assert forall m :: m in [late, first] <==> m in both;
    ListMessagesIsTheThread(both, less, structure, thread, [late, first]);
    var upTo := [late, first];
    UpToIs(both, less, first, upTo);
    CursorLosesNothing(both, less, first);
    assert upTo + ListMessagesAfter(both, less, first) == upTo;
    assert |ListMessagesAfter(both, less, first)| == 0;
  }
}
