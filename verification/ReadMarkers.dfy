/** How far each reader has read each chat thread, and what is unread. */
module ReadMarkers {
  import opened Common

  datatype Message = Message(id: string, structure: string, thread: string, author: string, createdAt: Instant)

  datatype Marker = Marker(id: string, structure: string, readAt: Instant, markedAt: Instant)

  /** A thread and a reader, which the marker table is unique on. */
  type Key = (string, string)

  datatype Db = Db(messages: seq<Message>, markers: map<Key, Marker>)

  const UNREAD_CAP := 100

  function Min(a: nat, b: nat): nat
  {
    if a < b then a else b
  }

  // ---------------------------------------------------------------- marking

  /** The upsert of `MarkRead`: the later read point, and the time of this mark. */
  function Marked(markers: map<Key, Marker>, key: Key, draft: Marker): map<Key, Marker>
  {
    if key in markers then
      var held := markers[key];
      var point := if draft.readAt > held.readAt then draft.readAt else held.readAt;
      markers[key := held.(readAt := point, markedAt := draft.markedAt)]
    else markers[key := draft]
  }

  // ---------------------------------------------------------------- counting

  predicate After(markers: map<Key, Marker>, key: Key, at: Instant)
  {
    key in markers ==> at > markers[key].readAt
  }

  predicate IsUnread(markers: map<Key, Marker>, key: Key, m: Message)
  {
    m.thread == key.0 && m.author != key.1 && After(markers, key, m.createdAt)
  }

  ghost function UnreadPosts(messages: seq<Message>, markers: map<Key, Marker>, key: Key): nat
  {
    Count(messages, m => IsUnread(markers, key, m))
  }

  ghost function Unread(db: Db, key: Key): nat
  {
    Min(UNREAD_CAP, UnreadPosts(db.messages, db.markers, key))
  }

  // ---------------------------------------------------------------- any run of marks and posts

  datatype Event = Mark(key: Key, draft: Marker) | Post(message: Message)

  ghost function Apply(db: Db, e: Event): Db
  {
    match e
    case Mark(key, draft) => db.(markers := Marked(db.markers, key, draft))
    case Post(m) => db.(messages := db.messages + [m])
  }

  /** What a run of the empty store reaches. */
  ghost function Reached(events: seq<Event>): Db
  {
    if events == [] then Db([], map[]) else Apply(Reached(events[..|events| - 1]), events[|events| - 1])
  }

  /** The read points offered for a key, and the messages posted. */
  ghost predicate Offered(events: seq<Event>, key: Key, at: Instant)
  {
    exists e :: e in events && e.Mark? && e.key == key && e.draft.readAt == at
  }

  ghost function Posted(events: seq<Event>): seq<Message>
  {
    if events == [] then []
    else
      var before, e := Posted(events[..|events| - 1]), events[|events| - 1];
      if e.Post? then before + [e.message] else before
  }

  /** A key's point is the greatest one offered for it. */
  ghost predicate IsGreatest(events: seq<Event>, key: Key, markers: map<Key, Marker>)
  {
    && (key in markers <==> exists at :: Offered(events, key, at))
    && (key in markers ==> Offered(events, key, markers[key].readAt))
    && (forall at :: Offered(events, key, at) ==> key in markers && at <= markers[key].readAt)
  }

  lemma OfferedAppend(events: seq<Event>, e: Event, key: Key)
    ensures forall at :: Offered(events + [e], key, at) <==>
              Offered(events, key, at) || (e.Mark? && e.key == key && e.draft.readAt == at)
  {
    forall at ensures Offered(events + [e], key, at) <==>
                        Offered(events, key, at) || (e.Mark? && e.key == key && e.draft.readAt == at)
    {
      if Offered(events, key, at) {
        var x :| x in events && x.Mark? && x.key == key && x.draft.readAt == at;
        assert x in events + [e];
      }
      if e.Mark? && e.key == key && e.draft.readAt == at { assert e in events + [e]; }
    }
  }

  /** The stored point is the greatest ever offered. */
  lemma {:induction false} StoredIsTheGreatest(events: seq<Event>, key: Key)
    ensures IsGreatest(events, key, Reached(events).markers)
    decreases |events|
  {
    if events != [] {
      var rest, e := events[..|events| - 1], events[|events| - 1];
      StoredIsTheGreatest(rest, key);
      assert events == rest + [e];
      OfferedAppend(rest, e, key);
      if e.Mark? && e.key == key { assert Offered(events, key, e.draft.readAt); }
    }
  }

  /** In whatever order, and however often, points are offered, the stored one is the same. */
  lemma OrderMakesNoDifference(events: seq<Event>, other: seq<Event>, key: Key)
    requires forall at :: Offered(events, key, at) <==> Offered(other, key, at)
    ensures key in Reached(events).markers <==> key in Reached(other).markers
    ensures key in Reached(events).markers ==> Reached(events).markers[key].readAt == Reached(other).markers[key].readAt
  {
    StoredIsTheGreatest(events, key);
    StoredIsTheGreatest(other, key);
  }

  ghost predicate PastAll(events: seq<Event>, key: Key, m: Message)
  {
    m.thread == key.0 && m.author != key.1 && forall at :: Offered(events, key, at) ==> m.createdAt > at
  }

  lemma {:induction false} MessagesArePosted(events: seq<Event>)
    ensures Reached(events).messages == Posted(events)
    decreases |events|
  {
    if events != [] { MessagesArePosted(events[..|events| - 1]); }
  }

  /** What is unread, in any run: at most a hundred, others' posts after every point ever offered. */
  lemma UnreadIsWhatWasNeverReached(events: seq<Event>, key: Key)
    ensures Unread(Reached(events), key) == Min(UNREAD_CAP, Count(Posted(events), m => PastAll(events, key, m)))
  {
    StoredIsTheGreatest(events, key);
    MessagesArePosted(events);
    var markers := Reached(events).markers;
    CountAgrees(Posted(events), m => IsUnread(markers, key, m), m => PastAll(events, key, m));
  }

  // ---------------------------------------------------------------- one step

  /** A mark never raises a count, and only its own reader's and thread's can fall. */
  lemma MarkingNeverRaises(db: Db, key: Key, draft: Marker, other: Key)
    ensures var after := Apply(db, Mark(key, draft));
            Unread(after, other) <= Unread(db, other) && (other != key ==> Unread(after, other) == Unread(db, other))
  {
    var after := Apply(db, Mark(key, draft));
    CountMonotone(db.messages, m => IsUnread(after.markers, other, m), m => IsUnread(db.markers, other, m));
    if other != key {
      CountAgrees(db.messages, m => IsUnread(after.markers, other, m), m => IsUnread(db.markers, other, m));
    }
  }

  /** Marking at or past the last post leaves nothing unread. */
  lemma MarkingTheLastReadsAll(db: Db, key: Key, draft: Marker)
    requires forall m :: m in db.messages && m.thread == key.0 ==> m.createdAt <= draft.readAt
    ensures Unread(Apply(db, Mark(key, draft)), key) == 0
  {
    var after := Apply(db, Mark(key, draft));
    NoneCounted(db.messages, m => IsUnread(after.markers, key, m));
  }

  /**
   * A post changes the counts of its thread's other readers who have not read past it, by one short of the cap, and no
   * others.
   */
  lemma {:induction false} PostingCounts(db: Db, m: Message, key: Key)
    ensures var before := Unread(db, key);
            Unread(Apply(db, Post(m)), key)
            == if m.thread == key.0 && m.author != key.1 && After(db.markers, key, m.createdAt)
              then Min(UNREAD_CAP, before + 1) else before
  {
    CountAppend(db.messages, m, x => IsUnread(db.markers, key, x));
  }

  // ---------------------------------------------------------------- the store

  class ReadStore {
    var threads: seq<(string, string)>
    var messages: seq<Message>
    var markers: map<Key, Marker>

    ghost function Contents(): Db
      reads this
    {
      Db(messages, markers)
    }

    constructor (threads: seq<(string, string)>, messages: seq<Message>)
      ensures this.threads == threads && Contents() == Db(messages, map[])
    {
      this.threads, this.messages, markers := threads, messages, map[];
    }

    /**
     * Marks a thread read up to a point. `declared` is the spec's check of the row; `writes` is false of an upsert that
     * breaks, and `readsBack` if the row, marked all the same, cannot be read again.
     */
    method MarkRead(structure: string, thread: string, reader: string, readAt: Instant, id: string, now: Instant,
                    declared: bool, writes: bool, readsBack: bool)
      returns (answer: Option<Marker>)
      modifies this`markers
      ensures Contents() == if declared && writes
                            then Apply(old(Contents()), Mark((thread, reader), Marker(id, structure, readAt, now)))
                            else old(Contents())
      ensures answer.Some? <==> declared && writes && readsBack
      ensures answer.Some? ==>
                && (thread, reader) in markers && answer.value == markers[(thread, reader)]
                && answer.value.readAt >= readAt && answer.value.markedAt == now
    {
      if !declared || !writes { return None; }
      var key := (thread, reader);
      if key in markers {
        var point := if readAt > markers[key].readAt then readAt else markers[key].readAt;
        markers := markers[key := markers[key].(readAt := point, markedAt := now)];
      } else {
        markers := markers[key := Marker(id, structure, readAt, now)];
      }
      answer := if readsBack then Some(markers[key]) else None;
    }

    /** The inner query: it counts no further than its limit. */
    method CountUnread(thread: string, reader: string) returns (n: nat)
      ensures n == Unread(Contents(), (thread, reader))
    {
      n := 0;
      ghost var held, key := markers, (thread, reader);
      for k := 0 to |messages|
        invariant n == Min(UNREAD_CAP, UnreadPosts(messages[..k], markers, key))
      {
        CountAppend(messages[..k], messages[k], m => IsUnread(held, key, m));
        assert messages[..k + 1] == messages[..k] + [messages[k]];
        var m := messages[k];
        if n < UNREAD_CAP && m.thread == thread && m.author != reader {
          if (thread, reader) !in markers || m.createdAt > markers[(thread, reader)].readAt { n := n + 1; }
        }
      }
      assert messages[..|messages|] == messages;
    }

    /**
     * One count for each thread of the structure with anything unread; `threads` pairs each thread with its structure.
     */
    method UnreadCounts(structure: string, reader: string) returns (counts: map<string, nat>)
      ensures forall t :: t in counts <==> (t, structure) in threads && Unread(Contents(), (t, reader)) > 0
      ensures forall t :: t in counts ==> counts[t] == Unread(Contents(), (t, reader))
    {
      counts := map[];
      for k := 0 to |threads|
        invariant forall t :: t in counts <==> (t, structure) in threads[..k] && Unread(Contents(), (t, reader)) > 0
        invariant forall t :: t in counts ==> counts[t] == Unread(Contents(), (t, reader))
      {
        assert threads[..k + 1] == threads[..k] + [threads[k]];
        if threads[k].1 == structure {
          var n := CountUnread(threads[k].0, reader);
          if n > 0 { counts := counts[threads[k].0 := n]; }
        }
      }
      assert threads[..|threads|] == threads;
    }
  }
}
