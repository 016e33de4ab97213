/** Standing messages: the schedule's due occurrence, the compare-and-swap claim and the scheduler's pass. */
module Standing {
  import opened Common
  import opened Listings

  type Id = string

  /** `scheduleOf`: what a row's zone, rule and dates read as, clipped to its start and end. */
  datatype Schedule = Unreadable | Readable(occurs: Instant -> bool)

  datatype StandingMessage = StandingMessage(
    structure: string, thread: string, author: string, body: string,
    schedule: Schedule, startsAt: Instant, lastSentAt: Option<Instant>, stoppedBy: Option<string>)

  /** A chat message posted by the scheduler, with the standing message and occurrence it answers. */
  datatype Post = Post(standing: Id, occurrence: Instant,
                       structure: string, thread: string, author: string, body: string)

  datatype Db = Db(rows: map<Id, StandingMessage>, posts: seq<Post>)

  // ---------------------------------------------------------------- the schedule

  /** The occurrences in `[from, end)`, ascending. */
  function Between(occurs: Instant -> bool, from: Instant, end: Instant): (due: seq<Instant>)
    ensures Increasing(due)
    ensures forall t :: t in due <==> from <= t < end && occurs(t)
    decreases end - from
  {
    if from >= end then []
    else
      var before := Between(occurs, from, end - 1);
      assert forall k :: 0 <= k < |before| ==> before[k] in before;
      if occurs(end - 1) then before + [end - 1] else before
  }

  function DueFrom(m: StandingMessage): Instant
  {
    match m.lastSentAt
    case None => m.startsAt
    case Some(last) => last + 1
  }

  /** The occurrence a pass at `now` would send for the row as it was read. */
  function LatestDue(m: StandingMessage, now: Instant): (due: Option<Instant>)
    ensures due.Some? ==> m.schedule.Readable? && m.schedule.occurs(due.value) && DueFrom(m) <= due.value <= now
    ensures m.schedule.Readable? ==>
              forall t :: DueFrom(m) <= t <= now && m.schedule.occurs(t) ==> due.Some? && t <= due.value
  {
    match m.schedule
    case Unreadable => None
    case Readable(occurs) =>
      var due := Between(occurs, DueFrom(m), now + 1);
      assert forall t :: DueFrom(m) <= t <= now && occurs(t) ==> t in due;
      if due == [] then None else Some(due[|due| - 1])
  }

  // ---------------------------------------------------------------- the claim and the post

  /** Where a transaction breaks, if it does: in the claim, or in the post after it. */
  datatype Trouble = NoTrouble | ClaimBreaks | PostBreaks

  datatype Attempt = NothingDue | Lost | Failed | Sent(post: Post)

  function PostOf(id: Id, m: StandingMessage, occurrence: Instant): Post
  {
    Post(id, occurrence, m.structure, m.thread, m.author, m.body)
  }

  /** The `WHERE` of the claim: the row still runs, and still has the mark it was read with. */
  predicate ClaimMatches(db: Db, id: Id, seen: StandingMessage)
  {
    id in db.rows && db.rows[id].stoppedBy.None? && db.rows[id].lastSentAt == seen.lastSentAt
  }

  /** One `sendDue`: claim and post commit together or not at all. */
  function SendDue(db: Db, id: Id, seen: StandingMessage, now: Instant, trouble: Trouble): (Db, Attempt)
  {
    match LatestDue(seen, now)
    case None => (db, NothingDue)
    case Some(occurrence) =>
      if trouble == ClaimBreaks then (db, Failed)
      else if !ClaimMatches(db, id, seen) then (db, Lost)
      else if trouble == PostBreaks then (db, Failed)
      else
        var post := PostOf(id, seen, occurrence);
        (Db(db.rows[id := db.rows[id].(lastSentAt := Some(occurrence))], db.posts + [post]), Sent(post))
  }

  /** `StopStanding`'s update: only a running row of that structure stops. */
  function Stop(db: Db, structure: string, id: Id, who: string): Db
  {
    if !Blank(who) && id in db.rows && db.rows[id].structure == structure && db.rows[id].stoppedBy.None?
    then db.(rows := db.rows[id := db.rows[id].(stoppedBy := Some(who))])
    else db
  }

  /** A message as `CreateStanding` stores it: its body trimmed, unsent and running. */
  function AsStored(m: StandingMessage): StandingMessage
  {
    m.(body := TrimSpace(m.body), lastSentAt := None, stoppedBy := None)
  }

  /** `CreateStanding`'s insert of a row not sent and not stopped, once its schedule could be read. */
  function Inserted(db: Db, id: Id, m: StandingMessage): Db
  {
    if id in db.rows || m.lastSentAt.Some? || m.stoppedBy.Some? || m.schedule.Unreadable? then db
    else db.(rows := db.rows[id := m])
  }

  // ---------------------------------------------------------------- any number of hosts

  /** The store, and what each host last read of it. */
  datatype Sys = Sys(db: Db, seen: map<nat, map<Id, StandingMessage>>)

  /** A step of some host: its own clock says `now`, and nothing orders one host's clock with another's. */
  datatype Event =
    | Create(id: Id, message: StandingMessage)
    | StopBy(structure: string, id: Id, who: string)
    | ReadRunning(host: nat)
    | Try(host: nat, id: Id, now: Instant, trouble: Trouble)

  function Running(rows: map<Id, StandingMessage>): map<Id, StandingMessage>
  {
    map id | id in rows && rows[id].stoppedBy.None? :: rows[id]
  }

  function Apply(s: Sys, e: Event): Sys
  {
    match e
    case Create(id, m) => s.(db := Inserted(s.db, id, m))
    case StopBy(structure, id, who) => s.(db := Stop(s.db, structure, id, who))
    case ReadRunning(host) => s.(seen := s.seen[host := Running(s.db.rows)])
    case Try(host, id, now, trouble) =>
      if host in s.seen && id in s.seen[host]
      then s.(db := SendDue(s.db, id, s.seen[host][id], now, trouble).0)
      else s
  }

  function Run(s: Sys, events: seq<Event>): Sys
    decreases |events|
  {
    if events == [] then s else Run(Apply(s, events[0]), events[1..])
  }

  /** The occurrences posted for one standing message, in the order they were posted. */
  ghost function Posted(posts: seq<Post>, id: Id): seq<Instant>
  {
    if posts == [] then []
    else
      var rest := Posted(posts[..|posts| - 1], id);
      if posts[|posts| - 1].standing == id then rest + [posts[|posts| - 1].occurrence] else rest
  }

  lemma PostedAppend(posts: seq<Post>, p: Post, id: Id)
    ensures Posted(posts + [p], id) == Posted(posts, id) + if p.standing == id then [p.occurrence] else []
  {
    assert (posts + [p])[..|posts|] == posts;
  }

  /** The parts of a row nothing changes after it is created. */
  ghost predicate SameSetup(m: StandingMessage, n: StandingMessage)
  {
    m == n.(lastSentAt := m.lastSentAt, stoppedBy := m.stoppedBy)
  }

  /** What holds of one standing message: its posts rise, are its own occurrences, and end at its mark. */
  ghost predicate RowInv(db: Db, id: Id)
    requires id in db.rows
  {
    var m := db.rows[id];
    var sent := Posted(db.posts, id);
    && Increasing(sent)
    && (m.lastSentAt.None? <==> sent == [])
    && (m.lastSentAt.Some? ==> m.lastSentAt.value == sent[|sent| - 1])
    && forall t :: t in sent ==> m.startsAt <= t && m.schedule.Readable? && m.schedule.occurs(t)
  }

  ghost predicate DbInv(db: Db)
  {
    && (forall id :: id in db.rows ==> RowInv(db, id))
    && (forall p :: p in db.posts ==>
        p.standing in db.rows && p == PostOf(p.standing, db.rows[p.standing], p.occurrence))
  }

  /** A host's snapshot may be as old as it likes; it was once what the rows said. */
  ghost predicate SeenInv(s: Sys)
  {
    forall host, id :: host in s.seen && id in s.seen[host] ==>
      id in s.db.rows && SameSetup(s.seen[host][id], s.db.rows[id])
  }

  ghost predicate Inv(s: Sys)
  {
    DbInv(s.db) && SeenInv(s)
  }

  lemma NothingPosted(posts: seq<Post>, id: Id)
    requires forall p :: p in posts ==> p.standing != id
    ensures Posted(posts, id) == []
  {
    if posts != [] {
      assert posts[|posts| - 1] in posts;
      NothingPosted(posts[..|posts| - 1], id);
    }
  }

  lemma SentRowKeepsInv(db: Db, id: Id, seen: StandingMessage, occurrence: Instant)
    requires id in db.rows && RowInv(db, id) && SameSetup(seen, db.rows[id])
             && seen.lastSentAt == db.rows[id].lastSentAt
    requires seen.schedule.Readable? && seen.schedule.occurs(occurrence) && DueFrom(seen) <= occurrence
    ensures RowInv(Db(db.rows[id := db.rows[id].(lastSentAt := Some(occurrence))],
                      db.posts + [PostOf(id, seen, occurrence)]), id)
  {
    PostedAppend(db.posts, PostOf(id, seen, occurrence), id);
    var m, sent := db.rows[id], Posted(db.posts, id);
    assert m.schedule == seen.schedule && m.startsAt == seen.startsAt;
    if sent != [] {
      assert sent[|sent| - 1] in sent;
      assert forall k :: 0 <= k < |sent| ==> sent[k] <= sent[|sent| - 1];
    }
    assert m.startsAt <= occurrence;
    assert forall t :: t in sent + [occurrence] ==> t in sent || t == occurrence;
  }

  lemma OtherRowKeepsInv(db: Db, id: Id, m: StandingMessage, p: Post, other: Id)
    requires other in db.rows && RowInv(db, other) && other != id && p.standing == id
    ensures RowInv(Db(db.rows[id := m], db.posts + [p]), other)
  {
    PostedAppend(db.posts, p, other);
  }

  lemma SentKeepsInv(db: Db, id: Id, seen: StandingMessage, occurrence: Instant)
    requires DbInv(db) && id in db.rows && SameSetup(seen, db.rows[id]) && seen.lastSentAt == db.rows[id].lastSentAt
    requires seen.schedule.Readable? && seen.schedule.occurs(occurrence) && DueFrom(seen) <= occurrence
    ensures DbInv(Db(db.rows[id := db.rows[id].(lastSentAt := Some(occurrence))],
                     db.posts + [PostOf(id, seen, occurrence)]))
  {
    var m, p := db.rows[id].(lastSentAt := Some(occurrence)), PostOf(id, seen, occurrence);
    var db' := Db(db.rows[id := m], db.posts + [p]);
    forall i | i in db'.rows ensures RowInv(db', i) {
      assert RowInv(db, i);
      if i == id { SentRowKeepsInv(db, id, seen, occurrence); } else { OtherRowKeepsInv(db, id, m, p, i); }
    }
  }

  lemma SendDueKeepsInv(db: Db, id: Id, seen: StandingMessage, now: Instant, trouble: Trouble)
    requires DbInv(db) && id in db.rows && SameSetup(seen, db.rows[id])
    ensures DbInv(SendDue(db, id, seen, now, trouble).0)
    ensures SendDue(db, id, seen, now, trouble).0.rows.Keys == db.rows.Keys
    ensures forall i :: i in db.rows ==> SameSetup(db.rows[i], SendDue(db, id, seen, now, trouble).0.rows[i])
  {
    var (db', attempt) := SendDue(db, id, seen, now, trouble);
    if attempt.Sent? { SentKeepsInv(db, id, seen, attempt.post.occurrence); }
  }

  lemma CreateKeepsInv(s: Sys, id: Id, m: StandingMessage)
    requires Inv(s)
    ensures Inv(Apply(s, Create(id, m)))
  {
    var s' := Apply(s, Create(id, m));
    forall i | i in s'.db.rows ensures RowInv(s'.db, i) {
      if i in s.db.rows { assert RowInv(s.db, i); } else { NothingPosted(s.db.posts, i); }
    }
  }

  lemma StopKeepsInv(s: Sys, structure: string, id: Id, who: string)
    requires Inv(s)
    ensures Inv(Apply(s, StopBy(structure, id, who)))
  {
    var s' := Apply(s, StopBy(structure, id, who));
    forall i | i in s'.db.rows ensures RowInv(s'.db, i) { assert RowInv(s.db, i); }
  }

  lemma ApplyKeepsInv(s: Sys, e: Event)
    requires Inv(s)
    ensures Inv(Apply(s, e))
    ensures forall id :: id in s.db.rows ==>
              id in Apply(s, e).db.rows && SameSetup(s.db.rows[id], Apply(s, e).db.rows[id])
  {
    match e
    case Create(id, m) => CreateKeepsInv(s, id, m);
    case StopBy(structure, id, who) => StopKeepsInv(s, structure, id, who);
    case ReadRunning(host) =>
    case Try(host, id, now, trouble) =>
      if host in s.seen && id in s.seen[host] {
        SendDueKeepsInv(s.db, id, s.seen[host][id], now, trouble);
      }
  }

  /** Every run keeps the invariant and the set-up of every row. */
  lemma {:induction false} RunKeepsInv(s: Sys, events: seq<Event>)
    requires Inv(s)
    ensures Inv(Run(s, events))
    ensures forall id :: id in s.db.rows ==>
              id in Run(s, events).db.rows && SameSetup(s.db.rows[id], Run(s, events).db.rows[id])
    decreases |events|
  {
    if events != [] {
      ApplyKeepsInv(s, events[0]);
      RunKeepsInv(Apply(s, events[0]), events[1..]);
    }
  }

  const EMPTY := Sys(Db(map[], []), map[])

  /** No occurrence goes out twice: for any hosts, clocks, aborts and stops, a message's posts strictly rise. */
  lemma {:induction false} EveryOccurrenceAtMostOnce(events: seq<Event>, id: Id)
    requires id in Run(EMPTY, events).db.rows
    ensures var db := Run(EMPTY, events).db;
            && Increasing(Posted(db.posts, id))
            && (forall t :: t in Posted(db.posts, id) ==>
                  db.rows[id].startsAt <= t && db.rows[id].schedule.Readable? && db.rows[id].schedule.occurs(t))
            && (forall p :: p in db.posts && p.standing == id ==> p == PostOf(id, db.rows[id], p.occurrence))
  {
    RunKeepsInv(EMPTY, events);
    assert RowInv(Run(EMPTY, events).db, id);
  }

  // ---------------------------------------------------------------- posts and marks

  /** True of a step that moves the mark of `id`. */
  ghost predicate Moves(s: Sys, e: Event, id: Id)
  {
    && id in s.db.rows && id in Apply(s, e).db.rows
    && s.db.rows[id].lastSentAt != Apply(s, e).db.rows[id].lastSentAt
  }

  ghost function MoveCount(s: Sys, events: seq<Event>, id: Id): nat
    decreases |events|
  {
    if events == [] then 0
    else (if Moves(s, events[0], id) then 1 else 0) + MoveCount(Apply(s, events[0]), events[1..], id)
  }

  /** A try posts for `id`, or changes nothing that was posted for it. */
  lemma TryPosts(s: Sys, e: Event, id: Id)
    requires e.Try?
    ensures var posts := Apply(s, e).db.posts;
            if e.id == id && posts != s.db.posts
            then |Posted(posts, id)| == |Posted(s.db.posts, id)| + 1
            else Posted(posts, id) == Posted(s.db.posts, id)
  {
    if e.host in s.seen && e.id in s.seen[e.host] {
      var attempt := SendDue(s.db, e.id, s.seen[e.host][e.id], e.now, e.trouble).1;
      if attempt.Sent? { PostedAppend(s.db.posts, attempt.post, id); }
    }
  }

  lemma OneMoveOnePost(s: Sys, e: Event, id: Id)
    requires Inv(s)
    ensures |Posted(Apply(s, e).db.posts, id)| == |Posted(s.db.posts, id)| + if Moves(s, e, id) then 1 else 0
  {
    if e.Try? {
      TryPosts(s, e, id);
    }
  }

  /** Committed posts equal committed moves of the mark. */
  lemma {:induction false} PostsEqualMoves(s: Sys, events: seq<Event>, id: Id)
    requires Inv(s)
    ensures |Posted(Run(s, events).db.posts, id)| == |Posted(s.db.posts, id)| + MoveCount(s, events, id)
    decreases |events|
  {
    if events != [] {
      OneMoveOnePost(s, events[0], id);
      ApplyKeepsInv(s, events[0]);
      PostsEqualMoves(Apply(s, events[0]), events[1..], id);
    }
  }

  /** Once a stop has committed, nothing more is posted for that message, whatever any host had read before. */
  lemma {:induction false} NothingPostedAfterStop(s: Sys, events: seq<Event>, id: Id)
    requires id in s.db.rows && s.db.rows[id].stoppedBy.Some?
    ensures id in Run(s, events).db.rows && Run(s, events).db.rows[id] == s.db.rows[id]
    ensures Posted(Run(s, events).db.posts, id) == Posted(s.db.posts, id)
    decreases |events|
  {
    if events != [] {
      if events[0].Try? { TryPosts(s, events[0], id); }
      NothingPostedAfterStop(Apply(s, events[0]), events[1..], id);
    }
  }

  // ---------------------------------------------------------------- one pass

  type Snapshot = seq<(Id, StandingMessage)>

  /** `running` lists running rows of `db`, none twice, as they stand. */
  ghost predicate Lists(db: Db, running: Snapshot)
  {
    && (forall i, j :: 0 <= i < j < |running| ==> running[i].0 != running[j].0)
    && (forall i :: 0 <= i < |running| ==>
          running[i].0 in db.rows && db.rows[running[i].0] == running[i].1 && running[i].1.stoppedBy.None?)
  }

  /** ... and lists them all. */
  ghost predicate ListsRunning(db: Db, running: Snapshot)
  {
    && Lists(db, running)
    && (forall id :: id in db.rows && db.rows[id].stoppedBy.None? ==> (id, db.rows[id]) in running)
  }

  /** The pass over a snapshot: the state it leaves, what it sent, and whose transactions failed. */
  function Pass(db: Db, running: Snapshot, now: Instant, trouble: Id -> Trouble): (Db, seq<Post>, seq<Id>)
  {
    if running == [] then (db, [], [])
    else
      var (before, sent, failed) := Pass(db, running[..|running| - 1], now, trouble);
      var (id, m) := running[|running| - 1];
      var (after, attempt) := SendDue(before, id, m, now, trouble(id));
      (after,
       if attempt.Sent? then sent + [attempt.post] else sent,
       if attempt.Failed? then failed + [id] else failed)
  }

  function RowAfter(m: StandingMessage, now: Instant, trouble: Trouble): StandingMessage
  {
    var due := LatestDue(m, now);
    if due.Some? && trouble.NoTrouble? then m.(lastSentAt := due) else m
  }

  /** What a pass owes: one post per running row that is due and meets no trouble, in listing order. */
  function Owed(running: Snapshot, now: Instant, trouble: Id -> Trouble): seq<Post>
  {
    if running == [] then []
    else
      var (id, m) := running[|running| - 1];
      var due := LatestDue(m, now);
      Owed(running[..|running| - 1], now, trouble)
      + if due.Some? && trouble(id).NoTrouble? then [PostOf(id, m, due.value)] else []
  }

  function Troubled(running: Snapshot, now: Instant, trouble: Id -> Trouble): seq<Id>
  {
    if running == [] then []
    else
      var (id, m) := running[|running| - 1];
      Troubled(running[..|running| - 1], now, trouble)
      + if LatestDue(m, now).Some? && !trouble(id).NoTrouble? then [id] else []
  }

  /** What a pass over `running` has done to `db`: its own rows dealt with, every other row as it was. */
  ghost predicate PassDone(db: Db, running: Snapshot, now: Instant, trouble: Id -> Trouble, db': Db)
  {
    && db'.rows.Keys == db.rows.Keys
    && (forall i :: 0 <= i < |running| ==>
          running[i].0 in db.rows && db'.rows[running[i].0] == RowAfter(running[i].1, now, trouble(running[i].0)))
    && (forall id :: id in db.rows && (forall i :: 0 <= i < |running| ==> running[i].0 != id) ==>
        db'.rows[id] == db.rows[id])
  }

  lemma PassStep(db: Db, running: Snapshot, now: Instant, trouble: Id -> Trouble, before: Db,
                 id: Id, m: StandingMessage)
    requires PassDone(db, running, now, trouble, before)
    requires id in db.rows && db.rows[id] == m && m.stoppedBy.None?
    requires forall i :: 0 <= i < |running| ==> running[i].0 != id
    ensures PassDone(db, running + [(id, m)], now, trouble, SendDue(before, id, m, now, trouble(id)).0)
    ensures SendDue(before, id, m, now, trouble(id)).1 ==
            if LatestDue(m, now).None? then NothingDue
            else if trouble(id).NoTrouble? then Sent(PostOf(id, m, LatestDue(m, now).value)) else Failed
  {
    assert before.rows[id] == m;
    OneRowDone(db, running, now, trouble, before, id, m, SendDue(before, id, m, now, trouble(id)).0);
  }

  lemma OneRowDone(db: Db, running: Snapshot, now: Instant, trouble: Id -> Trouble, before: Db,
                   id: Id, m: StandingMessage, after: Db)
    requires PassDone(db, running, now, trouble, before) && id in db.rows
    requires forall i :: 0 <= i < |running| ==> running[i].0 != id
    requires after.rows == before.rows[id := RowAfter(m, now, trouble(id))]
    ensures PassDone(db, running + [(id, m)], now, trouble, after)
  {
    var done := running + [(id, m)];
    assert done[|running|] == (id, m);
    assert forall k :: 0 <= k < |running| ==> done[k] == running[k];
  }

  lemma PassUnfold(db: Db, rest: Snapshot, id: Id, m: StandingMessage, now: Instant, trouble: Id -> Trouble)
    ensures var (before, sent, failed) := Pass(db, rest, now, trouble);
            var (after, attempt) := SendDue(before, id, m, now, trouble(id));
            Pass(db, rest + [(id, m)], now, trouble)
            == (after, if attempt.Sent? then sent + [attempt.post] else sent, if attempt.Failed? then failed + [id]
                else failed)
    ensures Owed(rest + [(id, m)], now, trouble) == Owed(rest, now, trouble)
            + if LatestDue(m, now).Some? && trouble(id).NoTrouble? then [PostOf(id, m, LatestDue(m, now).value)] else []
    ensures Troubled(rest + [(id, m)], now, trouble) == Troubled(rest, now, trouble)
            + if LatestDue(m, now).Some? && !trouble(id).NoTrouble? then [id] else []
  {
    var running := rest + [(id, m)];
    assert running[..|running| - 1] == rest;
  }

  lemma {:induction false} PassIsDone(db: Db, running: Snapshot, now: Instant, trouble: Id -> Trouble)
    requires Lists(db, running)
    ensures PassDone(db, running, now, trouble, Pass(db, running, now, trouble).0)
    ensures Pass(db, running, now, trouble).1 == Owed(running, now, trouble)
    ensures Pass(db, running, now, trouble).2 == Troubled(running, now, trouble)
    decreases |running|
  {
    if running != [] {
      var rest := running[..|running| - 1];
      var (id, m) := running[|running| - 1];
      assert running == rest + [(id, m)];
      PassIsDone(db, rest, now, trouble);
      PassUnfold(db, rest, id, m, now, trouble);
      var (before, sent, failed) := Pass(db, rest, now, trouble);
      PassStep(db, rest, now, trouble, before, id, m);
    }
  }

  lemma {:induction false} PassPosts(db: Db, running: Snapshot, now: Instant, trouble: Id -> Trouble)
    ensures Pass(db, running, now, trouble).0.posts == db.posts + Pass(db, running, now, trouble).1
    decreases |running|
  {
    if running != [] {
      PassPosts(db, running[..|running| - 1], now, trouble);
    }
  }

  /** The whole pass, read off the rows it was given. */
  lemma {:induction false} PassOutcome(db: Db, running: Snapshot, now: Instant, trouble: Id -> Trouble)
    requires ListsRunning(db, running)
    ensures var (db', sent, failed) := Pass(db, running, now, trouble);
            && db'.rows.Keys == db.rows.Keys
            && (forall id :: id in db.rows ==>
                  db'.rows[id] == if db.rows[id].stoppedBy.None? then RowAfter(db.rows[id], now, trouble(id))
                    else db.rows[id])
            && sent == Owed(running, now, trouble) && failed == Troubled(running, now, trouble)
            && db'.posts == db.posts + sent
  {
    PassIsDone(db, running, now, trouble);
    PassPosts(db, running, now, trouble);
    var db' := Pass(db, running, now, trouble).0;
    forall id | id in db.rows
      ensures db'.rows[id] == if db.rows[id].stoppedBy.None? then RowAfter(db.rows[id], now, trouble(id))
              else db.rows[id]
    {
      if db.rows[id].stoppedBy.None? {
        var i :| 0 <= i < |running| && running[i] == (id, db.rows[id]);
        assert running[i].0 == id;
        assert db'.rows[running[i].0] == RowAfter(running[i].1, now, trouble(running[i].0));
      }
    }
  }

  /** After a pass, a running row that met no trouble has no occurrence left after its mark and up to `now`. */
  lemma PassLeavesNothingDue(db: Db, running: Snapshot, now: Instant, trouble: Id -> Trouble, id: Id, t: Instant)
    requires ListsRunning(db, running)
    requires id in db.rows && db.rows[id].stoppedBy.None? && db.rows[id].schedule.Readable? && trouble(id).NoTrouble?
    ensures var db' := Pass(db, running, now, trouble).0;
            id in db'.rows &&
            var m := db'.rows[id];
            SameSetup(db.rows[id], m) && (DueFrom(m) <= t <= now ==> !m.schedule.occurs(t))
  {
    PassOutcome(db, running, now, trouble);
  }

  lemma ClaimLeavesNothingDueIff(db: Db, id: Id, seen: StandingMessage, now: Instant)
    requires id in db.rows && db.rows[id].stoppedBy.None? && SameSetup(seen, db.rows[id])
    ensures var after := SendDue(db, id, seen, now, NoTrouble).0;
            id in after.rows &&
            (LatestDue(after.rows[id], now).None?
             <==> seen.lastSentAt == db.rows[id].lastSentAt || LatestDue(db.rows[id], now).None?)
  {
    var due := LatestDue(seen, now);
    if seen.lastSentAt == db.rows[id].lastSentAt {
      assert DueFrom(seen) == DueFrom(db.rows[id]);
      if due.Some? {
        assert LatestDue(db.rows[id].(lastSentAt := due), now).None?;
      } else {
        assert LatestDue(db.rows[id], now).None?;
      }
    }
  }

  /**
   * With other hosts in between: a host's try of a running row leaves nothing due at its time exactly when the row's
   * mark is the one the host read, or nothing was due in any case.
   */
  lemma {:induction false} ATryLeavesNothingDueIff(events: seq<Event>, host: nat, id: Id, now: Instant)
    requires var s := Run(EMPTY, events);
             && host in s.seen && id in s.seen[host]
             && (id in s.db.rows ==> s.db.rows[id].stoppedBy.None?)
    ensures var s := Run(EMPTY, events);
            var after := Apply(s, Try(host, id, now, NoTrouble)).db;
            id in s.db.rows && id in after.rows &&
            (LatestDue(after.rows[id], now).None?
             <==> s.seen[host][id].lastSentAt == s.db.rows[id].lastSentAt || LatestDue(s.db.rows[id], now).None?)
  {
    RunKeepsInv(EMPTY, events);
    var s := Run(EMPTY, events);
    ClaimLeavesNothingDueIff(s.db, id, s.seen[host][id], now);
  }

  function Twice(): StandingMessage
  {
    StandingMessage("r", "t", "a", "b", Readable(t => t == 1 || t == 2), 1, None, None)
  }

  /** Two hosts read a message due at 1 and at 2; the second, whose clock says 1, claims first. */
  function SlowClockFirst(): seq<Event>
  {
    [Create("m", Twice()), ReadRunning(0), ReadRunning(1), Try(1, "m", 1, NoTrouble)]
  }

  /** The first host's claim is then lost, no failure is reported, and what it found due at 2 stays due. */
  lemma ALostClaimMayLeaveOneDue()
    ensures var s := Run(EMPTY, SlowClockFirst());
            && 0 in s.seen && "m" in s.seen[0] && "m" in s.db.rows && s.db.rows["m"].lastSentAt == Some(1)
            && SendDue(s.db, "m", s.seen[0]["m"], 2, NoTrouble) == (s.db, Lost)
            && LatestDue(s.db.rows["m"], 2) == Some(2)
  {
    var e, m := SlowClockFirst(), Twice();
    var s1 := EMPTY.(db := Db(map["m" := m], []));
    var s2 := s1.(seen := map[0 := map["m" := m]]);
    var s3 := s1.(seen := map[0 := map["m" := m], 1 := map["m" := m]]);
    assert Running(s1.db.rows) == map["m" := m];
    assert Apply(EMPTY, e[0]) == s1 && Apply(s1, e[1]) == s2 && Apply(s2, e[2]) == s3;
    assert e[1..][1..] == e[2..] && e[2..][1..] == e[3..] && e[3..][1..] == [];
    assert Run(EMPTY, e) == Run(s1, e[1..]) == Run(s2, e[2..]) == Run(s3, e[3..]) == Apply(s3, e[3]);
    LatestOfTwo(m, 1);
    LatestOfTwo(m, 2);
    LatestOfTwo(m.(lastSentAt := Some(1)), 2);
  }

  lemma LatestOfTwo(m: StandingMessage, now: Instant)
    requires m == Twice().(lastSentAt := m.lastSentAt) && 1 <= now <= 2
    requires m.lastSentAt.None? || (m.lastSentAt == Some(1) && now == 2)
    ensures LatestDue(m, now) == Some(now)
  {
    assert m.schedule.occurs(now) && DueFrom(m) <= now;
  }

  lemma NothingOwed(running: Snapshot, now: Instant, trouble: Id -> Trouble)
    requires forall i :: 0 <= i < |running| ==> LatestDue(running[i].1, now).None?
    ensures Owed(running, now, trouble) == [] && Troubled(running, now, trouble) == []
  {}

  /** A second pass at the same or an earlier time posts nothing and changes nothing. */
  lemma SecondPassIsSilent(db: Db, running: Snapshot, now: Instant, again: Snapshot, noLater: Instant,
                           trouble: Id -> Trouble, trouble': Id -> Trouble)
    requires ListsRunning(db, running) && (forall id :: trouble(id).NoTrouble?)
    requires ListsRunning(Pass(db, running, now, trouble).0, again) && noLater <= now
    ensures var db' := Pass(db, running, now, trouble).0;
            var (db'', sent, failed) := Pass(db', again, noLater, trouble');
            sent == [] && failed == [] && db''.posts == db'.posts && db''.rows == db'.rows
  {
    PassOutcome(db, running, now, trouble);
    var db' := Pass(db, running, now, trouble).0;
    forall i | 0 <= i < |again| ensures LatestDue(again[i].1, noLater).None? {
      var id := again[i].0;
      assert id in db.rows && db'.rows[id] == again[i].1;
    }
    NothingOwed(again, noLater, trouble');
    PassOutcome(db', again, noLater, trouble');
  }

  /** A message whose transaction failed keeps its mark and stays due, and every other due message still goes out. */
  lemma FailureIsItsOwn(db: Db, running: Snapshot, now: Instant, trouble: Id -> Trouble, id: Id)
    requires ListsRunning(db, running)
    requires id in db.rows && db.rows[id].stoppedBy.None? && LatestDue(db.rows[id], now).Some?
    ensures var (db', sent, failed) := Pass(db, running, now, trouble);
            if trouble(id).NoTrouble?
            then PostOf(id, db.rows[id], LatestDue(db.rows[id], now).value) in sent && id !in failed
            else
              && id in db'.rows && db'.rows[id] == db.rows[id] && id in failed
              && (forall p :: p in sent ==> p.standing != id)
  {
    PassOutcome(db, running, now, trouble);
    OwedHolds(running, now, trouble, id, db.rows[id]);
  }

  lemma {:induction false} OwedHolds(running: Snapshot, now: Instant, trouble: Id -> Trouble,
                                     id: Id, m: StandingMessage)
    requires forall i, j :: 0 <= i < j < |running| ==> running[i].0 != running[j].0
    ensures (id, m) in running && LatestDue(m, now).Some? ==>
              if trouble(id).NoTrouble? then PostOf(id, m, LatestDue(m, now).value) in Owed(running, now, trouble)
              else id in Troubled(running, now, trouble)
    ensures trouble(id).NoTrouble? ==> id !in Troubled(running, now, trouble)
    ensures !trouble(id).NoTrouble? ==> forall p :: p in Owed(running, now, trouble) ==> p.standing != id
  {
    if running != [] {
      OwedHolds(running[..|running| - 1], now, trouble, id, m);
      assert running == running[..|running| - 1] + [running[|running| - 1]];
    }
  }

  // ---------------------------------------------------------------- the store

  /** How a stop is answered; one that came too late is answered with the row as well. */
  datatype StopReply =
    | StopInvalid
    | StopBroken
    | Unknown
    | Stopped(row: StandingMessage)
    | AlreadyStopped(row: StandingMessage)

  /** One run scope's standing messages, in the `created_at, id` order every listing uses, and the chat they post to. */
  class StandingStore {
    var rows: map<Id, StandingMessage>
    var order: seq<Id>
    var posts: seq<Post>

    ghost predicate Valid()
      reads this
    {
      && (forall i, j :: 0 <= i < j < |order| ==> order[i] != order[j])
      && (forall id :: id in order <==> id in rows)
    }

    ghost function Contents(): Db
      reads this
    {
      Db(rows, posts)
    }

    constructor ()
      ensures Valid() && Contents() == Db(map[], [])
    {
      rows, order, posts := map[], [], [];
    }

    /**
     * Stores a message under a freshly minted id, its body trimmed, unsent and running, if the spec's check of the row
     * passes, its schedule can be read and the insert works. `readsBack` is false if the stored row cannot be read.
     */
    method CreateStanding(id: Id, m: StandingMessage, declared: StandingMessage -> bool, inserts: bool, readsBack: bool)
      returns (answer: Option<StandingMessage>)
      requires Valid() && id !in rows
      modifies this`rows, this`order
      ensures Valid()
      ensures var row := AsStored(m);
              var stored := declared(row) && m.schedule.Readable? && inserts;
              && answer == (if stored && readsBack then Some(row) else None)
              && Contents() == (if stored then Inserted(old(Contents()), id, row) else old(Contents()))
    {
      var row := AsStored(m);
      if !declared(row) { return None; }
      if row.schedule.Unreadable? { return None; }
      if !inserts { return None; }
      rows := rows[id := row];
      order := order + [id];
      answer := if readsBack then Some(rows[id]) else None;
    }

    /**
     * The update of `StopStanding`, then the row read back. `updates` and `readsBack` are whether those statements
     * work; a stop whose row cannot be read back has stopped its message all the same.
     */
    method StopStanding(structure: string, id: Id, who: string, updates: bool, readsBack: bool)
      returns (reply: StopReply)
      requires Valid()
      modifies this`rows
      ensures Valid() && Contents() == if updates then Stop(old(Contents()), structure, id, who) else old(Contents())
      ensures reply.StopInvalid? <==> Blank(who)
      ensures reply.StopBroken? <==> !Blank(who) && !(updates && readsBack)
      ensures reply.Unknown? <==>
                !Blank(who) && updates && readsBack && !(id in old(rows) && old(rows)[id].structure == structure)
      ensures reply.Stopped? ==> id in rows && reply.row == rows[id] && old(rows)[id].stoppedBy.None?
      ensures reply.AlreadyStopped? ==>
                id in rows && reply.row == rows[id] == old(rows)[id] && reply.row.stoppedBy.Some?
    {
      if Blank(who) { return StopInvalid; }
      if !updates { return StopBroken; }
      var matched := id in rows && rows[id].structure == structure && rows[id].stoppedBy.None?;
      if matched { rows := rows[id := rows[id].(stoppedBy := Some(who))]; }
      if !readsBack { return StopBroken; }
      if id !in rows || rows[id].structure != structure { return Unknown; }
      reply := if matched then Stopped(rows[id]) else AlreadyStopped(rows[id]);
    }

    method ListRunning() returns (running: Snapshot)
      requires Valid()
      ensures ListsRunning(Contents(), running)
    {
      running := [];
      for k := 0 to |order|
        invariant forall i, j :: 0 <= i < j < |running| ==> running[i].0 != running[j].0
        invariant forall i :: 0 <= i < |running| ==>
                    && running[i].0 in order[..k] && running[i].0 in rows
                    && rows[running[i].0] == running[i].1 && running[i].1.stoppedBy.None?
        invariant forall id :: id in order[..k] ==>
                  id in rows && (rows[id].stoppedBy.None? ==> (id, rows[id]) in running)
      {
        var m := rows[order[k]];
        assert order[..k + 1] == order[..k] + [order[k]];
        if m.stoppedBy.None? { running := running + [(order[k], m)]; }
      }
    }

    method ClaimAndPost(id: Id, m: StandingMessage, now: Instant, trouble: Trouble) returns (attempt: Attempt)
      requires Valid()
      modifies this`rows, this`posts
      ensures Valid() && (Contents(), attempt) == SendDue(old(Contents()), id, m, now, trouble)
    {
      var due := LatestDue(m, now);
      if due.None? { return NothingDue; }
      if trouble == ClaimBreaks { return Failed; }
      if !(id in rows && rows[id].stoppedBy.None? && rows[id].lastSentAt == m.lastSentAt) { return Lost; }
      if trouble == PostBreaks { return Failed; }
      rows := rows[id := rows[id].(lastSentAt := due)];
      posts := posts + [PostOf(id, m, due.value)];
      attempt := Sent(PostOf(id, m, due.value));
    }

    /** The host's tick, with no other host in between: every running row is tried, whoever fails. */
    method SendDueStandingMessages(now: Instant, trouble: Id -> Trouble) returns (sent: seq<Post>, failed: seq<Id>)
      requires Valid()
      modifies this`rows, this`posts
      ensures Valid()
      ensures exists running ::
                && ListsRunning(old(Contents()), running)
                && (Contents(), sent, failed) == Pass(old(Contents()), running, now, trouble)
      ensures posts == old(posts) + sent
      ensures forall id :: id in old(rows) ==>
                id in rows &&
                rows[id] == if old(rows)[id].stoppedBy.None? then RowAfter(old(rows)[id], now, trouble(id))
                  else old(rows)[id]
    {
      var running := ListRunning();
      sent, failed := [], [];
      for k := 0 to |running|
        invariant Valid()
        invariant (Contents(), sent, failed) == Pass(old(Contents()), running[..k], now, trouble)
      {
        var (id, m) := running[k];
        assert running[..k + 1][..k] == running[..k];
        var attempt := ClaimAndPost(id, m, now, trouble(id));
        match attempt {
          case Failed => failed := failed + [id];
          case Sent(post) => sent := sent + [post];
          case _ =>
        }
      }
      assert running[..|running|] == running;
      PassOutcome(old(Contents()), running, now, trouble);
    }
  }
}
