/** Chat threads: the table, its unique index, and the statements that start, decline and open threads. */
module ChatThreads {
  import opened Common

  datatype Audience = Leads | Group

  datatype Decline = Decline(at: Instant, who: string)

  datatype Thread = Thread(id: string, room: string, path: string, tag: string, audience: Audience,
                           requestedBy: string, declined: Option<Decline>, createdAt: Instant)

  predicate Declinable(t: Thread)
  {
    t.declined.None? && t.audience.Leads? && t.requestedBy != ""
  }

  predicate ReadableBy(t: Thread, actor: string, leads: bool)
  {
    !t.audience.Leads? || leads || (actor != "" && actor == t.requestedBy)
  }

  // ---------------------------------------------------------------- paths

  const PREFIX := "cthread-"

  function Suffix(id: string): string
  {
    if PREFIX <= id then id[|PREFIX|..] else id
  }

  /** A path moved aside for the thread `id`. */
  function Aside(path: string, id: string): (aside: string)
    ensures |aside| > |path|
  {
    path + "-" + Suffix(id)
  }

  // ---------------------------------------------------------------- the table and its unique index

  /** What the index is unique on: a room and a path. */
  type Slot = (string, string)

  datatype Db = Db(threads: map<string, Thread>, index: map<Slot, string>)

  function SlotOf(t: Thread): Slot { (t.room, t.path) }

  ghost predicate Consistent(db: Db)
  {
    && (forall id :: id in db.threads ==>
          db.threads[id].id == id && SlotOf(db.threads[id]) in db.index && db.index[SlotOf(db.threads[id])] == id)
    && (forall slot :: slot in db.index ==>
          db.index[slot] in db.threads && SlotOf(db.threads[db.index[slot]]) == slot)
  }

  /** What the index is for: no two threads share a room and a path. */
  lemma OneThreadASlot(db: Db, i: string, j: string)
    requires Consistent(db) && i in db.threads && j in db.threads
    requires SlotOf(db.threads[i]) == SlotOf(db.threads[j])
    ensures i == j
  {
    assert db.index[SlotOf(db.threads[i])] == i;
    assert db.index[SlotOf(db.threads[j])] == j;
  }

  function Resolve(db: Db, slot: Slot): Option<Thread>
  {
    if slot in db.index && db.index[slot] in db.threads then Some(db.threads[db.index[slot]]) else None
  }

  /** The index finds a thread wherever there is one. */
  lemma ResolveFindsIt(db: Db, slot: Slot)
    requires Consistent(db)
    ensures Resolve(db, slot).None? <==> forall id :: id in db.threads ==> SlotOf(db.threads[id]) != slot
  {
    if slot in db.index { assert SlotOf(db.threads[db.index[slot]]) == slot; }
  }

  predicate CanInsert(db: Db, t: Thread)
  {
    t.id !in db.threads && SlotOf(t) !in db.index
  }

  function Insert(db: Db, t: Thread): Db
  {
    Db(db.threads[t.id := t], db.index[SlotOf(t) := t.id])
  }

  /** How an update met the table: it matched its row, matched none, or its new path was taken. */
  datatype Update = Matched | Unmatched | Clash

  predicate DeclineMatches(db: Db, room: string, id: string)
  {
    id in db.threads && db.threads[id].room == room && db.threads[id].audience.Leads? && db.threads[id].declined.None?
  }

  /** The conditional update of a decline. */
  function DeclineUpdate(db: Db, room: string, id: string, how: Decline, aside: string): (Db, Update)
  {
    if !DeclineMatches(db, room, id) then (db, Unmatched)
    else if (room, aside) in db.index && db.index[(room, aside)] != id then (db, Clash)
    else
      var t := db.threads[id];
      (Db(db.threads[id := t.(declined := Some(how), path := aside)],
          (db.index - {SlotOf(t)})[(room, aside) := id]),
       Matched)
  }

  /** The update of an open. */
  function OpenUpdate(db: Db, room: string, id: string): Db
  {
    if id in db.threads && db.threads[id].room == room
    then db.(threads := db.threads[id := db.threads[id].(audience := Group, declined := None)])
    else db
  }

  // ---------------------------------------------------------------- how threads change

  /** Undeclined and with the leads, then declined, then the group's. */
  function Stage(t: Thread): nat
  {
    if t.audience.Group? then 0 else if t.declined.Some? then 1 else 2
  }

  /** The columns nothing changes. */
  ghost predicate SameThread(t: Thread, u: Thread)
  {
    t.id == u.id && t.room == u.room && t.tag == u.tag && t.requestedBy == u.requestedBy && t.createdAt == u.createdAt
  }

  /** What any number of other hosts' statements may do: threads are added, and only ever move on. */
  ghost predicate MovesOn(before: Db, after: Db)
  {
    && Consistent(after)
    && forall id :: id in before.threads ==>
         && id in after.threads && SameThread(before.threads[id], after.threads[id])
         && Stage(after.threads[id]) <= Stage(before.threads[id])
         && (Stage(after.threads[id]) == 2 ==> after.threads[id].path == before.threads[id].path)
  }

  lemma MovesOnTransitively(a: Db, b: Db, c: Db)
    requires MovesOn(a, b) && MovesOn(b, c)
    ensures MovesOn(a, c)
  {
    forall id | id in a.threads
      ensures && id in c.threads && SameThread(a.threads[id], c.threads[id])
              && Stage(c.threads[id]) <= Stage(a.threads[id])
              && (Stage(c.threads[id]) == 2 ==> c.threads[id].path == a.threads[id].path)
    {
      assert id in b.threads && SameThread(a.threads[id], b.threads[id]);
    }
  }

  lemma InsertMovesOn(db: Db, t: Thread)
    requires Consistent(db) && CanInsert(db, t)
    ensures MovesOn(db, Insert(db, t))
  {}

  lemma DeclineKeepsTheIndex(db: Db, room: string, id: string, how: Decline, aside: string)
    requires Consistent(db)
    ensures Consistent(DeclineUpdate(db, room, id, how, aside).0)
  {
    var (after, update) := DeclineUpdate(db, room, id, how, aside);
    if update.Matched? {
      forall i | i in after.threads
        ensures after.threads[i].id == i && SlotOf(after.threads[i]) in after.index
                && after.index[SlotOf(after.threads[i])] == i
      {
        if i != id { assert SlotOf(db.threads[i]) != SlotOf(db.threads[id]); }
      }
    }
  }

  lemma DeclineMovesOn(db: Db, room: string, id: string, how: Decline, aside: string)
    requires Consistent(db)
    ensures MovesOn(db, DeclineUpdate(db, room, id, how, aside).0)
  {
    DeclineKeepsTheIndex(db, room, id, how, aside);
  }

  /** A decline that matches leaves its thread's old slot to nobody. */
  lemma MatchedDeclineFreesTheSlot(db: Db, read: Thread, how: Decline)
    requires Consistent(db) && DeclineMatches(db, read.room, read.id) && db.threads[read.id].path == read.path
    requires DeclineUpdate(db, read.room, read.id, how, Aside(read.path, read.id)).1.Matched?
    ensures var after := DeclineUpdate(db, read.room, read.id, how, Aside(read.path, read.id)).0;
            && SlotOf(read) !in after.index && SlotOf(read) in db.index && db.index[SlotOf(read)] == read.id
            && read.id in after.threads && after.threads[read.id].declined.Some?
            && after.threads[read.id].path == Aside(read.path, read.id)
  {
    assert SlotOf(db.threads[read.id]) == SlotOf(read);
  }

  lemma OpenMovesOn(db: Db, room: string, id: string)
    requires Consistent(db)
    ensures MovesOn(db, OpenUpdate(db, room, id))
  {}
}
