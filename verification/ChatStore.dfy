/** The chat store's operations over its threads, with any other caller's statements between their own. */
module ChatStores {
  import opened Common
  import opened ChatThreads
  import opened ChatReuse
  import opened ChatRuns

  /** What every other caller does before this call's `k`th statement: threads are added, and move on. */
  type Others = (nat, Db) -> Db

  ghost predicate Polite(others: Others)
  {
    forall k, db {:trigger others(k, db)} :: Consistent(db) ==> MovesOn(db, others(k, db))
  }

  /** Nobody else's statements come between: as in a transaction. */
  function Alone(): (others: Others)
    ensures Polite(others)
  {
    (k, db) => db
  }

  /** The statements of `mintUnlessReusable`, one after another; `works` is false of an insert that breaks by itself. */
  ghost function Mint(db: Db, draft: Thread, reusable: Reuse, at: Instant, works: bool, others: Others): (Db, Call)
  {
    var db1 := others(1, db);
    Finish(db1, AfterRead(db1, draft, reusable), at, works, others)
  }

  /** Those after its first read. */
  ghost function Finish(db: Db, c: Call, at: Instant, works: bool, others: Others): (Db, Call)
  {
    if !c.Minting? then (db, c)
    else
      var db2 := others(2, db);
      var t := c.draft.(createdAt := at);
      if works && CanInsert(db2, t) then (Insert(db2, t), Over(Answered(t, true, c.asked, c.reusable, c.refused)))
      else (others(3, db2), AfterReread(others(3, db2), c.draft, c.asked, c.reusable, c.refused))
  }

  /** What the caller of a start is left with. */
  ghost function Told(end: (Db, Call)): (Db, Option<(Thread, bool)>)
  {
    (end.0, if end.1.Over? && end.1.outcome.Answered? then Some((end.1.outcome.thread, end.1.outcome.minted)) else None)
  }

  predicate Usable(existing: Option<Thread>, reusable: Reuse)
  {
    existing.Some? && existing.value.declined.None? && reusable(existing.value)
  }

  /** Where the draft goes when what is there may not be reused. */
  function Placed(existing: Option<Thread>, draft: Thread): Thread
  {
    if existing.Some? then draft.(path := Aside(draft.path, draft.id)) else draft
  }

  lemma MintReuses(db: Db, draft: Thread, reusable: Reuse, at: Instant, works: bool, others: Others)
    requires Usable(Resolve(others(1, db), SlotOf(draft)), reusable)
    ensures Told(Mint(db, draft, reusable, at, works, others))
            == (others(1, db), Some((Resolve(others(1, db), SlotOf(draft)).value, false)))
  {}

  lemma MintGoesOn(db1: Db, draft: Thread, reusable: Reuse)
    requires !Usable(Resolve(db1, SlotOf(draft)), reusable)
    ensures AfterRead(db1, draft, reusable)
            == Minting(Placed(Resolve(db1, SlotOf(draft)), draft), draft.path, reusable, Resolve(db1, SlotOf(draft)))
  {}

  lemma MintInserts(db: Db, draft: Thread, reusable: Reuse, at: Instant, works: bool, others: Others, t: Thread)
    requires !Usable(Resolve(others(1, db), SlotOf(draft)), reusable)
    requires t == Placed(Resolve(others(1, db), SlotOf(draft)), draft).(createdAt := at)
    requires works && CanInsert(others(2, others(1, db)), t)
    ensures Told(Mint(db, draft, reusable, at, works, others)) == (Insert(others(2, others(1, db)), t), Some((t, true)))
  {
    MintGoesOn(others(1, db), draft, reusable);
  }

  lemma MintRereads(db: Db, draft: Thread, reusable: Reuse, at: Instant, works: bool, others: Others,
                    d: Thread, db3: Db)
    requires !Usable(Resolve(others(1, db), SlotOf(draft)), reusable)
    requires d == Placed(Resolve(others(1, db), SlotOf(draft)), draft)
    requires !(works && CanInsert(others(2, others(1, db)), d.(createdAt := at)))
    requires db3 == others(3, others(2, others(1, db)))
    ensures var existing := Resolve(db3, SlotOf(d));
            Told(Mint(db, draft, reusable, at, works, others))
            == (db3, if Usable(existing, reusable) then Some((existing.value, false)) else None)
  {
    MintGoesOn(others(1, db), draft, reusable);
  }

  lemma MintMovesOn(db: Db, draft: Thread, reusable: Reuse, at: Instant, works: bool, others: Others)
    requires Consistent(db) && Polite(others)
    ensures MovesOn(db, Mint(db, draft, reusable, at, works, others).0)
  {
    var db1 := others(1, db);
    var c := AfterRead(db1, draft, reusable);
    if c.Minting? {
      var db2 := others(2, db1);
      var t := c.draft.(createdAt := at);
      MovesOnTransitively(db, db1, db2);
      if works && CanInsert(db2, t) {
        InsertMovesOn(db2, t);
        MovesOnTransitively(db, db2, Insert(db2, t));
      } else {
        MovesOnTransitively(db, db2, others(3, db2));
      }
    }
  }

  lemma MintKeepsTheIndex(db: Db, draft: Thread, reusable: Reuse, at: Instant, works: bool, others: Others)
    requires Consistent(db) && Polite(others)
    ensures Consistent(Mint(db, draft, reusable, at, works, others).0)
  {
    MintMovesOn(db, draft, reusable, at, works, others);
  }

  /** True of an answer the store bears out: the caller's own draft, or an undeclined thread it may reuse. */
  ghost predicate Fits(db: Db, draft: Thread, reusable: Reuse, at: Instant, c: Call)
  {
    && c.Over?
    && match c.outcome
       case Answered(t, minted, _, _, _) =>
         && t.id in db.threads && db.threads[t.id] == t && t.room == draft.room && t.declined.None?
         && (t.path == draft.path || t.path == Aside(draft.path, draft.id))
         && if minted then t == draft.(createdAt := at, path := t.path) else reusable(t)
       case Conflicted => true
       case _ => false
  }

  lemma ReadFits(db: Db, draft: Thread, reusable: Reuse, at: Instant)
    requires Consistent(db)
    ensures match AfterRead(db, draft, reusable)
            case Minting(d, _, _, _) =>
              d == draft.(path := d.path) && (d.path == draft.path || d.path == Aside(draft.path, draft.id))
            case c => Fits(db, draft, reusable, at, c)
  {}

  lemma RereadFits(db: Db, d: Thread, asked: string, draft: Thread, reusable: Reuse,
                   refused: Option<Thread>, at: Instant)
    requires Consistent(db)
    requires d == draft.(path := d.path) && (d.path == draft.path || d.path == Aside(draft.path, draft.id))
    ensures Fits(db, draft, reusable, at, AfterReread(db, d, asked, reusable, refused))
  {}

  /** A start that succeeds answers a thread of its label that is stored as answered. */
  lemma MintFits(db: Db, draft: Thread, reusable: Reuse, at: Instant, works: bool, others: Others)
    requires Consistent(db) && Polite(others) && draft.declined.None?
    ensures var (after, c) := Mint(db, draft, reusable, at, works, others); Fits(after, draft, reusable, at, c)
  {
    var db1 := others(1, db);
    ReadFits(db1, draft, reusable, at);
    var c := AfterRead(db1, draft, reusable);
    if c.Minting? {
      var db2 := others(2, db1);
      if !(works && CanInsert(db2, c.draft.(createdAt := at))) {
        RereadFits(others(3, db2), c.draft, c.asked, draft, reusable, c.refused, at);
      }
    }
  }

  /** An undisturbed start by a caller who reuses anything. */
  ghost function Lone(db: Db, draft: Thread, at: Instant): (Db, Option<(Thread, bool)>)
  {
    Told(Mint(db, draft, Anything(), at, true, Alone()))
  }

  lemma LoneReuses(db: Db, draft: Thread, at: Instant)
    requires Usable(Resolve(db, SlotOf(draft)), Anything())
    ensures Lone(db, draft, at) == (db, Some((Resolve(db, SlotOf(draft)).value, false)))
  {
    MintReuses(db, draft, Anything(), at, true, Alone());
  }

  lemma LoneInserts(db: Db, draft: Thread, at: Instant, t: Thread)
    requires !Usable(Resolve(db, SlotOf(draft)), Anything())
    requires t == Placed(Resolve(db, SlotOf(draft)), draft).(createdAt := at) && CanInsert(db, t)
    ensures Lone(db, draft, at) == (Insert(db, t), Some((t, true)))
  {
    MintInserts(db, draft, Anything(), at, true, Alone(), t);
  }

  lemma LoneAfterFree(db: Db, draft: Thread, again: Thread, at: Instant, later: Instant)
    requires SlotOf(draft) !in db.index && draft.id !in db.threads && draft.declined.None?
             && SlotOf(again) == SlotOf(draft)
    ensures var (db1, first) := Lone(db, draft, at);
            first == Some((draft.(createdAt := at), true))
              && Lone(db1, again, later).1 == Some((draft.(createdAt := at), false))
  {
    var t := draft.(createdAt := at);
    LoneInserts(db, draft, at, t);
    assert Resolve(Insert(db, t), SlotOf(again)) == Some(t);
    LoneReuses(Insert(db, t), again, later);
  }

  lemma LoneAfterDeclined(db: Db, draft: Thread, again: Thread, at: Instant, later: Instant)
    requires Consistent(db) && SlotOf(draft) in db.index && db.threads[db.index[SlotOf(draft)]].declined.Some?
    requires again == draft.(id := again.id) && Suffix(draft.id) != Suffix(again.id)
    requires draft.id !in db.threads && again.id !in db.threads
    requires (draft.room, Aside(draft.path, draft.id)) !in db.index
             && (draft.room, Aside(draft.path, again.id)) !in db.index
    ensures var (db1, first) := Lone(db, draft, at);
            && first == Some((draft.(createdAt := at, path := Aside(draft.path, draft.id)), true))
            && Lone(db1, again, later).1
              == Some((again.(createdAt := later, path := Aside(draft.path, again.id)), true))
  {
    var t := draft.(createdAt := at, path := Aside(draft.path, draft.id));
    LoneInserts(db, draft, at, t);
    var db1 := Insert(db, t);
    assert Aside(draft.path, draft.id)[|draft.path| + 1..] == Suffix(draft.id);
    assert Aside(draft.path, again.id)[|draft.path| + 1..] == Suffix(again.id);
    assert Resolve(db1, SlotOf(again)) == Resolve(db, SlotOf(draft));
    LoneInserts(db1, again, later, again.(createdAt := later, path := Aside(draft.path, again.id)));
  }

  /**
   * Two starts of one label, one after the other and neither disturbed, by callers who reuse anything: both are
   * answered, and the second is answered the first one's thread exactly when no declined thread holds the label's path.
   */
  lemma LoneStartsAnswerOneIff(db: Db, draft: Thread, again: Thread, at: Instant, later: Instant)
    requires Consistent(db) && draft.declined.None? && again == draft.(id := again.id)
    requires draft.id !in db.threads && again.id !in db.threads && Suffix(draft.id) != Suffix(again.id)
    requires (draft.room, Aside(draft.path, draft.id)) !in db.index
             && (draft.room, Aside(draft.path, again.id)) !in db.index
    ensures var (db1, first) := Lone(db, draft, at);
            var second := Lone(db1, again, later).1;
            && first.Some? && second.Some?
            && (second.value.0.id == first.value.0.id
                <==> (SlotOf(draft) in db.index ==> db.threads[db.index[SlotOf(draft)]].declined.None?))
  {
    if SlotOf(draft) !in db.index {
      LoneAfterFree(db, draft, again, at, later);
    } else if db.threads[db.index[SlotOf(draft)]].declined.Some? {
      LoneAfterDeclined(db, draft, again, at, later);
    } else {
      LoneReuses(db, draft, at);
      LoneReuses(db, again, later);
    }
  }

  /** How the update of a decline leaves the thread it read, which only moved on since. */
  lemma DeclineLands(db: Db, read: Thread, how: Decline)
    requires Consistent(db) && Declinable(read) && read.id in db.threads && SameThread(read, db.threads[read.id])
    requires Stage(db.threads[read.id]) == 2 ==> db.threads[read.id].path == read.path
    ensures var aside := Aside(read.path, read.id);
            var (after, update) := DeclineUpdate(db, read.room, read.id, how, aside);
            match update
            case Matched =>
              read.id in after.threads && after.threads[read.id] == read.(declined := Some(how), path := aside)
            case Unmatched => Stage(db.threads[read.id]) <= 1
            case Clash =>
              && after == db && Stage(db.threads[read.id]) == 2
              && (read.room, aside) in db.index && db.index[(read.room, aside)] != read.id
  {}

  /** How often a thread can still move on; one not yet there may move on most. */
  ghost function Left(db: Db, id: string): nat
  {
    if id in db.threads then Stage(db.threads[id]) else 3
  }

  lemma LeftFalls(db: Db, room: string, id: string, who: string, how: Decline, others: Others, k: nat)
    requires Consistent(db) && Polite(others)
    requires AfterDeclineRead(others(k, db), room, id, who, 0).DecliningRead?
    requires !DeclineMatches(others(k + 1, others(k, db)), room, id)
    ensures Left(others(k + 1, others(k, db)), id) < Left(db, id)
  {
    assert MovesOn(db, others(k, db)) && MovesOn(others(k, db), others(k + 1, others(k, db)));
  }

  /** The statements of `DeclineThread`: it calls itself only when others moved the thread on, so it ends. */
  ghost function DeclineOf(db: Db, room: string, id: string, who: string, at: Instant, others: Others,
                           k: nat): (Db, Outcome)
    requires Consistent(db) && Polite(others)
    decreases Left(db, id)
  {
    var db1 := others(k, db);
    var c := AfterDeclineRead(db1, room, id, who, 0);
    if !c.DecliningRead? then (db1, c.outcome)
    else
      var db2 := others(k + 1, db1);
      var how, aside := Decline(at, who), Aside(c.read.path, id);
      var (after, update) := DeclineUpdate(db2, room, id, how, aside);
      match update
      case Matched => (after, DeclineAnswered(c.read.(declined := Some(how), path := aside), true))
      case Clash => (db2, Conflicted)
      case Unmatched =>
        LeftFalls(db, room, id, who, how, others, k);
        DeclineOf(db2, room, id, who, at, others, k + 2)
  }

  /** What each answer of `DeclineThread` says of the store it leaves. */
  ghost predicate AnswerHolds(db: Db, db': Db, room: string, id: string, how: Decline, outcome: Outcome)
  {
    match outcome
    case DeclineAnswered(t, now) =>
      && id in db'.threads && db'.threads[id] == t && t.room == room && t.declined.Some?
      && (now ==> t.declined == Some(how) && Left(db, id) >= 2)
    case NotDeclinable => id in db'.threads && db'.threads[id].declined.None? && !Declinable(db'.threads[id])
    case NotFound => id !in db'.threads || db'.threads[id].room != room
    case Conflicted =>
      && id in db'.threads && Stage(db'.threads[id]) == 2
      && (room, Aside(db'.threads[id].path, id)) in db'.index
      && db'.index[(room, Aside(db'.threads[id].path, id))] != id
    case _ => false
  }

  /** What the update of a decline answers of a thread read at `db1`. */
  lemma UpdateAnswers(db: Db, db1: Db, db2: Db, room: string, id: string, how: Decline)
    requires Consistent(db) && MovesOn(db, db1) && MovesOn(db1, db2)
    requires id in db1.threads && db1.threads[id].room == room && Declinable(db1.threads[id])
    ensures var t := db1.threads[id];
            var (after, update) := DeclineUpdate(db2, room, id, how, Aside(t.path, id));
            && MovesOn(db, after) && MovesOn(db, db2)
            && match update
               case Matched =>
                 AnswerHolds(db, after, room, id, how,
                             DeclineAnswered(t.(declined := Some(how), path := Aside(t.path, id)), true))
               case Clash => after == db2 && AnswerHolds(db, after, room, id, how, Conflicted)
               case Unmatched => after == db2 && Left(db2, id) <= 1 < Left(db, id)
  {
    var t := db1.threads[id];
    MovesOnTransitively(db, db1, db2);
    DeclineMovesOn(db2, room, id, how, Aside(t.path, id));
    DeclineLands(db2, t, how);
    MovesOnTransitively(db, db2, DeclineUpdate(db2, room, id, how, Aside(t.path, id)).0);
  }

  class ChatStore {
    var db: Db

    ghost predicate Valid()
      reads this
    {
      Consistent(db)
    }

    constructor ()
      ensures Valid() && db == Db(map[], map[])
    {
      db := Db(map[], map[]);
    }

    method MintUnlessReusable(draft: Thread, reusable: Reuse, at: Instant, works: bool, others: Others)
      returns (answer: Option<(Thread, bool)>)
      requires Valid() && Polite(others)
      modifies this
      ensures Valid()
      ensures (db, answer) == Told(Mint(old(db), draft, reusable, at, works, others))
    {
      MintKeepsTheIndex(db, draft, reusable, at, works, others);
      db := others(1, db);
      var d := draft;
      var existing := Resolve(db, SlotOf(d));
      if existing.Some? {
        if existing.value.declined.None? && reusable(existing.value) {
          MintReuses(old(db), draft, reusable, at, works, others);
          return Some((existing.value, false));
        }
        d := d.(path := Aside(d.path, d.id));
      }
      db := others(2, db);
      var t := d.(createdAt := at);
      if works && CanInsert(db, t) {
        MintInserts(old(db), draft, reusable, at, works, others, t);
        db := Insert(db, t);
        return Some((t, true));
      }
      db := others(3, db);
      MintRereads(old(db), draft, reusable, at, works, others, d, db);
      existing := Resolve(db, SlotOf(d));
      if existing.Some? && existing.value.declined.None? && reusable(existing.value) {
        return Some((existing.value, false));
      }
      answer := None;
    }

    /** Declines a thread. `rounds` is how often its first read ran. */
    method DeclineThread(room: string, id: string, who: string, at: Instant, others: Others, k: nat)
      returns (outcome: Outcome, rounds: nat)
      requires Valid() && Polite(others)
      modifies this
      decreases Left(db, id)
      ensures Valid() && MovesOn(old(db), db) && (db, outcome) == DeclineOf(old(db), room, id, who, at, others, k)
      ensures rounds <= if Left(old(db), id) <= 1 then 1 else 2
      ensures AnswerHolds(old(db), db, room, id, Decline(at, who), outcome)
    {
      db := others(k, db);
      if id !in db.threads || db.threads[id].room != room { return NotFound, 1; }
      ghost var db1 := db;
      var t := db.threads[id];
      if t.declined.Some? { return DeclineAnswered(t, false), 1; }
      if !Declinable(t) { return NotDeclinable, 1; }
      db := others(k + 1, db);
      ghost var db2 := db;
      var aside := Aside(t.path, t.id);
      var how := Decline(at, who);
      UpdateAnswers(old(db), db1, db2, room, id, how);
      var (after, update) := DeclineUpdate(db, room, id, how, aside);
      db := after;
      match update {
        case Matched => return DeclineAnswered(t.(declined := Some(how), path := aside), true), 1;
        case Clash => return Conflicted, 1;
        case Unmatched =>
          outcome, rounds := DeclineThread(room, id, who, at, others, k + 2);
          MovesOnTransitively(old(db), db2, db);
          rounds := rounds + 1;
      }
    }

    /** Opens a thread to the group: whatever others do meanwhile, it is the group's and undeclined from then on. */
    method OpenThread(room: string, id: string, others: Others) returns (answer: Option<Thread>)
      requires Valid() && Polite(others)
      modifies this
      ensures Valid() && MovesOn(old(db), db)
      ensures answer.None? <==> id !in others(1, old(db)).threads || others(1, old(db)).threads[id].room != room
      ensures var db1 := others(1, old(db));
              db == if answer.None? || (id in db1.threads && db1.threads[id].audience.Group?) then db1
                    else OpenUpdate(others(2, db1), room, id)
      ensures answer.Some? ==>
                && id in db.threads && Stage(db.threads[id]) == 0 && SameThread(answer.value, db.threads[id])
                && Stage(answer.value) == 0 && (Left(old(db), id) <= 2 ==> old(db).threads[id].room == room)
    {
      db := others(1, db);
      if id !in db.threads || db.threads[id].room != room { return None; }
      var t := db.threads[id];
      if t.audience.Group? { return Some(t); }
      ghost var db1 := db;
      db := others(2, db);
      ghost var db2 := db;
      MovesOnTransitively(old(db), db1, db);
      OpenMovesOn(db, room, id);
      db := OpenUpdate(db, room, id);
      MovesOnTransitively(old(db), db2, db);
      answer := Some(t.(audience := Group, declined := None));
    }
  }
}
