/** Starts of one label converge: what becomes of the slot a label names while nobody declines there. */
module ChatStarts {
  import opened Common
  import opened ChatThreads
  import opened ChatRuns

  /** Whether a thread read as `read` sat at the slot, or would be moved there by its decline. */
  ghost predicate Touches(read: Thread, slot: Slot)
  {
    read.room == slot.0 && (read.path == slot.1 || Aside(read.path, read.id) == slot.1)
  }

  /** How the update of a decline meets the table. */
  ghost function UpdateOf(db: Db, read: Thread, how: Decline): Update
  {
    DeclineUpdate(db, read.room, read.id, how, Aside(read.path, read.id)).1
  }

  /** True of a step that declines the thread at a slot, or moves a declined thread onto it. */
  ghost predicate DeclinesAt(s: Sys, e: Event, slot: Slot)
  {
    && e.Step? && e.call in s.calls && s.calls[e.call].DecliningRead?
    && var c := s.calls[e.call];
       Touches(c.read, slot) && UpdateOf(s.db, c.read, Decline(e.at, c.who)).Matched?
  }

  /** No step of the run declines at the slot. */
  ghost predicate QuietRun(s: Sys, events: seq<Event>, slot: Slot)
    decreases |events|
  {
    events == [] || (!DeclinesAt(s, events[0], slot) && QuietRun(Apply(s, events[0]), events[1..], slot))
  }

  /** The thread was read as `t`, and is still stored. */
  ghost predicate IsNow(db: Db, t: Thread)
  {
    t.id in db.threads && SameThread(t, db.threads[t.id])
  }

  /** A call for the slot met this thread there, and could not reuse it. */
  ghost predicate Met(db: Db, slot: Slot, reusable: Reuse, refused: Option<Thread>)
  {
    refused.Some? ==>
      && slot in db.index && db.index[slot] == refused.value.id && !reusable(refused.value)
      && refused.value.declined.None? && IsNow(db, refused.value)
  }

  /** What holds of a call for the slot that began while the slot was quiet. */
  ghost predicate CallAtSlot(db: Db, slot: Slot, c: Call)
  {
    match c
    case Minting(draft, asked, reusable, refused) =>
      (draft.room, asked) == slot ==> Met(db, slot, reusable, refused)
    case Rereading(draft, asked, reusable, refused) =>
      (draft.room, asked) == slot ==> Met(db, slot, reusable, refused)
    case Over(Answered(t, minted, asked, reusable, refused)) =>
      (t.room, asked) == slot ==>
        && Met(db, slot, reusable, refused)
        && (refused.None? ==> slot in db.index && db.index[slot] == t.id)
    case _ => true
  }

  /** The slot watched, and the calls, the threads and the slot's own thread there were when the watch began. */
  datatype Watch = Watch(slot: Slot, earlier: set<nat>, existing: set<string>, held: Option<string>)

  ghost predicate SlotInv(s: Sys, w: Watch)
    requires Consistent(s.db)
  {
    && w.existing <= s.db.threads.Keys
    && (w.held.Some? ==> w.slot in s.db.index && s.db.index[w.slot] == w.held.value)
    && (w.held.None? && w.slot in s.db.index ==> s.db.index[w.slot] !in w.existing)
    && (w.slot in s.db.index ==> s.db.threads[s.db.index[w.slot]].declined.None?)
    && forall c :: c in s.calls && c !in w.earlier ==> CallAtSlot(s.db, w.slot, s.calls[c])
  }

  /** The slot's thread stays the slot's thread, undeclined; an empty slot may be filled, by a new thread. */
  ghost predicate SlotStays(before: Db, after: Db, slot: Slot)
  {
    && before.threads.Keys <= after.threads.Keys
    && (slot !in before.index && slot in after.index ==> after.index[slot] !in before.threads)
    && (slot in before.index ==> slot in after.index && after.index[slot] == before.index[slot])
    && (slot in before.index && before.index[slot] in before.threads ==>
        IsNow(after, before.threads[before.index[slot]]))
    && (slot in after.index ==> after.index[slot] in after.threads && after.threads[after.index[slot]].declined.None?)
  }

  lemma CallStaysAtSlot(before: Db, after: Db, slot: Slot, c: Call)
    requires SlotStays(before, after, slot) && CallAtSlot(before, slot, c)
    ensures CallAtSlot(after, slot, c)
  {}

  lemma StepKeepsSlot(s: Sys, s': Sys, call: nat, c: Call, w: Watch)
    requires Inv(s) && SlotInv(s, w) && Consistent(s'.db)
    requires s'.calls == s.calls[call := c] && SlotStays(s.db, s'.db, w.slot)
    requires call !in w.earlier ==> CallAtSlot(s'.db, w.slot, c)
    ensures SlotInv(s', w)
  {
    forall d | d in s'.calls && d !in w.earlier ensures CallAtSlot(s'.db, w.slot, s'.calls[d]) {
      if d != call { CallStaysAtSlot(s.db, s'.db, w.slot, s.calls[d]); }
    }
  }

  lemma ReadAtSlot(s: Sys, w: Watch, draft: Thread, reusable: Reuse)
    requires Inv(s) && SlotInv(s, w)
    ensures CallAtSlot(s.db, w.slot, AfterRead(s.db, draft, reusable))
  {}

  lemma RereadAtSlot(s: Sys, slot: Slot, call: nat, draft: Thread, asked: string, reusable: Reuse,
                     refused: Option<Thread>)
    requires Inv(s) && CallInv(s, call, Rereading(draft, asked, reusable, refused))
    requires CallAtSlot(s.db, slot, Rereading(draft, asked, reusable, refused))
    ensures CallAtSlot(s.db, slot, AfterReread(s.db, draft, asked, reusable, refused))
  {}

  lemma MintAtSlot(s: Sys, w: Watch, call: nat, draft: Thread, asked: string, reusable: Reuse,
                   refused: Option<Thread>, at: Instant)
    requires Inv(s) && SlotInv(s, w)
    requires call in s.calls && s.calls[call] == Minting(draft, asked, reusable, refused)
    requires CanInsert(s.db, draft.(createdAt := at))
    ensures Consistent(Advance(s, call, at).db) && SlotInv(Advance(s, call, at), w)
  {
    InsertMovesOn(s.db, draft.(createdAt := at));
    var t := draft.(createdAt := at);
    var c := Over(Answered(t, true, asked, reusable, refused));
    assert CallInv(s, call, s.calls[call]);
    assert SlotStays(s.db, Insert(s.db, t), w.slot);
    if call !in w.earlier { assert CallAtSlot(s.db, w.slot, s.calls[call]); }
    StepKeepsSlot(s, Advance(s, call, at), call, c, w);
  }

  /** A decline elsewhere leaves the slot alone. */
  lemma DeclineElsewhere(s: Sys, slot: Slot, call: nat, read: Thread, who: string, round: nat, how: Decline)
    requires Inv(s) && CallInv(s, call, DecliningRead(read, who, round))
    requires slot in s.db.index ==> s.db.threads[s.db.index[slot]].declined.None?
    requires !Touches(read, slot)
    ensures SlotStays(s.db, DeclineUpdate(s.db, read.room, read.id, how, Aside(read.path, read.id)).0, slot)
  {
    if DeclineMatches(s.db, read.room, read.id) {
      assert SlotOf(s.db.threads[read.id]) == SlotOf(read);
    }
  }

  /** A call that is not a start has nothing to do with the slot. */
  ghost predicate NoStart(c: Call)
  {
    c.Declining? || c.DecliningRead? || c.Opening? || c.OpeningRead? || (c.Over? && !c.outcome.Answered?)
  }

  lemma WriteKeepsSlot(s: Sys, db: Db, call: nat, c: Call, w: Watch)
    requires Inv(s) && SlotInv(s, w) && Consistent(db) && SlotStays(s.db, db, w.slot) && NoStart(c)
    ensures SlotInv(Turn(s.(db := db), call, c), w)
  {
    StepKeepsSlot(s, Turn(s.(db := db), call, c), call, c, w);
  }

  lemma DeclineAtSlot(s: Sys, w: Watch, call: nat, read: Thread, who: string, round: nat, at: Instant)
    requires Inv(s) && SlotInv(s, w) && CallInv(s, call, DecliningRead(read, who, round))
    requires Touches(read, w.slot) ==> !UpdateOf(s.db, read, Decline(at, who)).Matched?
    ensures Consistent(AdvanceDecline(s, call, read, who, round, at).db)
    ensures SlotInv(AdvanceDecline(s, call, read, who, round, at), w)
  {
    var how, aside := Decline(at, who), Aside(read.path, read.id);
    var (db, update) := DeclineUpdate(s.db, read.room, read.id, how, aside);
    if update.Matched? { DeclineElsewhere(s, w.slot, call, read, who, round, how); }
    DeclineKeepsTheIndex(s.db, read.room, read.id, how, aside);
    match update
    case Matched =>
      WriteKeepsSlot(s, db, call, Over(DeclineAnswered(read.(declined := Some(how), path := aside), true)), w);
    case Unmatched => WriteKeepsSlot(s, s.db, call, Declining(read.room, read.id, who, round + 1), w);
    case Clash => WriteKeepsSlot(s, s.db, call, Over(Conflicted), w);
  }

  lemma OpenAtSlot(s: Sys, w: Watch, call: nat, read: Thread)
    requires Inv(s) && SlotInv(s, w)
    ensures var c := Over(Opened(read.(audience := Group, declined := None)));
            var db := OpenUpdate(s.db, read.room, read.id);
            Consistent(db) && SlotInv(Turn(s.(db := db), call, c), w)
  {
    OpenMovesOn(s.db, read.room, read.id);
    WriteKeepsSlot(s, OpenUpdate(s.db, read.room, read.id), call,
                   Over(Opened(read.(audience := Group, declined := None))), w);
  }

  /** A step that writes nothing. */
  lemma ReadKeepsSlot(s: Sys, call: nat, c: Call, w: Watch)
    requires Inv(s) && SlotInv(s, w)
    requires call !in w.earlier ==> CallAtSlot(s.db, w.slot, c)
    ensures SlotInv(Turn(s, call, c), w)
  {
    StepKeepsSlot(s, Turn(s, call, c), call, c, w);
  }

  lemma StartKeepsSlot(s: Sys, w: Watch, call: nat, at: Instant)
    requires Inv(s) && SlotInv(s, w) && call in s.calls
    requires s.calls[call].Starting? || s.calls[call].Minting? || s.calls[call].Rereading?
    ensures Consistent(Advance(s, call, at).db) && SlotInv(Advance(s, call, at), w)
  {
    assert CallInv(s, call, s.calls[call]);
    match s.calls[call]
    case Starting(draft, reusable) =>
      ReadAtSlot(s, w, draft, reusable);
      ReadKeepsSlot(s, call, AfterRead(s.db, draft, reusable), w);
    case Minting(draft, asked, reusable, refused) =>
      if CanInsert(s.db, draft.(createdAt := at)) {
        MintAtSlot(s, w, call, draft, asked, reusable, refused, at);
      } else {
        ReadKeepsSlot(s, call, Rereading(draft, asked, reusable, refused), w);
      }
    case Rereading(draft, asked, reusable, refused) =>
      if call !in w.earlier { RereadAtSlot(s, w.slot, call, draft, asked, reusable, refused); }
      ReadKeepsSlot(s, call, AfterReread(s.db, draft, asked, reusable, refused), w);
  }

  lemma LaterKeepsSlot(s: Sys, w: Watch, call: nat, at: Instant)
    requires Inv(s) && SlotInv(s, w) && call in s.calls && !DeclinesAt(s, Step(call, at), w.slot)
    requires !s.calls[call].Starting? && !s.calls[call].Minting? && !s.calls[call].Rereading?
    ensures Consistent(Advance(s, call, at).db) && SlotInv(Advance(s, call, at), w)
  {
    assert CallInv(s, call, s.calls[call]);
    match s.calls[call]
    case Declining(room, id, who, round) => ReadKeepsSlot(s, call, AfterDeclineRead(s.db, room, id, who, round), w);
    case DecliningRead(read, who, round) => DeclineAtSlot(s, w, call, read, who, round, at);
    case Opening(room, id) => ReadKeepsSlot(s, call, AfterOpenRead(s.db, room, id), w);
    case OpeningRead(read) => OpenAtSlot(s, w, call, read);
    case Over(_) =>
  }

  lemma BeginKeepsSlot(s: Sys, e: Event, w: Watch)
    requires Inv(s) && SlotInv(s, w) && !e.Step?
    ensures Consistent(Apply(s, e).db) && SlotInv(Apply(s, e), w)
  {
    var s' := Apply(s, e);
    if s' != s {
      assert s'.db == s.db;
      StepKeepsSlot(s, s', e.call, s'.calls[e.call], w);
    }
  }

  /** A quiet step keeps the slot's thread where it is, and what holds of the calls for it. */
  lemma ApplyKeepsSlot(s: Sys, e: Event, w: Watch)
    requires Inv(s) && SlotInv(s, w) && !DeclinesAt(s, e, w.slot)
    ensures Inv(Apply(s, e)) && SlotInv(Apply(s, e), w)
  {
    ApplyKeepsInv(s, e);
    if !e.Step? {
      BeginKeepsSlot(s, e, w);
    } else if e.call in s.calls {
      var c := s.calls[e.call];
      if c.Starting? || c.Minting? || c.Rereading? {
        StartKeepsSlot(s, w, e.call, e.at);
      } else {
        LaterKeepsSlot(s, w, e.call, e.at);
      }
    }
  }

  lemma {:induction false} RunKeepsSlot(s: Sys, events: seq<Event>, w: Watch)
    requires Inv(s) && SlotInv(s, w) && QuietRun(s, events, w.slot)
    ensures Inv(Run(s, events)) && SlotInv(Run(s, events), w)
    decreases |events|
  {
    if events != [] {
      ApplyKeepsSlot(s, events[0], w);
      RunKeepsSlot(Apply(s, events[0]), events[1..], w);
    }
  }

  /** The slot is free, or its thread undeclined. */
  ghost predicate Startable(s: Sys, slot: Slot)
    requires Consistent(s.db)
  {
    slot in s.db.index ==> s.db.threads[s.db.index[slot]].declined.None?
  }

  ghost function WatchFrom(s: Sys, slot: Slot): Watch
  {
    Watch(slot, s.calls.Keys, s.db.threads.Keys, if slot in s.db.index then Some(s.db.index[slot]) else None)
  }

  lemma DeclineStep(s: Sys, e: Event, read: Thread, who: string, round: nat)
    requires e.Step? && e.call in s.calls && s.calls[e.call] == DecliningRead(read, who, round)
    ensures Apply(s, e) == AdvanceDecline(s, e.call, read, who, round, e.at)
  {}

  lemma DeclineTouches(db: Db, read: Thread, how: Decline, slot: Slot)
    requires Consistent(db) && read.id in db.threads && SlotOf(db.threads[read.id]) == SlotOf(read)
    requires Touches(read, slot) && UpdateOf(db, read, how).Matched?
    ensures var after := DeclineUpdate(db, read.room, read.id, how, Aside(read.path, read.id)).0;
            || (slot in db.index && slot !in after.index)
            || (slot in after.index && after.index[slot] in after.threads
                && after.threads[after.index[slot]].declined.Some?)
  {}

  lemma DeclineDisturbs(s: Sys, call: nat, read: Thread, who: string, round: nat, at: Instant, slot: Slot)
    requires Inv(s) && CallInv(s, call, DecliningRead(read, who, round))
    requires Touches(read, slot) && UpdateOf(s.db, read, Decline(at, who)).Matched?
    ensures var s' := AdvanceDecline(s, call, read, who, round, at);
            Consistent(s'.db) && ((slot in s.db.index && slot !in s'.db.index) || !Startable(s', slot))
  {
    DeclineKeepsTheIndex(s.db, read.room, read.id, Decline(at, who), Aside(read.path, read.id));
    DeclineTouches(s.db, read, Decline(at, who), slot);
  }

  /** The steps a quiet run is without: those that empty the slot, and those that leave a declined thread there. */
  lemma DeclinesAtIff(s: Sys, e: Event, slot: Slot)
    requires Inv(s) && Startable(s, slot)
    ensures var s' := Apply(s, e);
            && Inv(s')
            && (DeclinesAt(s, e, slot) <==> (slot in s.db.index && slot !in s'.db.index) || !Startable(s', slot))
  {
    ApplyKeepsInv(s, e);
    if DeclinesAt(s, e, slot) {
      var DecliningRead(read, who, round) := s.calls[e.call];
      assert CallInv(s, e.call, s.calls[e.call]);
      DeclineStep(s, e, read, who, round);
      DeclineDisturbs(s, e.call, read, who, round, e.at, slot);
    } else {
      ApplyKeepsSlot(s, e, WatchFrom(s, slot));
    }
  }

  ghost predicate AnsweredFor(s: Sys, call: nat, slot: Slot)
  {
    && call in s.calls && s.calls[call].Over? && s.calls[call].outcome.Answered?
    && (s.calls[call].outcome.thread.room, s.calls[call].outcome.asked) == slot
  }

  /** A call that met nothing at the slot it had to refuse. */
  ghost predicate Reused(s: Sys, call: nat, slot: Slot)
  {
    AnsweredFor(s, call, slot) && s.calls[call].outcome.refused.None?
  }

  /** Both calls were answered one thread: the one that held the slot at `s` or, if it was free, one minted since. */
  ghost predicate Converged(s: Sys, s': Sys, slot: Slot, c: nat, d: nat)
    requires AnsweredFor(s', c, slot) && AnsweredFor(s', d, slot)
  {
    var t, u := s'.calls[c].outcome, s'.calls[d].outcome;
    && SameThread(t.thread, u.thread) && (t.minted && u.minted ==> c == d)
    && slot in s'.db.index && s'.db.index[slot] == t.thread.id
    && (if slot in s.db.index then t.thread.id == s.db.index[slot] else t.thread.id !in s.db.threads)
  }

  /**
   * Over a run that does not decline at a slot, all successful starts begun in it for the slot's label, by callers
   * who may reuse what they meet there, answer one thread: the one that held the slot, or, if it was free, one new
   * thread, which at most one of them minted.
   */
  lemma {:induction false} StartsConverge(s: Sys, events: seq<Event>, slot: Slot, c: nat, d: nat)
    requires Inv(s) && Startable(s, slot) && QuietRun(s, events, slot)
    requires c !in s.calls && Reused(Run(s, events), c, slot)
    requires d !in s.calls && Reused(Run(s, events), d, slot)
    ensures Converged(s, Run(s, events), slot, c, d)
  {
    RunKeepsSlot(s, events, WatchFrom(s, slot));
    var s' := Run(s, events);
    assert CallAtSlot(s'.db, slot, s'.calls[c]) && CallAtSlot(s'.db, slot, s'.calls[d]);
    assert CallInv(s', c, s'.calls[c]) && CallInv(s', d, s'.calls[d]);
  }

  /** Whoever was answered with another thread had met the slot's own thread and could not reuse it. */
  lemma OnlyTheUnwillingGetAnother(s: Sys, events: seq<Event>, slot: Slot, c: nat)
    requires Inv(s) && Startable(s, slot) && QuietRun(s, events, slot)
    requires c !in s.calls && AnsweredFor(Run(s, events), c, slot) && !Reused(Run(s, events), c, slot)
    ensures var s' := Run(s, events);
            var refused := s'.calls[c].outcome.refused.value;
            && slot in s'.db.index && s'.db.index[slot] == refused.id && IsNow(s'.db, refused)
            && refused.declined.None? && !s'.calls[c].outcome.reusable(refused)
  {
    RunKeepsSlot(s, events, WatchFrom(s, slot));
    var s' := Run(s, events);
    assert CallAtSlot(s'.db, slot, s'.calls[c]);
  }

  ghost predicate Unconditional(reusable: Reuse)
  {
    forall t :: reusable(t)
  }

  /** The leads' own starts reuse anything undeclined, so they always converge. */
  lemma UnconditionalStartsReuse(s: Sys, events: seq<Event>, slot: Slot, c: nat)
    requires Inv(s) && Startable(s, slot) && QuietRun(s, events, slot)
    requires c !in s.calls && AnsweredFor(Run(s, events), c, slot)
    requires Unconditional(Run(s, events).calls[c].outcome.reusable)
    ensures Reused(Run(s, events), c, slot)
  {
    var s' := Run(s, events);
    if s'.calls[c].outcome.refused.Some? {
      OnlyTheUnwillingGetAnother(s, events, slot, c);
    }
  }

  /** No thread of the slot's room was started at a path that its decline moved to the slot. */
  ghost predicate NothingMovedTo(s: Sys, slot: Slot)
    requires s.origin.Keys == s.db.threads.Keys
  {
    forall id :: id in s.db.threads && s.db.threads[id].room == slot.0 && s.db.threads[id].declined.Some? ==>
      Aside(s.origin[id], id) != slot.1
  }

  /** In a reachable state a slot is startable exactly when no thread still declined was moved to it. */
  lemma StartableIff(events: seq<Event>, slot: Slot)
    ensures Inv(Reached(events))
    ensures Startable(Reached(events), slot) <==> NothingMovedTo(Reached(events), slot)
  {
    ReachedKeepsInv(events);
    var s := Reached(events);
    forall id | id in s.db.threads ensures Seated(s.db.threads[id], s.origin[id]) {}
    if slot in s.db.index { assert SlotOf(s.db.threads[s.db.index[slot]]) == slot; }
  }

  /** A decline that took sits its thread aside and leaves the label's slot free, to be started anew. */
  lemma DeclineFreesTheSlot(s: Sys, call: nat, read: Thread, who: string, round: nat, at: Instant)
    requires Inv(s) && call in s.calls && s.calls[call] == DecliningRead(read, who, round)
    requires DeclinedNow(AdvanceDecline(s, call, read, who, round, at).calls[call], read.id)
    ensures var s' := AdvanceDecline(s, call, read, who, round, at);
            && SlotOf(read) in s.db.index && s.db.index[SlotOf(read)] == read.id && SlotOf(read) !in s'.db.index
            && read.id in s'.db.threads && read.id in s'.origin && s'.db.threads[read.id].declined.Some?
            && s'.db.threads[read.id].path == Aside(s'.origin[read.id], read.id)
  {
    assert CallInv(s, call, s.calls[call]);
    DeclineSeatsAside(s, read, Decline(at, who));
    MatchedDeclineFreesTheSlot(s.db, read, Decline(at, who));
  }

  lemma DeclineSeatsAside(s: Sys, read: Thread, how: Decline)
    requires Inv(s) && Known(s, read) && (Stage(s.db.threads[read.id]) == 2 ==> s.db.threads[read.id].path == read.path)
    requires DeclineMatches(s.db, read.room, read.id)
    ensures s.db.threads[read.id].path == read.path == s.origin[read.id]
  {
    assert Seated(s.db.threads[read.id], s.origin[read.id]);
  }

  /** Where a declined thread sits on the very slot a label names, every start of the label mints another thread. */
  lemma ADeclinedThreadInTheWayMeansANewOneEachTime(s: Sys, call: nat, at: Instant, later: Instant)
    requires Inv(s) && call in s.calls && s.calls[call].Starting?
    requires var draft := s.calls[call].draft;
             SlotOf(draft) in s.db.index && s.db.threads[s.db.index[SlotOf(draft)]].declined.Some?
             && (draft.room, Aside(draft.path, draft.id)) !in s.db.index
    ensures var draft := s.calls[call].draft;
            var s1 := Advance(s, call, at);
            && Inv(s1) && call in s1.calls
            && var s2 := Advance(s1, call, later);
            && AnsweredFor(s2, call, SlotOf(draft)) && s2.calls[call].outcome.minted
            && s2.calls[call].outcome.thread.path == Aside(draft.path, draft.id)
            && SlotOf(draft) in s2.db.index && s2.db.index[SlotOf(draft)] == s.db.index[SlotOf(draft)]
  {
    StartStepKeepsInv(s, call, at);
    assert CallInv(s, call, s.calls[call]);
  }
}
