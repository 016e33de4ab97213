/** Who is answered the slot's own thread: every start by a caller who may reuse it, as can be told before the call. */
module ChatReuse {
  import opened Common
  import opened ChatThreads
  import opened ChatRuns
  import opened ChatStarts

  /** The thread that is first at a slot over a run: there already, or the first one inserted. */
  ghost function FirstHeld(s: Sys, events: seq<Event>, slot: Slot): Option<Thread>
    decreases |events|
  {
    if slot in s.db.index && s.db.index[slot] in s.db.threads then Some(s.db.threads[s.db.index[slot]])
    else if events == [] then None
    else FirstHeld(Apply(s, events[0]), events[1..], slot)
  }

  /** True of a caller who may reuse the thread `held`, as it is or opened since, as long as nobody declines it. */
  ghost predicate Willing(reusable: Reuse, held: Thread)
  {
    forall t: Thread :: t.declined.None? && SameThread(held, t) && Stage(t) <= Stage(held) ==> reusable(t)
  }

  /** What the leads' own starts may reuse. */
  function Anything(): Reuse
  {
    _ => true
  }

  /** What a member may reuse: a thread that member may read. */
  function MayRead(who: string): Reuse
  {
    (t: Thread) => ReadableBy(t, who, false)
  }

  /** A member may reuse the group's threads and those that member asked for. */
  lemma MembersAreWilling(who: string, held: Thread)
    requires who != "" && (held.audience.Group? || held.requestedBy == who)
    ensures Willing(MayRead(who), held)
  {}

  /** The slot's thread, if it has one, is `held`, moved on at most. */
  ghost predicate Heir(db: Db, slot: Slot, held: Thread)
  {
    slot in db.index ==>
      && db.index[slot] == held.id && IsNow(db, held)
      && db.threads[held.id].declined.None? && Stage(db.threads[held.id]) <= Stage(held)
  }

  /** What holds of a willing start for the slot: it has refused nothing there. */
  ghost predicate Ready(c: Call, slot: Slot, held: Thread)
  {
    match c
    case Starting(draft, reusable) => (draft.room, draft.path) == slot ==> Willing(reusable, held)
    case Minting(draft, asked, reusable, refused) => (draft.room, asked) == slot ==>
      refused.None? && Willing(reusable, held)
    case Rereading(draft, asked, reusable, refused) => (draft.room, asked) == slot ==>
      refused.None? && Willing(reusable, held)
    case Over(Answered(t, _, asked, reusable, refused)) => (t.room, asked) == slot ==> refused.None?
    case _ => true
  }

  lemma ReadKeepsReady(db: Db, draft: Thread, reusable: Reuse, slot: Slot, held: Thread)
    requires Consistent(db) && Heir(db, slot, held) && Ready(Starting(draft, reusable), slot, held)
    ensures Ready(AfterRead(db, draft, reusable), slot, held)
  {}

  lemma RereadKeepsReady(db: Db, draft: Thread, asked: string, reusable: Reuse, refused: Option<Thread>,
                         slot: Slot, held: Thread)
    requires Consistent(db) && Ready(Rereading(draft, asked, reusable, refused), slot, held)
    ensures Ready(AfterReread(db, draft, asked, reusable, refused), slot, held)
  {}

  lemma MintKeepsReady(s: Sys, call: nat, draft: Thread, asked: string, reusable: Reuse, refused: Option<Thread>,
                       at: Instant, slot: Slot, held: Thread)
    requires Ready(Minting(draft, asked, reusable, refused), slot, held)
    ensures Ready(AdvanceMint(s, call, draft, asked, reusable, refused, at).calls[call], slot, held)
  {}

  lemma StartKeepsReady(s: Sys, call: nat, at: Instant, slot: Slot, held: Thread)
    requires Inv(s) && Heir(s.db, slot, held) && call in s.calls && Ready(s.calls[call], slot, held)
    requires s.calls[call].Starting? || s.calls[call].Minting? || s.calls[call].Rereading?
    ensures call in Advance(s, call, at).calls && Ready(Advance(s, call, at).calls[call], slot, held)
  {
    match s.calls[call]
    case Starting(draft, reusable) => ReadKeepsReady(s.db, draft, reusable, slot, held);
    case Minting(draft, asked, reusable, refused) =>
      MintKeepsReady(s, call, draft, asked, reusable, refused, at, slot, held);
    case Rereading(draft, asked, reusable, refused) =>
      RereadKeepsReady(s.db, draft, asked, reusable, refused, slot, held);
  }

  lemma LaterKeepsReady(s: Sys, call: nat, at: Instant, slot: Slot, held: Thread)
    requires call in s.calls && Ready(s.calls[call], slot, held)
    requires !s.calls[call].Starting? && !s.calls[call].Minting? && !s.calls[call].Rereading?
    ensures call in Advance(s, call, at).calls && Ready(Advance(s, call, at).calls[call], slot, held)
  {}

  lemma AdvanceTouchesItsCall(s: Sys, call: nat, at: Instant, c: nat)
    requires call in s.calls && c != call
    ensures c in Advance(s, call, at).calls <==> c in s.calls
    ensures c in s.calls ==> Advance(s, call, at).calls[c] == s.calls[c]
  {}

  lemma OthersLeaveACallAlone(s: Sys, e: Event, c: nat)
    requires c != e.call
    ensures c in Apply(s, e).calls <==> c in s.calls
    ensures c in s.calls ==> Apply(s, e).calls[c] == s.calls[c]
  {
    if e.Step? && e.call in s.calls {
      AdvanceTouchesItsCall(s, e.call, e.at, c);
      assert Apply(s, e) == Advance(s, e.call, e.at);
    }
  }

  lemma BeginKeepsReady(s: Sys, e: Event, slot: Slot, held: Thread)
    requires !e.Step? && (e.call in s.calls ==> Ready(s.calls[e.call], slot, held))
    requires e.BeginStart? ==> Willing(e.reusable, held)
    ensures e.call in Apply(s, e).calls ==> Ready(Apply(s, e).calls[e.call], slot, held)
  {}

  lemma ApplyKeepsReady(s: Sys, e: Event, c: nat, slot: Slot, held: Thread)
    requires Inv(s) && Heir(s.db, slot, held) && (c in s.calls ==> Ready(s.calls[c], slot, held))
    requires e.BeginStart? && e.call == c ==> Willing(e.reusable, held)
    ensures c in Apply(s, e).calls ==> Ready(Apply(s, e).calls[c], slot, held)
  {
    if e.call != c {
      OthersLeaveACallAlone(s, e, c);
    } else if !e.Step? {
      BeginKeepsReady(s, e, slot, held);
    } else if c in s.calls {
      if s.calls[c].Starting? || s.calls[c].Minting? || s.calls[c].Rereading? {
        StartKeepsReady(s, c, e.at, slot, held);
      } else {
        LaterKeepsReady(s, c, e.at, slot, held);
      }
    }
  }

  /** A quiet step leaves the slot with its thread, moved on at most; or free; or with the first thread it gets. */
  lemma ApplyKeepsHeir(s: Sys, e: Event, slot: Slot, held: Thread)
    requires Inv(s) && Startable(s, slot) && !DeclinesAt(s, e, slot) && Heir(s.db, slot, held)
    ensures var s' := Apply(s, e);
            && Inv(s') && Startable(s', slot)
            && (slot in s.db.index ==> slot in s'.db.index && Heir(s'.db, slot, held))
  {
    ApplyKeepsSlot(s, e, WatchFrom(s, slot));
    ApplyKeepsInv(s, e);
  }

  lemma {:induction false} RunKeepsReady(s: Sys, events: seq<Event>, c: nat, slot: Slot, held: Thread)
    requires Inv(s) && Startable(s, slot) && QuietRun(s, events, slot) && Heir(s.db, slot, held)
    requires slot !in s.db.index ==> FirstHeld(s, events, slot) == Some(held)
    requires c in s.calls ==> Ready(s.calls[c], slot, held)
    requires forall e :: e in events && e.BeginStart? && e.call == c ==> Willing(e.reusable, held)
    ensures var s' := Run(s, events);
            && Inv(s') && slot in s'.db.index && Heir(s'.db, slot, held)
            && (c in s'.calls ==> Ready(s'.calls[c], slot, held))
    decreases |events|
  {
    if events != [] {
      assert events[0] in events;
      ApplyKeepsReady(s, events[0], c, slot, held);
      ApplyKeepsHeir(s, events[0], slot, held);
      RunKeepsReady(Apply(s, events[0]), events[1..], c, slot, held);
    }
  }

  /** A slot that has a thread after a quiet run had a first one. */
  lemma {:induction false} SomebodyWasFirst(s: Sys, events: seq<Event>, slot: Slot)
    requires Inv(s) && slot in Run(s, events).db.index
    ensures FirstHeld(s, events, slot).Some?
    decreases |events|
  {
    if events != [] && slot !in s.db.index {
      ApplyKeepsInv(s, events[0]);
      SomebodyWasFirst(Apply(s, events[0]), events[1..], slot);
    }
  }

  /** Whatever the run's events show begun as call `c` may reuse the thread first at the slot. */
  ghost predicate BeginsWilling(s: Sys, events: seq<Event>, slot: Slot, c: nat)
  {
    forall e, held :: e in events && e.BeginStart? && e.call == c && FirstHeld(s, events, slot) == Some(held) ==>
      Willing(e.reusable, held)
  }

  /** A call that has an answer for a slot holding `held` and refused nothing there was answered that thread. */
  lemma AnsweredTheHeir(s: Sys, slot: Slot, c: nat, held: Thread)
    requires Inv(s) && Heir(s.db, slot, held) && slot in s.db.index
    requires AnsweredFor(s, c, slot) && CallAtSlot(s.db, slot, s.calls[c]) && Ready(s.calls[c], slot, held)
    ensures Reused(s, c, slot) && SameThread(held, s.calls[c].outcome.thread)
  {
    assert CallInv(s, c, s.calls[c]);
  }

  lemma SlotIsHeld(s: Sys, events: seq<Event>, slot: Slot, c: nat)
    requires Inv(s) && Startable(s, slot) && QuietRun(s, events, slot)
    requires c !in s.calls && AnsweredFor(Run(s, events), c, slot)
    ensures Inv(Run(s, events)) && CallAtSlot(Run(s, events).db, slot, Run(s, events).calls[c])
    ensures slot in Run(s, events).db.index && FirstHeld(s, events, slot).Some?
  {
    RunKeepsSlot(s, events, WatchFrom(s, slot));
    assert CallAtSlot(Run(s, events).db, slot, Run(s, events).calls[c]);
    SomebodyWasFirst(s, events, slot);
  }

  /**
   * Over a run that does not decline at a slot, every successful start of its label begun in it, by a caller who may
   * reuse the thread first there, is answered that thread.
   */
  lemma {:induction false} WillingStartsReuse(s: Sys, events: seq<Event>, slot: Slot, c: nat)
    requires Inv(s) && Startable(s, slot) && QuietRun(s, events, slot)
    requires c !in s.calls && AnsweredFor(Run(s, events), c, slot) && BeginsWilling(s, events, slot, c)
    ensures Reused(Run(s, events), c, slot) && FirstHeld(s, events, slot).Some?
    ensures SameThread(FirstHeld(s, events, slot).value, Run(s, events).calls[c].outcome.thread)
  {
    SlotIsHeld(s, events, slot, c);
    var held := FirstHeld(s, events, slot).value;
    assert Heir(s.db, slot, held) by {}
    RunKeepsReady(s, events, c, slot, held);
    AnsweredTheHeir(Run(s, events), slot, c, held);
  }

  /** ... so all of them are answered one thread, which at most one of them minted. */
  lemma {:induction false} WillingStartsConverge(s: Sys, events: seq<Event>, slot: Slot, c: nat, d: nat)
    requires Inv(s) && Startable(s, slot) && QuietRun(s, events, slot)
    requires c !in s.calls && AnsweredFor(Run(s, events), c, slot) && BeginsWilling(s, events, slot, c)
    requires d !in s.calls && AnsweredFor(Run(s, events), d, slot) && BeginsWilling(s, events, slot, d)
    ensures Converged(s, Run(s, events), slot, c, d)
  {
    WillingStartsReuse(s, events, slot, c);
    WillingStartsReuse(s, events, slot, d);
    StartsConverge(s, events, slot, c, d);
  }

  /** A member's starts of a label whose thread is the group's, or was asked for by that member, are answered it. */
  lemma {:induction false} MembersStartsReuse(s: Sys, events: seq<Event>, slot: Slot, c: nat, who: string)
    requires Inv(s) && Startable(s, slot) && QuietRun(s, events, slot)
    requires c !in s.calls && AnsweredFor(Run(s, events), c, slot) && who != ""
    requires forall e :: e in events && e.BeginStart? && e.call == c ==> e.reusable == MayRead(who)
    requires var held := FirstHeld(s, events, slot);
             held.Some? ==> held.value.audience.Group? || held.value.requestedBy == who
    ensures Reused(Run(s, events), c, slot)
    ensures FirstHeld(s, events, slot).Some?
            && SameThread(FirstHeld(s, events, slot).value, Run(s, events).calls[c].outcome.thread)
  {
    if FirstHeld(s, events, slot).Some? { MembersAreWilling(who, FirstHeld(s, events, slot).value); }
    WillingStartsReuse(s, events, slot, c);
  }

  /** True of the step whose update declines the thread at a slot. */
  ghost predicate DeclineTakes(s: Sys, e: Event, slot: Slot)
  {
    && e.Step? && e.call in s.calls && s.calls[e.call].DecliningRead? && SlotOf(s.calls[e.call].read) == slot
    && UpdateOf(s.db, s.calls[e.call].read, Decline(e.at, s.calls[e.call].who)).Matched?
  }

  lemma TakenDecline(s: Sys, call: nat, read: Thread, who: string, round: nat, at: Instant)
    requires Inv(s) && call in s.calls && s.calls[call] == DecliningRead(read, who, round)
    requires UpdateOf(s.db, read, Decline(at, who)).Matched?
    ensures var s' := AdvanceDecline(s, call, read, who, round, at);
            && s'.calls.Keys == s.calls.Keys && s'.db.threads.Keys == s.db.threads.Keys
            && SlotOf(read) in s.db.index && SlotOf(read) !in s'.db.index
  {
    DeclineFreesTheSlot(s, call, read, who, round, at);
  }

  lemma DeclineLeavesItFree(s: Sys, e: Event, slot: Slot)
    requires Inv(s) && DeclineTakes(s, e, slot)
    ensures Inv(Apply(s, e)) && slot in s.db.index && slot !in Apply(s, e).db.index
    ensures Apply(s, e).calls.Keys == s.calls.Keys && s.db.threads.Keys == Apply(s, e).db.threads.Keys
  {
    var DecliningRead(read, who, round) := s.calls[e.call];
    ApplyKeepsInv(s, e);
    DeclineStep(s, e, read, who, round);
    TakenDecline(s, e.call, read, who, round, e.at);
  }

  /**
   * A label whose thread was declined is started once again: the starts of it after the decline are answered one
   * thread, not there before, until that one too is declined.
   */
  lemma {:induction false} ADeclinedLabelIsStartedOnceAgain(s: Sys, e: Event, s': Sys, events: seq<Event>, slot: Slot,
                                                            c: nat, d: nat)
    requires Inv(s) && DeclineTakes(s, e, slot) && s' == Apply(s, e) && QuietRun(s', events, slot)
    requires c !in s.calls && AnsweredFor(Run(s', events), c, slot) && BeginsWilling(s', events, slot, c)
    requires d !in s.calls && AnsweredFor(Run(s', events), d, slot) && BeginsWilling(s', events, slot, d)
    ensures slot in s.db.index && slot !in s'.db.index
    ensures Converged(s', Run(s', events), slot, c, d)
    ensures Run(s', events).calls[c].outcome.thread.id !in s.db.threads
  {
    DeclineLeavesItFree(s, e, slot);
    WillingStartsConverge(s', events, slot, c, d);
  }
}
