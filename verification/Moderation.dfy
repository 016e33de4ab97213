/** Removals, dismissals and disputes, and the act log that must agree with them. */
module Moderation {
  import opened Common
  import opened Acts

  datatype Db = Db(removals: map<Id, Removal>, dismissals: map<Id, Dismissal>, disputes: map<Id, Dispute>,
                   log: seq<Entry>)

  datatype Refusal = NotFound | Conflict | BadReference | AlreadyRemoved | AlreadyDecided | ReviewerIsRemover | Broken

  datatype Result<+T> = Ok(value: T) | Refused(why: Refusal)

  /** What goes wrong in a transaction: nothing, a statement of it, or the act writer. */
  datatype Trouble = NoTrouble | StatementBreaks | WriterBreaks

  predicate Removed(db: Db, message: string)
  {
    exists id :: id in db.removals && db.removals[id].message == message
  }

  predicate Dismissed(db: Db, message: string)
  {
    exists id :: id in db.dismissals && db.dismissals[id].message == message
  }

  predicate Disputed(db: Db, removal: Id)
  {
    exists id :: id in db.disputes && db.disputes[id].removal == removal
  }

  function Removing(db: Db, rem: Removal, wall: string, actor: Actor, trouble: Trouble): (Db, Result<Removal>)
  {
    if trouble.StatementBreaks? then (db, Refused(Broken))
    else if rem.id in db.removals || Removed(db, rem.message) then (db, Refused(Conflict))
    else if trouble.WriterBreaks? then (db, Refused(Broken))
    else (db.(removals := db.removals[rem.id := rem], log := db.log + [WithheldAct(rem, wall, actor)]), Ok(rem))
  }

  function Dismissing(db: Db, d: Dismissal, wall: string, actor: Actor, trouble: Trouble): (Db, Result<Dismissal>)
  {
    if trouble.StatementBreaks? then (db, Refused(Broken))
    else if Removed(db, d.message) then (db, Refused(AlreadyRemoved))
    else if d.id in db.dismissals || Dismissed(db, d.message) then (db, Refused(Conflict))
    else if trouble.WriterBreaks? then (db, Refused(Broken))
    else (db.(dismissals := db.dismissals[d.id := d], log := db.log + [ReportLeftStandingAct(d, wall, actor)]), Ok(d))
  }

  function Disputing(db: Db, d: Dispute, trouble: Trouble): (Db, Result<Dispute>)
  {
    if trouble.StatementBreaks? then (db, Refused(Broken))
    else if d.removal !in db.removals then (db, Refused(BadReference))
    else if d.id in db.disputes || Disputed(db, d.removal) then (db, Refused(Conflict))
    else
      var filed := d.(state := Open, decidedBy := "", decidedAt := None);
      (db.(disputes := db.disputes[d.id := filed]), Ok(filed))
  }

  function Deciding(db: Db, id: Id, outcome: State, decidedBy: string, now: Instant, wall: string, actor: Actor,
                         trouble: Trouble): (Db, Result<Dispute>)
  {
    if trouble.StatementBreaks? then (db, Refused(Broken))
    else if id !in db.disputes then (db, Refused(NotFound))
    else if !db.disputes[id].state.Open? then (db, Refused(AlreadyDecided))
    else if db.disputes[id].removal !in db.removals then (db, Refused(NotFound))
    else
      var rem := db.removals[db.disputes[id].removal];
      if rem.removedBy == decidedBy then (db, Refused(ReviewerIsRemover))
      else if trouble.WriterBreaks? then (db, Refused(Broken))
      else
        var d := db.disputes[id].(state := outcome, decidedBy := decidedBy, decidedAt := Some(now));
        (db.(disputes := db.disputes[id := d], log := db.log + [DisputeOutcomeAct(rem, d, wall, actor)]), Ok(d))
  }

  // ---------------------------------------------------------------- any run

  datatype Event =
    | Remove(rem: Removal, wall: string, actor: Actor, trouble: Trouble)
    | Dismiss(dismissal: Dismissal, wall: string, actor: Actor, trouble: Trouble)
    | Disputes(dispute: Dispute, trouble: Trouble)
    | Decide(id: Id, outcome: State, reviewer: string, now: Instant, wall: string, actor: Actor, trouble: Trouble)

  function Apply(db: Db, e: Event): Db
  {
    match e
    case Remove(rem, wall, actor, trouble) => Removing(db, rem, wall, actor, trouble).0
    case Dismiss(d, wall, actor, trouble) => Dismissing(db, d, wall, actor, trouble).0
    case Disputes(d, trouble) => Disputing(db, d, trouble).0
    case Decide(id, outcome, who, now, wall, actor, trouble) =>
      Deciding(db, id, outcome, who, now, wall, actor, trouble).0
  }

  function Run(db: Db, events: seq<Event>): Db
    decreases |events|
  {
    if events == [] then db else Run(Apply(db, events[0]), events[1..])
  }

  function Empty(): Db
  {
    Db(map[], map[], map[], [])
  }

  /** No dispute is decided to stay open; any other outcome will do. */
  predicate Specified(events: seq<Event>)
  {
    forall e :: e in events && e.Decide? ==> !e.outcome.Open?
  }

  // ---------------------------------------------------------------- rows and log agree

  ghost function RemovalEntries(log: seq<Entry>, rem: Removal): nat
  {
    Count(log, e => OfRemoval(e, rem))
  }

  ghost function DismissalEntries(log: seq<Entry>, d: Dismissal): nat
  {
    Count(log, e => OfDismissal(e, d))
  }

  ghost function OutcomeEntries(log: seq<Entry>, id: Id): nat
  {
    Count(log, e => OfDispute(e, id))
  }

  /** Of a dispute there is nothing in the log while it is open, then one entry, of its outcome. */
  ghost predicate DisputeLogged(db: Db, d: Dispute)
  {
    && d.removal in db.removals
    && OutcomeEntries(db.log, d.id) == (if d.state.Open? then 0 else 1)
    && (d.state.Open? || d.decidedBy != db.removals[d.removal].removedBy)
    && (d.state.Open? || forall e :: e in db.log && OfDispute(e, d.id) ==> OfOutcome(e, db.removals[d.removal], d))
  }

  /** What an entry is of is stored. */
  ghost predicate Grounded(db: Db, e: Entry)
  {
    match e.kind
    case PostWithheld => exists id :: id in db.removals && OfRemoval(e, db.removals[id])
    case ReportLeftStanding => exists id :: id in db.dismissals && OfDismissal(e, db.dismissals[id])
    case _ => exists id :: id in db.disputes && OfDispute(e, id)
  }

  ghost predicate OneEach(db: Db)
  {
    && (forall id :: id in db.removals ==> db.removals[id].id == id && RemovalEntries(db.log, db.removals[id]) == 1)
    && (forall id :: id in db.dismissals ==>
        db.dismissals[id].id == id && DismissalEntries(db.log, db.dismissals[id]) == 1)
    && (forall id :: id in db.disputes ==> db.disputes[id].id == id && DisputeLogged(db, db.disputes[id]))
  }

  ghost predicate Unique(db: Db)
  {
    && (forall i, j ::
          i in db.removals && j in db.removals && db.removals[i].message == db.removals[j].message ==> i == j)
    && (forall i, j ::
          i in db.dismissals && j in db.dismissals && db.dismissals[i].message == db.dismissals[j].message ==> i == j)
    && (forall i, j ::
          i in db.disputes && j in db.disputes && db.disputes[i].removal == db.disputes[j].removal ==> i == j)
  }

  /** A message's dismissal is logged before its removal. */
  ghost predicate DismissedFirst(log: seq<Entry>)
  {
    forall i, j :: (0 <= i < |log| && 0 <= j < |log| && log[i].kind.ReportLeftStanding? && log[j].kind.PostWithheld?
                    && log[i].subject == log[j].subject) ==> i < j
  }

  ghost predicate AllGrounded(db: Db)
  {
    forall e :: e in db.log ==> Grounded(db, e)
  }

  ghost predicate Inv(db: Db)
  {
    Unique(db) && OneEach(db) && AllGrounded(db) && DismissedFirst(db.log)
  }

  lemma EntriesAppend(log: seq<Entry>, e: Entry)
    ensures forall r :: RemovalEntries(log + [e], r) == RemovalEntries(log, r) + if OfRemoval(e, r) then 1 else 0
    ensures forall d :: DismissalEntries(log + [e], d) == DismissalEntries(log, d) + if OfDismissal(e, d) then 1 else 0
    ensures forall id :: OutcomeEntries(log + [e], id) == OutcomeEntries(log, id) + if OfDispute(e, id) then 1 else 0
  {
    forall r ensures RemovalEntries(log + [e], r) == RemovalEntries(log, r) + if OfRemoval(e, r) then 1 else 0 {
      CountAppend(log, e, x => OfRemoval(x, r));
    }
    forall d ensures DismissalEntries(log + [e], d) == DismissalEntries(log, d) + if OfDismissal(e, d) then 1 else 0 {
      CountAppend(log, e, x => OfDismissal(x, d));
    }
    forall id ensures OutcomeEntries(log + [e], id) == OutcomeEntries(log, id) + if OfDispute(e, id) then 1 else 0 {
      CountAppend(log, e, x => OfDispute(x, id));
    }
  }

  /** Entries are added, rows are added, and a row stays the row an entry is of. */
  lemma StillGrounded(db: Db, db': Db, e: Entry)
    requires Grounded(db, e)
    requires forall id :: id in db.removals ==> id in db'.removals && db'.removals[id] == db.removals[id]
    requires forall id :: id in db.dismissals ==> id in db'.dismissals && db'.dismissals[id] == db.dismissals[id]
    requires db.disputes.Keys <= db'.disputes.Keys
    ensures Grounded(db', e)
  {}

  lemma GroundedAppend(db: Db, db': Db, e: Entry)
    requires AllGrounded(db) && db'.log == db.log + [e] && Grounded(db', e)
    requires forall id :: id in db.removals ==> id in db'.removals && db'.removals[id] == db.removals[id]
    requires forall id :: id in db.dismissals ==> id in db'.dismissals && db'.dismissals[id] == db.dismissals[id]
    requires db.disputes.Keys <= db'.disputes.Keys
    ensures AllGrounded(db')
  {
    forall x | x in db'.log ensures Grounded(db', x) {
      if x in db.log { StillGrounded(db, db', x); }
    }
  }

  lemma DismissedFirstAppend(log: seq<Entry>, e: Entry)
    requires DismissedFirst(log)
    requires e.kind.ReportLeftStanding? ==> forall x :: x in log && x.kind.PostWithheld? ==> x.subject != e.subject
    ensures DismissedFirst(log + [e])
  {}

  /** A message without a removal has no withholding in the log, and so on for each kind of row. */
  lemma NoRowNoEntry(db: Db)
    requires AllGrounded(db)
    ensures forall x :: x in db.log && x.kind.PostWithheld? ==> Removed(db, x.subject)
    ensures forall x, d :: x in db.log && OfDismissal(x, d) ==> Dismissed(db, d.message)
    ensures forall x, id :: x in db.log && OfDispute(x, id) ==> id in db.disputes
  {
    forall x | x in db.log
      ensures x.kind.PostWithheld? ==> Removed(db, x.subject)
      ensures forall d :: OfDismissal(x, d) ==> Dismissed(db, d.message)
      ensures forall id :: OfDispute(x, id) ==> id in db.disputes
    {
      assert Grounded(db, x);
    }
  }

  lemma NotYetRemoved(db: Db, rem: Removal)
    requires AllGrounded(db) && !Removed(db, rem.message)
    ensures RemovalEntries(db.log, rem) == 0
  {
    NoRowNoEntry(db);
    NoneCounted(db.log, x => OfRemoval(x, rem));
  }

  lemma NotYetDismissed(db: Db, d: Dismissal)
    requires AllGrounded(db) && !Dismissed(db, d.message) && !Removed(db, d.message)
    ensures DismissalEntries(db.log, d) == 0
    ensures forall x :: x in db.log && x.kind.PostWithheld? ==> x.subject != d.message
  {
    NoRowNoEntry(db);
    NoneCounted(db.log, x => OfDismissal(x, d));
  }

  lemma NotYetDisputed(db: Db, id: Id)
    requires AllGrounded(db) && id !in db.disputes
    ensures OutcomeEntries(db.log, id) == 0
  {
    NoRowNoEntry(db);
    NoneCounted(db.log, x => OfDispute(x, id));
  }

  /** Nothing happens to the disputes' side of the log when an entry of none of them is written. */
  lemma DisputesStayLogged(db: Db, db': Db, e: Entry)
    requires OneEach(db) && db'.disputes == db.disputes && db'.log == db.log + [e]
             && (e.kind.PostWithheld? || e.kind.ReportLeftStanding?)
    requires forall id :: id in db.removals ==> id in db'.removals && db'.removals[id] == db.removals[id]
    ensures forall id :: id in db'.disputes ==> db'.disputes[id].id == id && DisputeLogged(db', db'.disputes[id])
  {
    EntriesAppend(db.log, e);
    forall id | id in db'.disputes ensures DisputeLogged(db', db'.disputes[id]) {
      assert DisputeLogged(db, db.disputes[id]);
    }
  }

  lemma RemovalLogsOnce(db: Db, db': Db, rem: Removal, e: Entry)
    requires OneEach(db) && rem.id !in db.removals && !Removed(db, rem.message) && RemovalEntries(db.log, rem) == 0
    requires OfRemoval(e, rem) && db' == db.(removals := db.removals[rem.id := rem], log := db.log + [e])
    ensures OneEach(db') && Grounded(db', e)
  {
    EntriesAppend(db.log, e);
    DisputesStayLogged(db, db', e);
    assert rem.id in db'.removals;
  }

  lemma DismissalLogsOnce(db: Db, db': Db, d: Dismissal, e: Entry)
    requires OneEach(db) && d.id !in db.dismissals && !Dismissed(db, d.message) && DismissalEntries(db.log, d) == 0
    requires OfDismissal(e, d) && db' == db.(dismissals := db.dismissals[d.id := d], log := db.log + [e])
    ensures OneEach(db') && Grounded(db', e)
  {
    EntriesAppend(db.log, e);
    DisputesStayLogged(db, db', e);
    assert d.id in db'.dismissals;
  }

  lemma DisputeLogsNothing(db: Db, db': Db, d: Dispute)
    requires OneEach(db) && d.id !in db.disputes && d.removal in db.removals && OutcomeEntries(db.log, d.id) == 0
    requires d.state.Open? && db' == db.(disputes := db.disputes[d.id := d])
    ensures OneEach(db')
  {
    forall id | id in db.disputes ensures DisputeLogged(db', db.disputes[id]) {
      assert DisputeLogged(db, db.disputes[id]);
    }
  }

  lemma RemovalStaysUnique(db: Db, db': Db, rem: Removal)
    requires Unique(db) && rem.id !in db.removals && !Removed(db, rem.message)
    requires db' == db.(removals := db.removals[rem.id := rem], log := db'.log)
    ensures Unique(db')
  {}

  lemma DismissalStaysUnique(db: Db, db': Db, d: Dismissal)
    requires Unique(db) && d.id !in db.dismissals && !Dismissed(db, d.message)
    requires db' == db.(dismissals := db.dismissals[d.id := d], log := db'.log)
    ensures Unique(db')
  {}

  lemma RemovalKeepsInv(db: Db, rem: Removal, wall: string, actor: Actor)
    requires Inv(db) && rem.id !in db.removals && !Removed(db, rem.message)
    ensures Inv(Removing(db, rem, wall, actor, NoTrouble).0)
  {
    var e := WithheldAct(rem, wall, actor);
    var db' := db.(removals := db.removals[rem.id := rem], log := db.log + [e]);
    assert OfRemoval(e, rem);
    NotYetRemoved(db, rem);
    RemovalLogsOnce(db, db', rem, e);
    GroundedAppend(db, db', e);
    DismissedFirstAppend(db.log, e);
    RemovalStaysUnique(db, db', rem);
    assert Removing(db, rem, wall, actor, NoTrouble).0 == db';
  }

  lemma DismissalKeepsInv(db: Db, d: Dismissal, wall: string, actor: Actor)
    requires Inv(db) && d.id !in db.dismissals && !Dismissed(db, d.message) && !Removed(db, d.message)
    ensures Inv(Dismissing(db, d, wall, actor, NoTrouble).0)
  {
    var e := ReportLeftStandingAct(d, wall, actor);
    var db' := db.(dismissals := db.dismissals[d.id := d], log := db.log + [e]);
    assert OfDismissal(e, d);
    NotYetDismissed(db, d);
    DismissalLogsOnce(db, db', d, e);
    GroundedAppend(db, db', e);
    DismissedFirstAppend(db.log, e);
    DismissalStaysUnique(db, db', d);
    assert Dismissing(db, d, wall, actor, NoTrouble).0 == db';
  }

  lemma DisputeKeepsInv(db: Db, d: Dispute)
    requires Inv(db) && d.id !in db.disputes && !Disputed(db, d.removal) && d.removal in db.removals
    ensures Inv(Disputing(db, d, NoTrouble).0)
  {
    var filed := d.(state := Open, decidedBy := "", decidedAt := None);
    var db' := db.(disputes := db.disputes[d.id := filed]);
    NotYetDisputed(db, d.id);
    DisputeLogsNothing(db, db', filed);
    StaysGrounded(db, db');
    assert Unique(db');
  }

  lemma StaysGrounded(db: Db, db': Db)
    requires AllGrounded(db) && db'.log == db.log && db'.removals == db.removals && db'.dismissals == db.dismissals
    requires db.disputes.Keys <= db'.disputes.Keys
    ensures AllGrounded(db')
  {
    forall x | x in db'.log ensures Grounded(db', x) { StillGrounded(db, db', x); }
  }

  lemma DecisionLogsOnce(db: Db, db': Db, rem: Removal, d: Dispute, e: Entry)
    requires OneEach(db) && d.id in db.disputes && db.disputes[d.id].state.Open?
    requires d.removal in db.removals && rem == db.removals[d.removal] && rem.removedBy != d.decidedBy && !d.state.Open?
    requires OfOutcome(e, rem, d) && db' == db.(disputes := db.disputes[d.id := d], log := db.log + [e])
    ensures OneEach(db')
  {
    EntriesAppend(db.log, e);
    assert DisputeLogged(db, db.disputes[d.id]);
    forall x | x in db.log ensures !OfDispute(x, d.id) {
      if OfDispute(x, d.id) { SomeCounted(db.log, y => OfDispute(y, d.id), x); }
    }
    forall i | i in db'.disputes ensures DisputeLogged(db', db'.disputes[i]) {
      if i != d.id { assert DisputeLogged(db, db.disputes[i]) && !OfDispute(e, i); }
    }
  }

  lemma DecisionKeepsInv(db: Db, id: Id, outcome: State, who: string, now: Instant, wall: string, actor: Actor)
    requires Inv(db) && !outcome.Open? && Deciding(db, id, outcome, who, now, wall, actor, NoTrouble).1.Ok?
    ensures Inv(Deciding(db, id, outcome, who, now, wall, actor, NoTrouble).0)
  {
    var (db', d) := Deciding(db, id, outcome, who, now, wall, actor, NoTrouble);
    var rem := db.removals[d.value.removal];
    var e := DisputeOutcomeAct(rem, d.value, wall, actor);
    assert OfOutcome(e, rem, d.value);
    GroundedAppend(db, db', e);
    DismissedFirstAppend(db.log, e);
    DecisionLogsOnce(db, db', rem, d.value, e);
  }

  lemma ApplyKeepsInv(db: Db, e: Event)
    requires Inv(db) && Specified([e])
    ensures Inv(Apply(db, e))
  {
    assert e in [e];
    match e
    case Remove(rem, wall, actor, trouble) =>
      if Removing(db, rem, wall, actor, trouble).1.Ok? { RemovalKeepsInv(db, rem, wall, actor); }
    case Dismiss(d, wall, actor, trouble) =>
      if Dismissing(db, d, wall, actor, trouble).1.Ok? { DismissalKeepsInv(db, d, wall, actor); }
    case Disputes(d, trouble) =>
      if Disputing(db, d, trouble).1.Ok? { DisputeKeepsInv(db, d); }
    case Decide(id, outcome, who, now, wall, actor, trouble) =>
      if Deciding(db, id, outcome, who, now, wall, actor, trouble).1.Ok? {
        DecisionKeepsInv(db, id, outcome, who, now, wall, actor);
      }
  }

  lemma {:induction false} RunKeepsInv(db: Db, events: seq<Event>)
    requires Inv(db) && Specified(events)
    ensures Inv(Run(db, events))
    decreases |events|
  {
    if events != [] {
      assert events[0] in events;
      ApplyKeepsInv(db, events[0]);
      RunKeepsInv(Apply(db, events[0]), events[1..]);
    }
  }

  // ---------------------------------------------------------------- main results

  /**
   * Whatever was tried and whatever was rolled back: the log holds one entry a removal, one a dismissal and one a
   * decided dispute, the last of the kind of its outcome, and no entry but these.
   */
  lemma RowsAndLogAgree(events: seq<Event>)
    requires Specified(events)
    ensures var db := Run(Empty(), events);
            && (forall id :: id in db.removals ==> RemovalEntries(db.log, db.removals[id]) == 1)
            && (forall id :: id in db.dismissals ==> DismissalEntries(db.log, db.dismissals[id]) == 1)
            && (forall id :: id in db.disputes ==> DisputeLogged(db, db.disputes[id]))
            && (forall e :: e in db.log ==> Grounded(db, e))
  {
    RunKeepsInv(Empty(), events);
  }

  /**
   * A message may be removed after its dismissal and never dismissed after its removal: where both stand, the log
   * tells.
   */
  lemma DismissalCameFirst(events: seq<Event>, i: nat, j: nat)
    requires Specified(events)
    requires i < |Run(Empty(), events).log| && Run(Empty(), events).log[i].kind.ReportLeftStanding?
    requires j < |Run(Empty(), events).log| && Run(Empty(), events).log[j].kind.PostWithheld?
    requires Run(Empty(), events).log[i].subject == Run(Empty(), events).log[j].subject
    ensures i < j
  {
    RunKeepsInv(Empty(), events);
  }

  lemma DecidedStep(db: Db, e: Event, id: Id)
    requires id in db.disputes && !db.disputes[id].state.Open?
    ensures id in Apply(db, e).disputes && Apply(db, e).disputes[id] == db.disputes[id]
  {}

  /** A decided dispute is never decided again, nor otherwise changed. */
  lemma {:induction false} DecidedOnce(db: Db, events: seq<Event>, id: Id, outcome: State, who: string, now: Instant,
                                       wall: string, actor: Actor, trouble: Trouble)
    requires id in db.disputes && !db.disputes[id].state.Open?
    ensures var later := Run(db, events);
            && id in later.disputes && later.disputes[id] == db.disputes[id]
            && Deciding(later, id, outcome, who, now, wall, actor, trouble)
               == (later, Refused(if trouble.StatementBreaks? then Broken else AlreadyDecided))
    decreases |events|
  {
    if events != [] {
      DecidedStep(db, events[0], id);
      DecidedOnce(Apply(db, events[0]), events[1..], id, outcome, who, now, wall, actor, trouble);
    }
  }

  /** In every reachable state a decided dispute was decided by somebody else than the remover. */
  lemma NeverByTheRemover(events: seq<Event>, id: Id)
    requires Specified(events) && id in Run(Empty(), events).disputes && !Run(Empty(), events).disputes[id].state.Open?
    ensures var db := Run(Empty(), events);
            db.disputes[id].removal in db.removals
              && db.disputes[id].decidedBy != db.removals[db.disputes[id].removal].removedBy
  {
    RunKeepsInv(Empty(), events);
    assert DisputeLogged(Run(Empty(), events), Run(Empty(), events).disputes[id]);
  }

  /** The code takes any outcome; rows and log go on agreeing exactly when it is not `open`. */
  lemma AgreesIffSpecified(db: Db, id: Id, outcome: State, who: string, now: Instant, wall: string, actor: Actor)
    requires Inv(db) && Deciding(db, id, outcome, who, now, wall, actor, NoTrouble).1.Ok?
    ensures Inv(Deciding(db, id, outcome, who, now, wall, actor, NoTrouble).0) <==> !outcome.Open?
  {
    if !outcome.Open? {
      DecisionKeepsInv(db, id, outcome, who, now, wall, actor);
    } else {
      var (db', d) := Deciding(db, id, outcome, who, now, wall, actor, NoTrouble);
      var e := DisputeOutcomeAct(db.removals[d.value.removal], d.value, wall, actor);
      assert OfDispute(e, id) && e in db'.log;
      SomeCounted(db'.log, x => OfDispute(x, id), e);
      assert db'.disputes[id].id == id && !DisputeLogged(db', db'.disputes[id]);
    }
  }

  /** True of a step that decides a dispute to stay open. */
  ghost predicate DecidesOpen(db: Db, e: Event)
  {
    e.Decide? && e.outcome.Open? && Deciding(db, e.id, e.outcome, e.reviewer, e.now, e.wall, e.actor, e.trouble).1.Ok?
  }

  ghost predicate SomeStepDecidesOpen(db: Db, events: seq<Event>)
    decreases |events|
  {
    events != [] && (DecidesOpen(db, events[0]) || SomeStepDecidesOpen(Apply(db, events[0]), events[1..]))
  }

  /** A dispute the log says more of than its row. */
  ghost predicate Oversaid(db: Db, id: Id)
  {
    && id in db.disputes && db.disputes[id].id == id
    && OutcomeEntries(db.log, id) > if db.disputes[id].state.Open? then 0 else 1
  }

  lemma ApplyKeepsOversaid(db: Db, e: Event, id: Id)
    requires Oversaid(db, id)
    ensures Oversaid(Apply(db, e), id)
  {
    var db' := Apply(db, e);
    if db'.log != db.log {
      var entry := db'.log[|db.log|];
      EntriesAppend(db.log, entry);
      assert db'.log == db.log + [entry];
      if e.Decide? && e.id == id { assert OfDispute(entry, id); }
    }
  }

  lemma {:induction false} RunKeepsOversaid(db: Db, events: seq<Event>, id: Id)
    requires Oversaid(db, id)
    ensures !Inv(Run(db, events))
    decreases |events|
  {
    if events != [] {
      ApplyKeepsOversaid(db, events[0], id);
      RunKeepsOversaid(Apply(db, events[0]), events[1..], id);
    }
  }

  lemma DecidingOpenOversays(db: Db, e: Event)
    requires Inv(db) && DecidesOpen(db, e)
    ensures Oversaid(Apply(db, e), e.id)
  {
    var db' := Apply(db, e);
    var d := db'.disputes[e.id];
    var entry := DisputeOutcomeAct(db.removals[d.removal], d, e.wall, e.actor);
    assert OfDispute(entry, e.id) && entry in db'.log;
    SomeCounted(db'.log, x => OfDispute(x, e.id), entry);
  }

  lemma OtherStepsKeepInv(db: Db, e: Event)
    requires Inv(db) && !DecidesOpen(db, e)
    ensures Inv(Apply(db, e))
  {
    if e.Decide? && e.outcome.Open? {
      assert Apply(db, e) == db;
    } else {
      ApplyKeepsInv(db, e);
    }
  }

  /** Over a whole run rows and log go on agreeing exactly when no step of it decided a dispute to stay open. */
  lemma {:induction false} RunAgreesIff(db: Db, events: seq<Event>)
    requires Inv(db)
    ensures Inv(Run(db, events)) <==> !SomeStepDecidesOpen(db, events)
    decreases |events|
  {
    if events != [] {
      if DecidesOpen(db, events[0]) {
        DecidingOpenOversays(db, events[0]);
        RunKeepsOversaid(Apply(db, events[0]), events[1..], events[0].id);
      } else {
        OtherStepsKeepInv(db, events[0]);
        RunAgreesIff(Apply(db, events[0]), events[1..]);
      }
    }
  }

  lemma RunTwo(db: Db, e: Event, f: Event)
    ensures Run(db, [e, f]) == Apply(Apply(db, e), f)
  {
    assert [e, f][1..] == [f] && [f][1..] == [];
    assert Run(Apply(db, e), [f]) == Apply(Apply(db, e), f);
  }

  /** A removal is made and disputed, and the dispute decided to stay open by somebody else: the log then oversays. */
  lemma OpenMayBeDecided(rem: Removal, d: Dispute, who: string, now: Instant, wall: string, actor: Actor)
    requires d.removal == rem.id && who != rem.removedBy
    ensures var db := Run(Empty(), [Remove(rem, wall, actor, NoTrouble), Disputes(d, NoTrouble)]);
            var (db', reply) := Deciding(db, d.id, Open, who, now, wall, actor, NoTrouble);
            && Inv(db) && reply.Ok? && !Inv(db') && d.id in db'.disputes && db'.disputes[d.id].state.Open?
            && Deciding(db', d.id, Upheld, who, now, wall, actor, NoTrouble).1.Ok?
  {
    var remove, dispute := Remove(rem, wall, actor, NoTrouble), Disputes(d, NoTrouble);
    RunTwo(Empty(), remove, dispute);
    RunKeepsInv(Empty(), [remove, dispute]);
    AgreesIffSpecified(Run(Empty(), [remove, dispute]), d.id, Open, who, now, wall, actor);
  }

  // ---------------------------------------------------------------- when a message is both removed and left standing

  predicate BothStand(db: Db, message: string)
  {
    Removed(db, message) && Dismissed(db, message)
  }

  /** A removal that succeeds leaves both standing exactly when the message had been dismissed before it. */
  lemma RemovalMakesBothStandIff(db: Db, rem: Removal, wall: string, actor: Actor, trouble: Trouble)
    requires Removing(db, rem, wall, actor, trouble).1.Ok?
    ensures BothStand(Removing(db, rem, wall, actor, trouble).0, rem.message) <==> Dismissed(db, rem.message)
  {
    var after := Removing(db, rem, wall, actor, trouble).0;
    assert rem.id in after.removals && after.removals[rem.id].message == rem.message;
    assert after.dismissals == db.dismissals;
  }

  /** A dismissal that succeeds never does. */
  lemma DismissalNeverMakesBothStand(db: Db, d: Dismissal, wall: string, actor: Actor, trouble: Trouble)
    requires Dismissing(db, d, wall, actor, trouble).1.Ok?
    ensures !BothStand(Dismissing(db, d, wall, actor, trouble).0, d.message)
  {
    assert Dismissing(db, d, wall, actor, trouble).0.removals == db.removals;
  }

  /** True of a step that removes a message which stands dismissed. */
  ghost predicate RemovesTheDismissed(db: Db, e: Event, message: string)
  {
    e.Remove? && e.rem.message == message && Dismissed(db, message)
      && Removing(db, e.rem, e.wall, e.actor, e.trouble).1.Ok?
  }

  lemma BothStandAfterStepIff(db: Db, e: Event, message: string)
    ensures BothStand(Apply(db, e), message) <==> BothStand(db, message) || RemovesTheDismissed(db, e, message)
  {
    match e
    case Remove(rem, wall, actor, trouble) =>
      var (after, r) := Removing(db, rem, wall, actor, trouble);
      if r.Ok? {
        if rem.message == message {
          RemovalMakesBothStandIff(db, rem, wall, actor, trouble);
        } else {
          OtherRemovals(db, rem, message);
        }
      }
    case Dismiss(d, wall, actor, trouble) =>
      var (after, r) := Dismissing(db, d, wall, actor, trouble);
      if r.Ok? {
        if d.message == message {
          DismissalNeverMakesBothStand(db, d, wall, actor, trouble);
        } else {
          OtherDismissals(db, d, message);
        }
      }
    case _ =>
      assert Apply(db, e).removals == db.removals && Apply(db, e).dismissals == db.dismissals;
  }

  lemma OtherRemovals(db: Db, rem: Removal, message: string)
    requires rem.id !in db.removals && rem.message != message
    ensures Removed(db.(removals := db.removals[rem.id := rem]), message) <==> Removed(db, message)
  {
    var after := db.(removals := db.removals[rem.id := rem]);
    if Removed(db, message) {
      var id :| id in db.removals && db.removals[id].message == message;
      assert id in after.removals && after.removals[id].message == message;
    }
  }

  lemma OtherDismissals(db: Db, d: Dismissal, message: string)
    requires d.id !in db.dismissals && d.message != message
    ensures Dismissed(db.(dismissals := db.dismissals[d.id := d]), message) <==> Dismissed(db, message)
  {
    var after := db.(dismissals := db.dismissals[d.id := d]);
    if Dismissed(db, message) {
      var id :| id in db.dismissals && db.dismissals[id].message == message;
      assert id in after.dismissals && after.dismissals[id].message == message;
    }
  }

  /** Some step of the run removes the message while it stands dismissed. */
  ghost predicate SomeStepRemovesTheDismissed(db: Db, events: seq<Event>, message: string)
    decreases |events|
  {
    events != []
    && (RemovesTheDismissed(db, events[0], message)
        || SomeStepRemovesTheDismissed(Apply(db, events[0]), events[1..], message))
  }

  /** Over any run, from any state: a message comes to be both exactly by being removed after it was dismissed. */
  lemma {:induction false} BothStandIff(db: Db, events: seq<Event>, message: string)
    ensures BothStand(Run(db, events), message)
            <==> BothStand(db, message) || SomeStepRemovesTheDismissed(db, events, message)
    decreases |events|
  {
    if events != [] {
      BothStandAfterStepIff(db, events[0], message);
      BothStandIff(Apply(db, events[0]), events[1..], message);
    }
  }

  /** The log shows a dismissal of the message and, later, its removal. */
  ghost predicate LoggedBoth(log: seq<Entry>, message: string)
  {
    exists i, j :: 0 <= i < j < |log| && log[i].kind.ReportLeftStanding? && log[i].subject == message
                   && log[j].kind.PostWithheld? && log[j].subject == message
  }

  lemma RowsHaveEntries(db: Db, message: string)
    requires Inv(db)
    ensures Removed(db, message)
            <==> exists j :: 0 <= j < |db.log| && db.log[j].kind.PostWithheld? && db.log[j].subject == message
    ensures Dismissed(db, message)
            <==> exists i :: 0 <= i < |db.log| && db.log[i].kind.ReportLeftStanding? && db.log[i].subject == message
  {
    if Removed(db, message) {
      var id :| id in db.removals && db.removals[id].message == message;
      var e := CountedOne(db.log, x => OfRemoval(x, db.removals[id]));
      var j :| 0 <= j < |db.log| && db.log[j] == e;
    }
    if Dismissed(db, message) {
      var id :| id in db.dismissals && db.dismissals[id].message == message;
      var e := CountedOne(db.log, x => OfDismissal(x, db.dismissals[id]));
      var i :| 0 <= i < |db.log| && db.log[i] == e;
    }
    forall j | 0 <= j < |db.log|
      ensures db.log[j].kind.PostWithheld? ==> Removed(db, db.log[j].subject)
      ensures db.log[j].kind.ReportLeftStanding? ==> Dismissed(db, db.log[j].subject)
    {
      assert Grounded(db, db.log[j]);
    }
  }

  lemma {:induction false} CountedOne(log: seq<Entry>, p: Entry -> bool) returns (e: Entry)
    requires Count(log, p) > 0
    ensures e in log && p(e)
    decreases |log|
  {
    e := log[|log| - 1];
    if !p(e) { e := CountedOne(log[..|log| - 1], p); }
  }

  /** In every reachable state a message is both exactly when the log shows its dismissal and, later, its removal. */
  lemma BothStandIffLogged(events: seq<Event>, message: string)
    requires Specified(events)
    ensures BothStand(Run(Empty(), events), message) <==> LoggedBoth(Run(Empty(), events).log, message)
  {
    RunKeepsInv(Empty(), events);
    var db := Run(Empty(), events);
    RowsHaveEntries(db, message);
    if BothStand(db, message) {
      var i :| 0 <= i < |db.log| && db.log[i].kind.ReportLeftStanding? && db.log[i].subject == message;
      var j :| 0 <= j < |db.log| && db.log[j].kind.PostWithheld? && db.log[j].subject == message;
      assert i < j;
    }
  }

  /** A run in which both come to stand. */
  lemma BothMayStand(d: Dismissal, rem: Removal, wall: string, actor: Actor)
    requires rem.message == d.message
    ensures BothStand(Run(Empty(), [Dismiss(d, wall, actor, NoTrouble), Remove(rem, wall, actor, NoTrouble)]),
                      d.message)
  {
    var dismiss, remove := Dismiss(d, wall, actor, NoTrouble), Remove(rem, wall, actor, NoTrouble);
    var db := Apply(Empty(), dismiss);
    assert d.id in db.dismissals;
    assert [dismiss, remove][1..] == [remove];
    assert RemovesTheDismissed(db, [remove][0], d.message);
    BothStandIff(Empty(), [dismiss, remove], d.message);
  }

  // ---------------------------------------------------------------- the store

  class ModerationStore {
    var removals: map<Id, Removal>
    var dismissals: map<Id, Dismissal>
    var disputes: map<Id, Dispute>
    var log: seq<Entry>

    ghost function Contents(): Db
      reads this
    {
      Db(removals, dismissals, disputes, log)
    }

    constructor ()
      ensures Contents() == Empty()
    {
      removals, dismissals, disputes, log := map[], map[], map[], [];
    }

    /** `draft` is the caller's; a missing id is minted and a missing time is the clock's. */
    method CreateRemoval(draft: Removal, minted: Id, now: Instant, wall: string, actor: Actor, trouble: Trouble)
      returns (answer: Result<Removal>)
      modifies this`removals, this`log
      ensures var rem := draft.(id := if draft.id == "" then minted else draft.id,
                                removedAt := if draft.removedAt.None? then Some(now) else draft.removedAt);
              (Contents(), answer) == Removing(old(Contents()), rem, wall, actor, trouble)
    {
      var rem := draft;
      if rem.removedAt.None? { rem := rem.(removedAt := Some(now)); }
      if rem.id == "" { rem := rem.(id := minted); }
      var before := removals;
      if trouble.StatementBreaks? { return Refused(Broken); }
      if rem.id in removals || exists id :: id in removals && removals[id].message == rem.message {
        return Refused(Conflict);
      }
      removals := removals[rem.id := rem];
      if trouble.WriterBreaks? {
        removals := before;
        return Refused(Broken);
      }
      log := log + [WithheldAct(rem, wall, actor)];
      answer := Ok(rem);
    }

    method DismissReports(draft: Dismissal, minted: Id, now: Instant, wall: string, actor: Actor, trouble: Trouble)
      returns (answer: Result<Dismissal>)
      modifies this`dismissals, this`log
      ensures var d := draft.(id := if draft.id == "" then minted else draft.id,
                              dismissedAt := if draft.dismissedAt.None? then Some(now) else draft.dismissedAt);
              (Contents(), answer) == Dismissing(old(Contents()), d, wall, actor, trouble)
    {
      var d := draft;
      if d.dismissedAt.None? { d := d.(dismissedAt := Some(now)); }
      if d.id == "" { d := d.(id := minted); }
      var before := dismissals;
      if trouble.StatementBreaks? { return Refused(Broken); }
      if exists id :: id in removals && removals[id].message == d.message { return Refused(AlreadyRemoved); }
      if d.id in dismissals || exists id :: id in dismissals && dismissals[id].message == d.message {
        return Refused(Conflict);
      }
      dismissals := dismissals[d.id := d];
      if trouble.WriterBreaks? {
        dismissals := before;
        return Refused(Broken);
      }
      log := log + [ReportLeftStandingAct(d, wall, actor)];
      answer := Ok(d);
    }

    method CreateDispute(draft: Dispute, minted: Id, now: Instant, trouble: Trouble) returns (answer: Result<Dispute>)
      modifies this`disputes
      ensures var d := draft.(id := if draft.id == "" then minted else draft.id,
                              raisedAt := if draft.raisedAt.None? then Some(now) else draft.raisedAt);
              (Contents(), answer) == Disputing(old(Contents()), d, trouble)
    {
      if trouble.StatementBreaks? { return Refused(Broken); }
      if draft.removal !in removals { return Refused(BadReference); }
      var d := draft;
      if d.raisedAt.None? { d := d.(raisedAt := Some(now)); }
      if d.id == "" { d := d.(id := minted); }
      d := d.(state := Open, decidedBy := "", decidedAt := None);
      if d.id in disputes || exists id :: id in disputes && disputes[id].removal == d.removal {
        return Refused(Conflict);
      }
      disputes := disputes[d.id := d];
      answer := Ok(d);
    }

    method DecideDispute(id: Id, outcome: State, decidedBy: string, now: Instant, wall: string,
                         actor: Actor, trouble: Trouble)
      returns (answer: Result<Dispute>)
      modifies this`disputes, this`log
      ensures (Contents(), answer) == Deciding(old(Contents()), id, outcome, decidedBy, now, wall, actor, trouble)
      ensures answer.Ok? ==>
                && id in disputes && disputes[id] == answer.value
                && answer.value == old(disputes)[id].(state := outcome, decidedBy := decidedBy, decidedAt := Some(now))
    {
      if trouble.StatementBreaks? { return Refused(Broken); }
      if id !in disputes { return Refused(NotFound); }
      var d := disputes[id];
      if !d.state.Open? { return Refused(AlreadyDecided); }
      if d.removal !in removals { return Refused(NotFound); }
      var rem := removals[d.removal];
      if rem.removedBy == decidedBy { return Refused(ReviewerIsRemover); }
      var before := disputes;
      disputes := disputes[id := d.(state := outcome, decidedBy := decidedBy, decidedAt := Some(now))];
      var decided := disputes[id];
      if trouble.WriterBreaks? {
        disputes := before;
        return Refused(Broken);
      }
      log := log + [DisputeOutcomeAct(rem, decided, wall, actor)];
      answer := Ok(decided);
    }
  }
}
