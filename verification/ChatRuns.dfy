/** Any number of starts, declines and opens of chat threads at once, one statement at a time. */
module ChatRuns {
  import opened Common
  import opened ChatThreads

  type Reuse = Thread -> bool

  /** What came of a call; `asked` is the path its label names, `refused` the thread it met there and did not reuse. */
  datatype Outcome =
    | Answered(thread: Thread, minted: bool, asked: string, reusable: Reuse, refused: Option<Thread>)
    | DeclineAnswered(thread: Thread, now: bool)
    | Opened(thread: Thread)
    | NotDeclinable
    | NotFound
    | Conflicted
    | Broken

  /** A call between two of its statements; `round` is how often a decline has called itself. */
  datatype Call =
    | Starting(draft: Thread, reusable: Reuse)
    | Minting(draft: Thread, asked: string, reusable: Reuse, refused: Option<Thread>)
    | Rereading(draft: Thread, asked: string, reusable: Reuse, refused: Option<Thread>)
    | Declining(room: string, id: string, who: string, round: nat)
    | DecliningRead(read: Thread, who: string, round: nat)
    | Opening(room: string, id: string)
    | OpeningRead(read: Thread)
    | Over(outcome: Outcome)

  /** The store, the calls, the path each thread was inserted at, and the call each id was minted for. */
  datatype Sys = Sys(db: Db, calls: map<nat, Call>, origin: map<string, string>, minter: map<string, nat>)

  datatype Event =
    | BeginStart(call: nat, draft: Thread, reusable: Reuse)
    | BeginDecline(call: nat, room: string, id: string, who: string)
    | BeginOpen(call: nat, room: string, id: string)
    | Step(call: nat, at: Instant)
    | InsertBreaks(call: nat)
    | Break(call: nat)

  ghost predicate Fresh(s: Sys, id: string)
  {
    id !in s.minter && id !in s.db.threads
  }

  ghost function Apply(s: Sys, e: Event): Sys
  {
    match e
    case BeginStart(call, draft, reusable) =>
      if call in s.calls || !Fresh(s, draft.id) || draft.declined.Some? then s
      else s.(calls := s.calls[call := Starting(draft, reusable)], minter := s.minter[draft.id := call])
    case BeginDecline(call, room, id, who) =>
      if call in s.calls then s else s.(calls := s.calls[call := Declining(room, id, who, 0)])
    case BeginOpen(call, room, id) =>
      if call in s.calls then s else s.(calls := s.calls[call := Opening(room, id)])
    case Step(call, at) => if call in s.calls then Advance(s, call, at) else s
    case InsertBreaks(call) =>
      if call in s.calls && s.calls[call].Minting? then Turn(s, call, AfterBrokenInsert(s.calls[call])) else s
    case Break(call) => if call in s.calls && !s.calls[call].Over? then Turn(s, call, Over(Broken)) else s
  }

  ghost function Advance(s: Sys, call: nat, at: Instant): Sys
    requires call in s.calls
  {
    match s.calls[call]
    case Starting(draft, reusable) => Turn(s, call, AfterRead(s.db, draft, reusable))
    case Minting(draft, asked, reusable, refused) => AdvanceMint(s, call, draft, asked, reusable, refused, at)
    case Rereading(draft, asked, reusable, refused) => Turn(s, call, AfterReread(s.db, draft, asked, reusable, refused))
    case Declining(room, id, who, round) => Turn(s, call, AfterDeclineRead(s.db, room, id, who, round))
    case DecliningRead(read, who, round) => AdvanceDecline(s, call, read, who, round, at)
    case Opening(room, id) => Turn(s, call, AfterOpenRead(s.db, room, id))
    case OpeningRead(read) =>
      Turn(s.(db := OpenUpdate(s.db, read.room, read.id)), call,
           Over(Opened(read.(audience := Group, declined := None))))
    case Over(_) => s
  }

  ghost function Turn(s: Sys, call: nat, c: Call): Sys
  {
    s.(calls := s.calls[call := c])
  }

  /** The first read of `mintUnlessReusable`. */
  ghost function AfterRead(db: Db, draft: Thread, reusable: Reuse): Call
  {
    match Resolve(db, SlotOf(draft))
    case None => Minting(draft, draft.path, reusable, None)
    case Some(existing) =>
      if existing.declined.None? && reusable(existing) then Over(Answered(existing, false, draft.path, reusable, None))
      else Minting(draft.(path := Aside(draft.path, draft.id)), draft.path, reusable, Some(existing))
  }

  /** Its insert. */
  ghost function AdvanceMint(s: Sys, call: nat, draft: Thread, asked: string, reusable: Reuse,
                             refused: Option<Thread>, at: Instant): Sys
  {
    var t := draft.(createdAt := at);
    if CanInsert(s.db, t) then
      Turn(s.(db := Insert(s.db, t), origin := s.origin[t.id := t.path]), call,
           Over(Answered(t, true, asked, reusable, refused)))
    else
      Turn(s, call, Rereading(draft, asked, reusable, refused))
  }

  /** An insert that fails for another reason than the index goes on to the second read all the same. */
  ghost function AfterBrokenInsert(c: Call): Call
    requires c.Minting?
  {
    Rereading(c.draft, c.asked, c.reusable, c.refused)
  }

  /** Its second read, after the insert lost. */
  ghost function AfterReread(db: Db, draft: Thread, asked: string, reusable: Reuse, refused: Option<Thread>): Call
  {
    match Resolve(db, SlotOf(draft))
    case None => Over(Conflicted)
    case Some(existing) =>
      if existing.declined.None? && reusable(existing) then Over(Answered(existing, false, asked, reusable, refused))
      else Over(Conflicted)
  }

  /** The read of `DeclineThread`. */
  ghost function AfterDeclineRead(db: Db, room: string, id: string, who: string, round: nat): Call
  {
    if id in db.threads && db.threads[id].room == room then
      var t := db.threads[id];
      if t.declined.Some? then Over(DeclineAnswered(t, false))
      else if !Declinable(t) then Over(NotDeclinable)
      else DecliningRead(t, who, round)
    else Over(NotFound)
  }

  /** Its conditional update, and the call to itself when that matched nothing. */
  ghost function AdvanceDecline(s: Sys, call: nat, read: Thread, who: string, round: nat, at: Instant): Sys
  {
    var how := Decline(at, who);
    var (db, update) := DeclineUpdate(s.db, read.room, read.id, how, Aside(read.path, read.id));
    match update
    case Unmatched => Turn(s, call, Declining(read.room, read.id, who, round + 1))
    case Clash => Turn(s, call, Over(Conflicted))
    case Matched =>
      Turn(s.(db := db), call,
           Over(DeclineAnswered(read.(declined := Some(how), path := Aside(read.path, read.id)), true)))
  }

  ghost function AfterOpenRead(db: Db, room: string, id: string): Call
  {
    if id in db.threads && db.threads[id].room == room then
      var t := db.threads[id];
      if t.audience.Group? then Over(Opened(t)) else OpeningRead(t)
    else Over(NotFound)
  }

  // ---------------------------------------------------------------- what every step keeps

  ghost predicate Known(s: Sys, t: Thread)
  {
    t.id in s.db.threads && SameThread(t, s.db.threads[t.id])
  }

  /** Where a thread sits: where it was inserted, or moved aside from there by its decline. */
  ghost predicate Seated(t: Thread, origin: string)
  {
    match Stage(t)
    case 2 => t.path == origin
    case 1 => t.path == Aside(origin, t.id)
    case _ => t.declined.None? && (t.path == origin || t.path == Aside(origin, t.id))
  }

  ghost predicate Unminted(s: Sys, call: nat, draft: Thread)
  {
    draft.id in s.minter && s.minter[draft.id] == call && draft.id !in s.db.threads && draft.declined.None?
  }

  ghost predicate CallInv(s: Sys, call: nat, c: Call)
  {
    match c
    case Starting(draft, _) => Unminted(s, call, draft)
    case Minting(draft, asked, _, refused) =>
      Unminted(s, call, draft) && draft.path == if refused.None? then asked else Aside(asked, draft.id)
    case Rereading(draft, asked, _, refused) =>
      Unminted(s, call, draft) && draft.path == if refused.None? then asked else Aside(asked, draft.id)
    case Declining(_, id, _, round) =>
      round <= 1 && (round == 1 ==> id in s.db.threads && Stage(s.db.threads[id]) <= 1)
    case DecliningRead(read, _, round) =>
      && round == 0 && Known(s, read) && Declinable(read)
      && (Stage(s.db.threads[read.id]) == 2 ==> s.db.threads[read.id].path == read.path)
    case OpeningRead(read) => Known(s, read)
    case Over(Answered(t, minted, asked, reusable, refused)) =>
      && Known(s, t) && (minted ==> t.id in s.minter && s.minter[t.id] == call)
      && (!minted ==> t.declined.None? && reusable(t))
      && t.path == if refused.None? then asked else if minted then Aside(asked, t.id) else t.path
    case Over(DeclineAnswered(t, now)) => Known(s, t) && Stage(s.db.threads[t.id]) <= 1
    case Over(Opened(t)) => Known(s, t)
    case _ => true
  }

  ghost predicate Inv(s: Sys)
  {
    && Consistent(s.db)
    && s.origin.Keys == s.db.threads.Keys
    && (forall id :: id in s.db.threads ==> Seated(s.db.threads[id], s.origin[id]))
    && (forall c :: c in s.calls ==> CallInv(s, c, s.calls[c]))
    && DeclinedOnce(s)
  }

  ghost predicate DeclinedNow(c: Call, id: string)
  {
    c.Over? && c.outcome.DeclineAnswered? && c.outcome.now && c.outcome.thread.id == id
  }

  /** No two calls are told they declined one thread. */
  ghost predicate DeclinedOnce(s: Sys)
  {
    forall c, d, id :: c in s.calls && d in s.calls && DeclinedNow(s.calls[c], id) && DeclinedNow(s.calls[d], id) ==>
      c == d
  }

  /** Others' progress does not disturb what holds of a call. */
  lemma CallInvMovesOn(s: Sys, s': Sys, call: nat, c: Call)
    requires CallInv(s, call, c) && MovesOn(s.db, s'.db)
    requires forall id :: id in s.minter ==> id in s'.minter && s'.minter[id] == s.minter[id]
    requires forall id :: id in s'.db.threads && id !in s.db.threads ==> id in s.minter && s.minter[id] != call
    ensures CallInv(s', call, c)
  {}

  ghost predicate AllSeated(db: Db, origin: map<string, string>)
  {
    origin.Keys == db.threads.Keys && forall id :: id in db.threads ==> Seated(db.threads[id], origin[id])
  }

  lemma OtherCallsStay(s: Sys, s': Sys, call: nat, c: Call)
    requires s'.calls == s.calls[call := c] && CallInv(s', call, c) && MovesOn(s.db, s'.db)
    requires forall d :: d in s.calls ==> CallInv(s, d, s.calls[d])
    requires forall id :: id in s.minter ==> id in s'.minter && s'.minter[id] == s.minter[id]
    requires forall id :: id in s'.db.threads && id !in s.db.threads ==> id in s.minter && s.minter[id] == call
    ensures forall d :: d in s'.calls ==> CallInv(s', d, s'.calls[d])
  {
    forall d | d in s'.calls ensures CallInv(s', d, s'.calls[d]) {
      if d != call { CallInvMovesOn(s, s', d, s.calls[d]); }
    }
  }

  lemma StillDeclinedOnce(s: Sys, s': Sys, call: nat, c: Call)
    requires DeclinedOnce(s) && s'.calls == s.calls[call := c]
    requires forall id, d :: DeclinedNow(c, id) && d in s.calls && d != call ==> !DeclinedNow(s.calls[d], id)
    ensures DeclinedOnce(s')
  {}

  /** A step of one call keeps the invariant if it keeps the table's side of it and the call's own. */
  lemma StepKeepsInv(s: Sys, s': Sys, call: nat, c: Call)
    requires Inv(s) && s'.calls == s.calls[call := c] && CallInv(s', call, c)
    requires MovesOn(s.db, s'.db) && AllSeated(s'.db, s'.origin)
    requires forall id :: id in s.minter ==> id in s'.minter && s'.minter[id] == s.minter[id]
    requires forall id :: id in s'.db.threads && id !in s.db.threads ==> id in s.minter && s.minter[id] == call
    requires forall id, d :: DeclinedNow(c, id) && d in s.calls && d != call ==> !DeclinedNow(s.calls[d], id)
    ensures Inv(s')
  {
    OtherCallsStay(s, s', call, c);
    StillDeclinedOnce(s, s', call, c);
  }

  /** A step that writes nothing. */
  lemma ReadKeepsInv(s: Sys, call: nat, c: Call)
    requires Inv(s) && CallInv(s, call, c) && !(c.Over? && c.outcome.DeclineAnswered? && c.outcome.now)
    ensures Inv(Turn(s, call, c)) && MovesOn(s.db, s.db)
  {
    CallInvMovesOn(s, Turn(s, call, c), call, c);
    StepKeepsInv(s, Turn(s, call, c), call, c);
  }

  lemma StartReads(s: Sys, call: nat, draft: Thread, reusable: Reuse)
    requires Inv(s) && CallInv(s, call, Starting(draft, reusable))
    ensures CallInv(s, call, AfterRead(s.db, draft, reusable))
  {}

  lemma RereadReads(s: Sys, call: nat, draft: Thread, asked: string, reusable: Reuse, refused: Option<Thread>)
    requires Inv(s) && CallInv(s, call, Rereading(draft, asked, reusable, refused))
    ensures CallInv(s, call, AfterReread(s.db, draft, asked, reusable, refused))
  {}

  lemma DeclineReads(s: Sys, call: nat, room: string, id: string, who: string, round: nat)
    requires Inv(s) && CallInv(s, call, Declining(room, id, who, round))
    ensures CallInv(s, call, AfterDeclineRead(s.db, room, id, who, round))
    ensures round == 1 ==> AfterDeclineRead(s.db, room, id, who, round).Over?
  {}

  lemma MintKeepsInv(s: Sys, call: nat, draft: Thread, asked: string, reusable: Reuse,
                     refused: Option<Thread>, at: Instant)
    requires Inv(s) && CallInv(s, call, Minting(draft, asked, reusable, refused))
    ensures Inv(AdvanceMint(s, call, draft, asked, reusable, refused, at))
    ensures MovesOn(s.db, AdvanceMint(s, call, draft, asked, reusable, refused, at).db)
  {
    var t := draft.(createdAt := at);
    if CanInsert(s.db, t) {
      var c := Over(Answered(t, true, asked, reusable, refused));
      InsertMovesOn(s.db, t);
      StepKeepsInv(s, Turn(s.(db := Insert(s.db, t), origin := s.origin[t.id := t.path]), call, c), call, c);
    } else {
      ReadKeepsInv(s, call, Rereading(draft, asked, reusable, refused));
    }
  }

  lemma DeclineSeats(s: Sys, read: Thread, how: Decline)
    requires Inv(s) && Known(s, read) && DeclineMatches(s.db, read.room, read.id)
             && s.db.threads[read.id].path == read.path
    requires DeclineUpdate(s.db, read.room, read.id, how, Aside(read.path, read.id)).1.Matched?
    ensures AllSeated(DeclineUpdate(s.db, read.room, read.id, how, Aside(read.path, read.id)).0, s.origin)
  {
    var db := DeclineUpdate(s.db, read.room, read.id, how, Aside(read.path, read.id)).0;
    forall id | id in db.threads ensures Seated(db.threads[id], s.origin[id]) {
      assert Seated(s.db.threads[id], s.origin[id]);
    }
  }

  lemma NobodyDeclinedItYet(s: Sys, id: string)
    requires Inv(s) && id in s.db.threads && Stage(s.db.threads[id]) == 2
    ensures forall d :: d in s.calls ==> !DeclinedNow(s.calls[d], id)
  {
    forall d | d in s.calls ensures !DeclinedNow(s.calls[d], id) {
      assert CallInv(s, d, s.calls[d]);
    }
  }

  lemma DeclineMatchedKeepsInv(s: Sys, call: nat, read: Thread, how: Decline)
    requires Inv(s) && Known(s, read) && DeclineMatches(s.db, read.room, read.id)
             && s.db.threads[read.id].path == read.path
    requires DeclineUpdate(s.db, read.room, read.id, how, Aside(read.path, read.id)).1.Matched?
    ensures var db := DeclineUpdate(s.db, read.room, read.id, how, Aside(read.path, read.id)).0;
            var c := Over(DeclineAnswered(read.(declined := Some(how), path := Aside(read.path, read.id)), true));
            Inv(Turn(s.(db := db), call, c)) && MovesOn(s.db, db)
  {
    var aside := Aside(read.path, read.id);
    var db := DeclineUpdate(s.db, read.room, read.id, how, aside).0;
    var c := Over(DeclineAnswered(read.(declined := Some(how), path := aside), true));
    DeclineMovesOn(s.db, read.room, read.id, how, aside);
    DeclineSeats(s, read, how);
    NobodyDeclinedItYet(s, read.id);
    StepKeepsInv(s, Turn(s.(db := db), call, c), call, c);
  }

  lemma DeclineUpdateKeepsInv(s: Sys, call: nat, read: Thread, who: string, round: nat, at: Instant)
    requires Inv(s) && CallInv(s, call, DecliningRead(read, who, round))
    ensures Inv(AdvanceDecline(s, call, read, who, round, at))
    ensures MovesOn(s.db, AdvanceDecline(s, call, read, who, round, at).db)
  {
    var how := Decline(at, who);
    match DeclineUpdate(s.db, read.room, read.id, how, Aside(read.path, read.id)).1
    case Matched => DeclineMatchedKeepsInv(s, call, read, how);
    case Unmatched => ReadKeepsInv(s, call, Declining(read.room, read.id, who, round + 1));
    case Clash => ReadKeepsInv(s, call, Over(Conflicted));
  }

  lemma OpenSeats(s: Sys, room: string, id: string)
    requires Inv(s)
    ensures AllSeated(OpenUpdate(s.db, room, id), s.origin)
  {
    var db := OpenUpdate(s.db, room, id);
    forall i | i in db.threads ensures Seated(db.threads[i], s.origin[i]) {
      assert Seated(s.db.threads[i], s.origin[i]);
    }
  }

  lemma OpenKeepsInv(s: Sys, call: nat, read: Thread)
    requires Inv(s) && CallInv(s, call, OpeningRead(read))
    ensures var c := Over(Opened(read.(audience := Group, declined := None)));
            var db := OpenUpdate(s.db, read.room, read.id);
            Inv(Turn(s.(db := db), call, c)) && MovesOn(s.db, db)
  {
    var c := Over(Opened(read.(audience := Group, declined := None)));
    var db := OpenUpdate(s.db, read.room, read.id);
    OpenMovesOn(s.db, read.room, read.id);
    OpenSeats(s, read.room, read.id);
    StepKeepsInv(s, Turn(s.(db := db), call, c), call, c);
  }

  lemma StartBeginsWithInv(s: Sys, call: nat, draft: Thread, reusable: Reuse)
    requires Inv(s) && call !in s.calls && Fresh(s, draft.id) && draft.declined.None?
    ensures var s' := Apply(s, BeginStart(call, draft, reusable));
            Inv(s') && MovesOn(s.db, s'.db)
  {
    StepKeepsInv(s, Apply(s, BeginStart(call, draft, reusable)), call, Starting(draft, reusable));
  }

  lemma BrokenInsertKeepsInv(s: Sys, call: nat)
    requires Inv(s) && call in s.calls && s.calls[call].Minting?
    ensures Inv(Turn(s, call, AfterBrokenInsert(s.calls[call]))) && MovesOn(s.db, s.db)
  {
    assert CallInv(s, call, s.calls[call]);
    ReadKeepsInv(s, call, AfterBrokenInsert(s.calls[call]));
  }

  /** A call that begins without having read anything. */
  lemma CallBeginsWithInv(s: Sys, call: nat, c: Call)
    requires Inv(s) && call !in s.calls
    requires c.Opening? || (c.Declining? && c.round == 0)
    ensures Inv(Turn(s, call, c)) && MovesOn(s.db, s.db)
  {
    ReadKeepsInv(s, call, c);
  }

  lemma BreakKeepsInv(s: Sys, call: nat)
    requires Inv(s) && call in s.calls && !s.calls[call].Over?
    ensures Inv(Turn(s, call, Over(Broken))) && MovesOn(s.db, s.db)
  {
    ReadKeepsInv(s, call, Over(Broken));
  }

  lemma BeginKeepsInv(s: Sys, e: Event)
    requires Inv(s) && (e.BeginStart? || e.BeginDecline? || e.BeginOpen?)
    ensures Inv(Apply(s, e)) && MovesOn(s.db, Apply(s, e).db)
  {
    if e.call !in s.calls {
      match e
      case BeginStart(call, draft, reusable) =>
        if Fresh(s, draft.id) && draft.declined.None? { StartBeginsWithInv(s, call, draft, reusable); }
      case BeginDecline(call, room, id, who) =>
        CallBeginsWithInv(s, call, Declining(room, id, who, 0));
        assert Apply(s, e) == Turn(s, call, Declining(room, id, who, 0));
      case BeginOpen(call, room, id) =>
        CallBeginsWithInv(s, call, Opening(room, id));
        assert Apply(s, e) == Turn(s, call, Opening(room, id));
    }
  }

  lemma FailureKeepsInv(s: Sys, e: Event)
    requires Inv(s) && (e.InsertBreaks? || e.Break?)
    ensures Inv(Apply(s, e)) && MovesOn(s.db, Apply(s, e).db)
  {
    if e.call in s.calls {
      if e.InsertBreaks? {
        if s.calls[e.call].Minting? { BrokenInsertKeepsInv(s, e.call); }
      } else if !s.calls[e.call].Over? {
        BreakKeepsInv(s, e.call);
        assert Apply(s, e) == Turn(s, e.call, Over(Broken));
      }
    }
  }

  lemma StartStepKeepsInv(s: Sys, call: nat, at: Instant)
    requires Inv(s) && call in s.calls
    requires s.calls[call].Starting? || s.calls[call].Minting? || s.calls[call].Rereading?
    ensures Inv(Advance(s, call, at)) && MovesOn(s.db, Advance(s, call, at).db)
  {
    assert CallInv(s, call, s.calls[call]);
    match s.calls[call]
    case Starting(draft, reusable) =>
      StartReads(s, call, draft, reusable);
      ReadKeepsInv(s, call, AfterRead(s.db, draft, reusable));
    case Minting(draft, asked, reusable, refused) => MintKeepsInv(s, call, draft, asked, reusable, refused, at);
    case Rereading(draft, asked, reusable, refused) =>
      RereadReads(s, call, draft, asked, reusable, refused);
      ReadKeepsInv(s, call, AfterReread(s.db, draft, asked, reusable, refused));
  }

  lemma DeclineStepKeepsInv(s: Sys, call: nat, at: Instant)
    requires Inv(s) && call in s.calls && (s.calls[call].Declining? || s.calls[call].DecliningRead?)
    ensures Inv(Advance(s, call, at)) && MovesOn(s.db, Advance(s, call, at).db)
  {
    assert CallInv(s, call, s.calls[call]);
    match s.calls[call]
    case Declining(room, id, who, round) =>
      DeclineReads(s, call, room, id, who, round);
      ReadKeepsInv(s, call, AfterDeclineRead(s.db, room, id, who, round));
      assert Advance(s, call, at) == Turn(s, call, AfterDeclineRead(s.db, room, id, who, round));
    case DecliningRead(read, who, round) => DeclineUpdateKeepsInv(s, call, read, who, round, at);
  }

  lemma OpenReadKeepsInv(s: Sys, call: nat, room: string, id: string)
    requires Inv(s)
    ensures Inv(Turn(s, call, AfterOpenRead(s.db, room, id))) && MovesOn(s.db, s.db)
  {
    ReadKeepsInv(s, call, AfterOpenRead(s.db, room, id));
  }

  lemma OpenStepKeepsInv(s: Sys, call: nat, at: Instant)
    requires Inv(s) && call in s.calls && (s.calls[call].Opening? || s.calls[call].OpeningRead? || s.calls[call].Over?)
    ensures Inv(Advance(s, call, at)) && MovesOn(s.db, Advance(s, call, at).db)
  {
    assert CallInv(s, call, s.calls[call]);
    match s.calls[call]
    case Opening(room, id) =>
      OpenReadKeepsInv(s, call, room, id);
      assert Advance(s, call, at) == Turn(s, call, AfterOpenRead(s.db, room, id));
    case OpeningRead(read) => OpenKeepsInv(s, call, read);
    case Over(_) => assert Advance(s, call, at) == s;
  }

  /** Every step of every call keeps the invariant, and threads only move on. */
  lemma ApplyKeepsInv(s: Sys, e: Event)
    requires Inv(s)
    ensures Inv(Apply(s, e)) && MovesOn(s.db, Apply(s, e).db)
  {
    if e.InsertBreaks? || e.Break? {
      FailureKeepsInv(s, e);
    } else if !e.Step? {
      BeginKeepsInv(s, e);
    } else if e.call in s.calls {
      var c := s.calls[e.call];
      if c.Starting? || c.Minting? || c.Rereading? {
        StartStepKeepsInv(s, e.call, e.at);
      } else if c.Declining? || c.DecliningRead? {
        DeclineStepKeepsInv(s, e.call, e.at);
      } else {
        OpenStepKeepsInv(s, e.call, e.at);
      }
    }
  }

  ghost function Run(s: Sys, events: seq<Event>): Sys
    decreases |events|
  {
    if events == [] then s else Run(Apply(s, events[0]), events[1..])
  }

  lemma {:induction false} RunKeepsInv(s: Sys, events: seq<Event>)
    requires Inv(s)
    ensures Inv(Run(s, events)) && MovesOn(s.db, Run(s, events).db)
    decreases |events|
  {
    if events != [] {
      ApplyKeepsInv(s, events[0]);
      RunKeepsInv(Apply(s, events[0]), events[1..]);
      MovesOnTransitively(s.db, Apply(s, events[0]).db, Run(s, events).db);
    }
  }

  /** The state a run of the empty store reaches. */
  ghost function Reached(events: seq<Event>): Sys
  {
    Run(Sys(Db(map[], map[]), map[], map[], map[]), events)
  }

  lemma ReachedKeepsInv(events: seq<Event>)
    ensures Inv(Reached(events))
  {
    RunKeepsInv(Sys(Db(map[], map[]), map[], map[], map[]), events);
  }

  // ---------------------------------------------------------------- main results

  /**
   * In every reachable state no two threads of a room share a path, and each sits where it was started or was moved
   * aside.
   */
  lemma {:induction false} PathsStayUniqueAndSeated(events: seq<Event>, i: string, j: string)
    requires i in Reached(events).db.threads && j in Reached(events).db.threads
    ensures var s := Reached(events);
            && (SlotOf(s.db.threads[i]) == SlotOf(s.db.threads[j]) ==> i == j)
            && i in s.origin && Seated(s.db.threads[i], s.origin[i])
  {
    ReachedKeepsInv(events);
    var s := Reached(events);
    if SlotOf(s.db.threads[i]) == SlotOf(s.db.threads[j]) { OneThreadASlot(s.db, i, j); }
  }

  /** A thread only moves from undeclined to declined to the group's, or from undeclined to the group's. */
  lemma {:induction false} ThreadsOnlyMoveOn(events: seq<Event>, more: seq<Event>, id: string)
    requires id in Reached(events).db.threads
    ensures var before := Reached(events).db.threads[id];
            var later := Run(Reached(events), more).db;
            && id in later.threads && SameThread(before, later.threads[id])
            && Stage(later.threads[id]) <= Stage(before)
  {
    ReachedKeepsInv(events);
    RunKeepsInv(Reached(events), more);
  }

  /** Over a whole run at most one call is told it declined a thread. */
  lemma {:induction false} DeclinedAtMostOnce(events: seq<Event>, c: nat, d: nat, id: string)
    requires c in Reached(events).calls && d in Reached(events).calls
    requires DeclinedNow(Reached(events).calls[c], id) && DeclinedNow(Reached(events).calls[d], id)
    ensures c == d
  {
    ReachedKeepsInv(events);
  }

  /** A decline calls itself at most once: its second read always ends it. */
  lemma {:induction false} DeclineRecursOnce(events: seq<Event>, call: nat, at: Instant)
    requires call in Reached(events).calls
    ensures var s := Reached(events);
            && (s.calls[call].Declining? ==> s.calls[call].round <= 1)
            && (s.calls[call].DecliningRead? ==> s.calls[call].round == 0)
            && (s.calls[call].Declining? && s.calls[call].round == 1 ==> Advance(s, call, at).calls[call].Over?)
  {
    ReachedKeepsInv(events);
    var s := Reached(events);
    assert CallInv(s, call, s.calls[call]);
    match s.calls[call]
    case Declining(room, id, who, round) => DeclineReads(s, call, room, id, who, round);
    case _ =>
  }
}
