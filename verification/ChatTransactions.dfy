/** The two transactions of `manager_chat_start.go`: a member's start and a lead's decline, with their notices. */
module ChatTransactions {
  import opened Common
  import opened Names
  import opened ChatReuse
  import opened ChatStores
  import opened ChatThreads
  import opened ChatRequests
  import C = ChatRuns
  import N = Notifications
  import A = Audiences
  import Slug

  function Draft(id: string, room: string, path: string, tag: string, requester: string): Thread
  {
    Thread(id, room, path, tag, Leads, requester, None, 0)
  }

  function Notice(event: string, caller: string, t: Thread): N.Notification
  {
    N.Notification("", "", caller, "chat", event, "chat_thread", t.id, t.room, "", "", None, None)
  }

  // ---------------------------------------------------------------- starting

  /** The transaction of `startRequested`. */
  ghost function RequestTx(w: World, h: N.Host, toTell: seq<string>, draft: Thread, at: Instant, works: bool,
                           weather: A.Weather): (World, Reply)
    requires Consistent(w.chat)
  {
    var (chat, answer) := Told(Mint(w.chat, draft, MayRead(draft.requestedBy), at, works, Alone()));
    if answer.None? then (w, Denied(Conflict))
    else if !answer.value.1 then (World(chat, w.notes), Given(answer.value.0, []))
    else
      var notice := Notice("thread_requested", draft.requestedBy, answer.value.0);
      var (notes, raised) := TellAll(WithinTransaction(h), w.notes, notice, toTell, weather);
      if raised.None? then (w, Denied(NoticeFails)) else (World(chat, notes), Given(answer.value.0, raised.value))
  }

  ghost function LeadsStart(w: World, draft: Thread, at: Instant, works: bool, others: Others): (World, Reply)
    requires Consistent(w.chat) && Polite(others)
  {
    var (chat, answer) := Told(Mint(w.chat, draft, _ => true, at, works, others));
    (World(chat, w.notes), if answer.Some? then Given(answer.value.0, []) else Denied(Conflict))
  }

  /** Why the caller may not start or decline anything in the room, if so. */
  predicate Outside(hooks: Hooks, room: string, caller: string)
  {
    room == "" || caller == "" || hooks.belongs(caller).No?
  }

  ghost function StartFor(w: World, h: N.Host, hooks: Hooks, a: Slug.Alphabet, room: string,
                          caller: string, tag: string,
                          id: string, at: Instant, works: bool, others: Others, weather: A.Weather): (World, Reply)
    requires Consistent(w.chat) && Polite(others)
  {
    var path := Slug.TagPath(a, Slug.Tidy(tag));
    if Outside(hooks, room, caller) then (w, Denied(NotFound))
    else if hooks.belongs(caller).Fails? || hooks.leads(caller).Fails? then (w, Denied(HookFails))
    else if hooks.leads(caller).Yes? then
      if path.None? then (w, Denied(Invalid))
      else LeadsStart(w, Draft(id, room, path.value, Slug.Tidy(tag), ""), at, works, others)
    else if !LeadsAnswered(hooks, caller) then (w, Denied(HookFails))
    else if path.None? then (w, Denied(Invalid))
    else RequestTx(w, h, OtherLeads(hooks, caller), Draft(id, room, path.value, Slug.Tidy(tag), caller),
                   at, works, weather)
  }

  /** What a request left behind: the caller's own new thread and the notices of it, or an older one and nothing. */
  ghost predicate Answers(w: World, w': World, h: N.Host, toTell: seq<string>, draft: Thread, at: Instant,
                          t: Thread, raised: seq<N.Notification>, weather: A.Weather)
  {
    && Consistent(w'.chat) && t.id in w'.chat.threads && w'.chat.threads[t.id] == t
    && t.room == draft.room && t.declined.None? && ReadableBy(t, draft.requestedBy, false)
    && if t.id in w.chat.threads then w' == w && raised == []
       else
         var notice := Notice("thread_requested", draft.requestedBy, t);
         && t == draft.(createdAt := at, path := t.path) && w'.chat == Insert(w.chat, t)
         && A.Actors(raised) == Keep(toTell, x => !Silenced(WithinTransaction(h), w.notes, notice, x))
         && A.Adds(w.notes, w'.notes, notice, raised, weather)
  }

  lemma AloneMints(db: Db, draft: Thread, at: Instant, works: bool)
    requires Consistent(db) && draft.id !in db.threads && draft.declined.None?
    ensures var (after, answer) := Told(Mint(db, draft, MayRead(draft.requestedBy), at, works, Alone()));
            && Consistent(after)
            && (answer.None? ==> after == db)
            && (answer.Some? ==> answer.value.1 == (answer.value.0.id !in db.threads))
            && (answer.Some? ==> after == if answer.value.1 then Insert(db, answer.value.0) else db)
  {
    MintMovesOn(db, draft, MayRead(draft.requestedBy), at, works, Alone());
  }

  lemma RequestAnswers(w: World, h: N.Host, toTell: seq<string>, draft: Thread, at: Instant, works: bool,
                       weather: A.Weather)
    requires Consistent(w.chat) && draft.id !in w.chat.threads && draft.declined.None? && draft.requestedBy != ""
    ensures var (w', reply) := RequestTx(w, h, toTell, draft, at, works, weather);
            if reply.Denied? then w' == w
            else Answers(w, w', h, toTell, draft, at, reply.thread, reply.raised, weather)
  {
    AloneMints(w.chat, draft, at, works);
    MintFits(w.chat, draft, MayRead(draft.requestedBy), at, works, Alone());
    var (chat, answer) := Told(Mint(w.chat, draft, MayRead(draft.requestedBy), at, works, Alone()));
    if answer.Some? && answer.value.1 {
      var notice := Notice("thread_requested", draft.requestedBy, answer.value.0);
      if TellAll(WithinTransaction(h), w.notes, notice, toTell, weather).1.Some? {
        TellsTheUnsilenced(WithinTransaction(h), w.notes, notice, toTell, weather);
      }
    }
  }

  /**
   * A member's start answers only a thread that member may read. It tells the distinct other leads who have not
   * muted it, and only when it minted the thread; when it is refused it leaves nothing behind.
   */
  lemma MembersStart(w: World, h: N.Host, hooks: Hooks, a: Slug.Alphabet, room: string, caller: string, tag: string,
                     id: string, at: Instant, works: bool, others: Others, weather: A.Weather)
    requires Consistent(w.chat) && Polite(others) && id !in w.chat.threads && !hooks.leads(caller).Yes?
    ensures var (w', reply) := StartFor(w, h, hooks, a, room, caller, tag, id, at, works, others, weather);
            if reply.Denied? then w' == w
            else
              var path := Slug.TagPath(a, Slug.Tidy(tag));
              && path.Some?
              && Answers(w, w', h, OtherLeads(hooks, caller), Draft(id, room, path.value, Slug.Tidy(tag), caller), at,
                         reply.thread, reply.raised, weather)
  {
    var path := Slug.TagPath(a, Slug.Tidy(tag));
    if path.Some? && caller != "" {
      RequestAnswers(w, h, OtherLeads(hooks, caller), Draft(id, room, path.value, Slug.Tidy(tag), caller),
                     at, works, weather);
    }
  }

  /** The other leads are those the host names and confirms, none twice, and never the requester. */
  lemma OtherLeadsAre(hooks: Hooks, requester: string)
    ensures forall a :: a in OtherLeads(hooks, requester) <==>
              hooks.leadsOf.Named? && a in hooks.leadsOf.named && a != requester && a != "" && Confirmed(hooks, a)
    ensures NoneTwice(OtherLeads(hooks, requester))
  {
    if hooks.leadsOf.Named? {
      var names, ok := FirstSeen(hooks.leadsOf.named, {requester, ""}), a => Confirmed(hooks, a);
      FirstSeenIsTheOnlyOne(hooks.leadsOf.named, {requester, ""}, names);
      KeptAre(names, ok);
      KeepsNoneTwice(names, ok);
    }
  }

  lemma {:induction false} KeepsNoneTwice(names: seq<string>, p: string -> bool)
    requires NoneTwice(names)
    ensures NoneTwice(Keep(names, p))
    decreases |names|
  {
    if names != [] {
      KeepsNoneTwice(names[..|names| - 1], p);
      KeptAre(names[..|names| - 1], p);
    }
  }

  /** A host that says requests cannot be muted, and a lead who muted chat. */
  function FirmHost(): N.Host
  {
    N.Host(map["thread_requested" := "chat"], {}, event => event == "thread_requested", (rows, n) => false)
  }

  function MutedLead(at: Instant): World
  {
    World(Db(map[], map[]), N.Db(map[], map[("lead", "chat") := N.Preference("p", true, at)]))
  }

  /** The host's word is not heard in the transaction: the request commits and the lead it should reach is left out. */
  lemma TheHostsWordIsNotHeard(at: Instant, weather: A.Weather)
    requires weather.fate("lead").Fares?
    ensures var (w', reply) :=
            RequestTx(MutedLead(at), FirmHost(), ["lead"], Draft("t", "r", "/x", "x", "m"), at, true, weather);
            && reply.Given? && reply.raised == [] && "t" in w'.chat.threads
            && FirmHost().saysUnmutable("thread_requested")
            && A.RaiseOne(FirmHost(), w'.notes, Notice("thread_requested", "m", reply.thread), "lead", weather).1.Ok?
  {
    var draft := Draft("t", "r", "/x", "x", "m");
    var t := draft.(createdAt := at);
    MintInserts(MutedLead(at).chat, draft, MayRead("m"), at, true, Alone(), t);
    TellAllAppend(WithinTransaction(FirmHost()), MutedLead(at).notes, Notice("thread_requested", "m", t),
                  ["lead"], 0, weather);
    assert ["lead"][..1] == ["lead"];
  }

  // ---------------------------------------------------------------- declining

  ghost function Recipients(asked: A.Asked, defaults: seq<string>): seq<string>
  {
    match asked case NoHook => defaults case Fails => [] case Named(named) => FirstSeen(named, {""})
  }

  /** The notices of a decline, and the commit or the rollback they decide. */
  ghost function TellOfDecline(w: World, chat: Db, h: N.Host, hooks: Hooks, t: Thread, caller: string,
                               weather: A.Weather): (World, Reply)
  {
    if hooks.recipients.Fails? then (w, Denied(HookFails))
    else
      var (notes, raised) := TellAll(WithinTransaction(h), w.notes, Notice("thread_declined", caller, t),
                                     Recipients(hooks.recipients, [t.requestedBy]), weather);
      if raised.None? then (w, Denied(NoticeFails)) else (World(chat, notes), Given(t, raised.value))
  }

  /** The transaction of `DeclineChatThreadFor`. */
  ghost function DeclineTx(w: World, h: N.Host, hooks: Hooks, room: string, id: string, caller: string, at: Instant,
                           weather: A.Weather): (World, Reply)
    requires Consistent(w.chat)
  {
    var (chat, o) := DeclineOf(w.chat, room, id, caller, at, Alone(), 0);
    match o
    case DeclineAnswered(t, now) =>
      if !now || t.requestedBy == caller then (World(chat, w.notes), Given(t, []))
      else TellOfDecline(w, chat, h, hooks, t, caller, weather)
    case NotDeclinable => (w, Denied(NotDeclinable))
    case NotFound => (w, Denied(NotFound))
    case _ => (w, Denied(Conflict))
  }

  ghost function DeclineFor(w: World, h: N.Host, hooks: Hooks, room: string, id: string, caller: string, at: Instant,
                            weather: A.Weather): (World, Reply)
    requires Consistent(w.chat)
  {
    if Outside(hooks, room, caller) then (w, Denied(NotFound))
    else if hooks.belongs(caller).Fails? || hooks.leads(caller).Fails? then (w, Denied(HookFails))
    else if hooks.leads(caller).No? then (w, Denied(NotFound))
    else DeclineTx(w, h, hooks, room, id, caller, at, weather)
  }

  /** True of a thread that a decline may still decline, and whose aside path is free. */
  ghost predicate MayDecline(db: Db, room: string, id: string)
  {
    && id in db.threads && db.threads[id].room == room && Declinable(db.threads[id])
    && (room, Aside(db.threads[id].path, id)) !in db.index
  }

  /** True of a thread that a decline may still decline, but whose aside path another thread has. */
  ghost predicate AsideIsTaken(db: Db, room: string, id: string)
  {
    && id in db.threads && db.threads[id].room == room && Declinable(db.threads[id])
    && (room, Aside(db.threads[id].path, id)) in db.index
  }

  /** What a decline's two statements do with nobody in between. */
  lemma AloneDeclines(db: Db, room: string, id: string, who: string, at: Instant, after: Db, o: C.Outcome)
    requires Consistent(db) && (after, o) == DeclineOf(db, room, id, who, at, Alone(), 0)
    ensures MovesOn(db, after)
    ensures o.DeclineAnswered? && o.now <==> MayDecline(db, room, id)
    ensures o.Conflicted? <==> AsideIsTaken(db, room, id)
    ensures o.DeclineAnswered? || o.NotDeclinable? || o.NotFound? || o.Conflicted?
    ensures !o.DeclineAnswered? ==> after == db
    ensures o.DeclineAnswered? ==>
              && id in db.threads && db.threads[id].room == room && o.thread.id == id && o.thread.room == room
              && id in after.threads && after.threads[id] == o.thread && o.thread.declined.Some?
              && o.now == Declinable(db.threads[id])
              && (o.now ==>
                    var t := db.threads[id];
                    o.thread == t.(declined := Some(Decline(at, who)), path := Aside(t.path, id)))
              && (!o.now ==> after == db && db.threads[id].declined.Some?)
  {
    if id in db.threads && db.threads[id].room == room && Declinable(db.threads[id]) {
      var t := db.threads[id];
      DeclineMovesOn(db, room, id, Decline(at, who), Aside(t.path, id));
      DeclineLands(db, t, Decline(at, who));
    }
  }

  /** What an answered decline left behind: a declined thread, and notices if it is the call that declined it. */
  ghost predicate DeclineAnswers(w: World, w': World, h: N.Host, hooks: Hooks, room: string, id: string, caller: string,
                                 t: Thread, raised: seq<N.Notification>, weather: A.Weather)
  {
    && id in w.chat.threads && id in w'.chat.threads && t == w'.chat.threads[id]
    && t.id == id && t.room == room && t.declined.Some?
    && if Declinable(w.chat.threads[id]) && t.requestedBy != caller
      then TellsOfDecline(w, w', h, hooks, caller, t, raised, weather)
       else raised == [] && w'.notes == w.notes
  }

  ghost predicate TellsOfDecline(w: World, w': World, h: N.Host, hooks: Hooks, caller: string,
                                 t: Thread, raised: seq<N.Notification>, weather: A.Weather)
  {
    var notice := Notice("thread_declined", caller, t);
    && A.Actors(raised)
      == Keep(Recipients(hooks.recipients, [t.requestedBy]), x => !Silenced(WithinTransaction(h), w.notes, notice, x))
    && A.Adds(w.notes, w'.notes, notice, raised, weather)
  }

  lemma TellingOfDecline(w: World, chat: Db, h: N.Host, hooks: Hooks, t: Thread, caller: string, weather: A.Weather,
                         w': World, reply: Reply)
    requires (w', reply) == TellOfDecline(w, chat, h, hooks, t, caller, weather)
    ensures reply.Denied? ==> w' == w
    ensures reply.Given? ==>
              w'.chat == chat && reply.thread == t && TellsOfDecline(w, w', h, hooks, caller, t, reply.raised, weather)
  {
    var notice, told := Notice("thread_declined", caller, t), Recipients(hooks.recipients, [t.requestedBy]);
    if TellAll(WithinTransaction(h), w.notes, notice, told, weather).1.Some? {
      TellsTheUnsilenced(WithinTransaction(h), w.notes, notice, told, weather);
    }
  }

  lemma DeclineTxAnswers(w: World, h: N.Host, hooks: Hooks, room: string, id: string, caller: string, at: Instant,
                         weather: A.Weather, w': World, reply: Reply)
    requires Consistent(w.chat) && (w', reply) == DeclineTx(w, h, hooks, room, id, caller, at, weather)
    ensures MovesOn(w.chat, w'.chat)
    ensures reply.Denied? ==> w' == w
    ensures reply.Given? ==> DeclineAnswers(w, w', h, hooks, room, id, caller, reply.thread, reply.raised, weather)
  {
    var (chat, o) := DeclineOf(w.chat, room, id, caller, at, Alone(), 0);
    AloneDeclines(w.chat, room, id, caller, at, chat, o);
    if o.DeclineAnswered? && o.now && o.thread.requestedBy != caller {
      TellingOfDecline(w, chat, h, hooks, o.thread, caller, weather, w', reply);
    }
  }

  /**
   * A lead's decline that is answered leaves the thread declined; it tells somebody only if it is the one that declined
   * it, and then whom the host would have told and has not muted it. Refused, it leaves nothing behind.
   */
  lemma LeadsDecline(w: World, h: N.Host, hooks: Hooks, room: string, id: string, caller: string, at: Instant,
                     weather: A.Weather, w': World, reply: Reply)
    requires Consistent(w.chat) && (w', reply) == DeclineFor(w, h, hooks, room, id, caller, at, weather)
    ensures MovesOn(w.chat, w'.chat)
    ensures reply.Denied? ==> w' == w
    ensures reply.Given? ==>
              && Confirmed(hooks, caller)
              && DeclineAnswers(w, w', h, hooks, room, id, caller, reply.thread, reply.raised, weather)
  {
    if !Outside(hooks, room, caller) && Confirmed(hooks, caller) {
      DeclineTxAnswers(w, h, hooks, room, id, caller, at, weather, w', reply);
    }
  }

  lemma ConflictsAreConflicts(w: World, h: N.Host, hooks: Hooks, room: string, id: string, caller: string,
                              at: Instant, weather: A.Weather)
    requires Consistent(w.chat)
    ensures DeclineTx(w, h, hooks, room, id, caller, at, weather).1 == Denied(Conflict)
            <==> var o := DeclineOf(w.chat, room, id, caller, at, Alone(), 0).1;
                 !o.DeclineAnswered? && !o.NotDeclinable? && !o.NotFound?
  {}

  /** A confirmed lead's decline ends in a conflict exactly when another thread has the path it would be moved to. */
  lemma LeadsDeclineConflictsIff(w: World, h: N.Host, hooks: Hooks, room: string, id: string, caller: string,
                                 at: Instant, weather: A.Weather)
    requires Consistent(w.chat) && !Outside(hooks, room, caller) && Confirmed(hooks, caller)
    ensures DeclineFor(w, h, hooks, room, id, caller, at, weather).1 == Denied(Conflict)
            <==> AsideIsTaken(w.chat, room, id)
  {
    var (chat, o) := DeclineOf(w.chat, room, id, caller, at, Alone(), 0);
    AloneDeclines(w.chat, room, id, caller, at, chat, o);
    ConflictsAreConflicts(w, h, hooks, room, id, caller, at, weather);
    assert DeclineFor(w, h, hooks, room, id, caller, at, weather)
        == DeclineTx(w, h, hooks, room, id, caller, at, weather);
  }

  lemma AnsweredIsDeclined(w: World, h: N.Host, hooks: Hooks, room: string, id: string,
                           caller: string, at: Instant, weather: A.Weather)
    requires Consistent(w.chat) && DeclineFor(w, h, hooks, room, id, caller, at, weather).1.Given?
    ensures var chat := DeclineFor(w, h, hooks, room, id, caller, at, weather).0.chat;
            id in chat.threads && Stage(chat.threads[id]) <= 1
  {
    var (w', reply) := DeclineFor(w, h, hooks, room, id, caller, at, weather);
    LeadsDecline(w, h, hooks, room, id, caller, at, weather, w', reply);
  }

  lemma DeclinedTellsNobody(w: World, h: N.Host, hooks: Hooks, room: string, id: string,
                            caller: string, at: Instant, weather: A.Weather)
    requires Consistent(w.chat) && id in w.chat.threads && !Declinable(w.chat.threads[id])
    ensures var (w', reply) := DeclineFor(w, h, hooks, room, id, caller, at, weather);
            w' == w && (reply.Given? ==> reply.raised == [])
  {}

  /** Once a thread was declined with notices, no later decline of it raises any, whatever happened in between. */
  lemma OneRoundOfDeclineNotices(w: World, h: N.Host, hooks: Hooks, room: string, id: string, caller: string,
                                 at: Instant, weather: A.Weather, later: World, hooks': Hooks, caller': string,
                                 at': Instant, weather': A.Weather)
    requires Consistent(w.chat)
    requires DeclineFor(w, h, hooks, room, id, caller, at, weather).1.Given?
    requires MovesOn(DeclineFor(w, h, hooks, room, id, caller, at, weather).0.chat, later.chat)
    ensures var (w', reply) := DeclineFor(later, h, hooks', room, id, caller', at', weather');
            w' == later && (reply.Given? ==> reply.raised == [])
  {
    AnsweredIsDeclined(w, h, hooks, room, id, caller, at, weather);
    DeclinedTellsNobody(later, h, hooks', room, id, caller', at', weather');
  }

  // ---------------------------------------------------------------- the methods

  /** Runs a member's request in one transaction: a failed notice takes the thread back with it. */
  method StartRequested(chat: ChatStore, notices: N.NotificationStore, h: N.Host, hooks: Hooks,
                        a: Slug.Alphabet, room: string,
                        caller: string, tag: string, id: string, at: Instant, works: bool, weather: A.Weather)
    returns (reply: Reply)
    requires chat.Valid() && caller != ""
    modifies chat, notices`rows
    ensures chat.Valid()
    ensures var w := World(old(chat.db), old(notices.Contents()));
            (World(chat.db, notices.Contents()), reply)
            == if !LeadsAnswered(hooks, caller) then (w, Denied(HookFails))
               else if Slug.TagPath(a, Slug.Tidy(tag)).None? then (w, Denied(Invalid))
               else RequestTx(w, h, OtherLeads(hooks, caller),
                              Draft(id, room, Slug.TagPath(a, Slug.Tidy(tag)).value, Slug.Tidy(tag), caller), at,
                              works, weather)
  {
    var toTell := LeadsToTell(hooks, caller);
    if toTell.None? { return Denied(HookFails); }
    var path := Slug.LabelTagPath(a, Slug.Tidy(tag));
    if path.None? { return Denied(Invalid); }
    var before, rows := chat.db, notices.rows;
    var draft := Draft(id, room, path.value, Slug.Tidy(tag), caller);
    var answer := chat.MintUnlessReusable(draft, MayRead(caller), at, works, Alone());
    if answer.None? {
      chat.db := before;
      return Denied(Conflict);
    }
    var (t, minted) := answer.value;
    if !minted { return Given(t, []); }
    var raised :=
      RaiseEach(notices, WithinTransaction(h), toTell.value, Notice("thread_requested", caller, t), weather);
    if raised.None? {
      chat.db, notices.rows := before, rows;
      return Denied(NoticeFails);
    }
    reply := Given(t, raised.value);
  }

  method StartChatThreadFor(chat: ChatStore, notices: N.NotificationStore, h: N.Host, hooks: Hooks, a: Slug.Alphabet,
                            room: string, caller: string, tag: string, id: string, at: Instant, works: bool,
                            others: Others, weather: A.Weather)
    returns (reply: Reply)
    requires chat.Valid() && Polite(others)
    modifies chat, notices`rows
    ensures chat.Valid()
    ensures (World(chat.db, notices.Contents()), reply)
            == StartFor(World(old(chat.db), old(notices.Contents())), h, hooks, a, room, caller,
                        tag, id, at, works, others, weather)
  {
    if room == "" || caller == "" || hooks.belongs(caller).No? { return Denied(NotFound); }
    if hooks.belongs(caller).Fails? || hooks.leads(caller).Fails? { return Denied(HookFails); }
    if hooks.leads(caller).No? {
      reply := StartRequested(chat, notices, h, hooks, a, room, caller, tag, id, at, works, weather);
      return;
    }
    var path := Slug.LabelTagPath(a, Slug.Tidy(tag));
    if path.None? { return Denied(Invalid); }
    var draft := Draft(id, room, path.value, Slug.Tidy(tag), "");
    var answer := chat.MintUnlessReusable(draft, _ => true, at, works, others);
    reply := if answer.Some? then Given(answer.value.0, []) else Denied(Conflict);
  }

  method DeclineChatThreadFor(chat: ChatStore, notices: N.NotificationStore, h: N.Host, hooks: Hooks,
                              room: string, id: string,
                              caller: string, at: Instant, weather: A.Weather)
    returns (reply: Reply)
    requires chat.Valid()
    modifies chat, notices`rows
    ensures chat.Valid()
    ensures (World(chat.db, notices.Contents()), reply)
            == DeclineFor(World(old(chat.db), old(notices.Contents())), h, hooks, room, id, caller, at, weather)
  {
    if room == "" || caller == "" || hooks.belongs(caller).No? { return Denied(NotFound); }
    if hooks.belongs(caller).Fails? || hooks.leads(caller).Fails? { return Denied(HookFails); }
    if hooks.leads(caller).No? { return Denied(NotFound); }
    var before, rows := chat.db, notices.rows;
    var outcome, _ := chat.DeclineThread(room, id, caller, at, Alone(), 0);
    if !outcome.DeclineAnswered? {
      chat.db := before;
      return Denied(if outcome.NotDeclinable? then NotDeclinable else if outcome.NotFound? then NotFound else Conflict);
    }
    var t := outcome.thread;
    if !outcome.now || t.requestedBy == caller { return Given(t, []); }
    var told := RecipientsFor(hooks.recipients, [t.requestedBy]);
    if told.None? {
      chat.db := before;
      return Denied(HookFails);
    }
    var raised := RaiseEach(notices, WithinTransaction(h), told.value, Notice("thread_declined", caller, t), weather);
    if raised.None? {
      chat.db, notices.rows := before, rows;
      return Denied(NoticeFails);
    }
    reply := Given(t, raised.value);
  }
}
