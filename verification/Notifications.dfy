/** Notifications: the rows raised, and what actors have muted. */
module Notifications {
  import opened Common

  type Id = string

  datatype Notification = Notification(
    id: Id, actor: string, author: string, category: string, event: string, subjectKind: string, subject: string,
    structure: string, seatRole: string, seatStructure: string, createdAt: Option<Instant>, readAt: Option<Instant>)

  datatype Preference = Preference(id: Id, muted: bool, changedAt: Instant)

  /** An actor and a category, which the preference table is unique on. */
  type PrefKey = (string, string)

  datatype Db = Db(rows: map<Id, Notification>, prefs: map<PrefKey, Preference>)

  /**
   * The event tables, what the host says no actor may mute, and the unique indexes a domain declares as caps.
   * `capSpent` is true of a row that one of them has no room for.
   */
  datatype Host = Host(categoryOf: map<string, string>, unmutable: set<string>, saysUnmutable: string -> bool,
                       capSpent: (map<Id, Notification>, Notification) -> bool)

  datatype Refusal = Undeclared | Invalid | Exempt | Muted | CapSpent | Broken | NoAudience | NotFound

  datatype Result<+T> = Ok(value: T) | Refused(why: Refusal)

  predicate IsExempt(category: string)
  {
    category == "survey" || category == "security"
  }

  // ---------------------------------------------------------------- preferences

  /** How the statements of a setting fare; a setting whose row cannot be read back is written all the same. */
  datatype SetTrouble = NoTrouble | CheckFails | WriteBreaks | ReadBackBreaks

  predicate Takes(key: PrefKey, trouble: SetTrouble)
  {
    !IsExempt(key.1) && (trouble.NoTrouble? || trouble.ReadBackBreaks?)
  }

  function SettingOutcome(db: Db, key: PrefKey, muted: bool, id: Id, at: Instant,
                          trouble: SetTrouble): (Db, Result<Preference>)
  {
    if trouble.CheckFails? then (db, Refused(Undeclared))
    else if IsExempt(key.1) then (db, Refused(Exempt))
    else if trouble.WriteBreaks? then (db, Refused(Broken))
    else
      var p := Preference(if key in db.prefs then db.prefs[key].id else id, muted, at);
      (db.(prefs := db.prefs[key := p]), if trouble.ReadBackBreaks? then Refused(Broken) else Ok(p))
  }

  predicate IsMuted(db: Db, key: PrefKey)
  {
    key in db.prefs && db.prefs[key].muted
  }

  // ---------------------------------------------------------------- raising

  datatype Fate = Fares | Unchecked | MutedReadBreaks | InsertBreaks

  /** The rules a declaration cannot state. */
  predicate Validates(h: Host, n: Notification)
  {
    && n.event in h.categoryOf && h.categoryOf[n.event] == n.category
    && (n.seatRole == "" <==> n.seatStructure == "")
    && (n.event == "survey_nudge" ==> !Blank(n.structure))
  }

  predicate Unmutable(h: Host, event: string)
  {
    event in h.unmutable || h.saysUnmutable(event)
  }

  function RowOf(n: Notification, minted: Id, now: Instant): Notification
  {
    n.(id := if n.id == "" then minted else n.id, createdAt := if n.createdAt.None? then Some(now) else n.createdAt)
  }

  function RaiseOutcome(h: Host, db: Db, n: Notification, minted: Id, now: Instant, fate: Fate)
    : (Db, Result<Notification>)
  {
    if fate.Unchecked? then (db, Refused(Undeclared))
    else if !Validates(h, n) then (db, Refused(Invalid))
    else if !Unmutable(h, n.event) && fate.MutedReadBreaks? then (db, Refused(Broken))
    else if !Unmutable(h, n.event) && IsMuted(db, (n.actor, n.category)) then (db, Refused(Muted))
    else
      var row := RowOf(n, minted, now);
      if fate.InsertBreaks? then (db, Refused(Broken))
      else if row.id in db.rows || h.capSpent(db.rows, row) then (db, Refused(CapSpent))
      else (db.(rows := db.rows[row.id := row]), Ok(row))
  }

  // ---------------------------------------------------------------- reading

  const MAX_MARK_READ := 200

  predicate Reads(n: Notification, actor: string, ids: seq<Id>)
  {
    n.actor == actor && n.id in ids && n.readAt.None?
  }

  function Reading(db: Db, actor: string, ids: seq<Id>, at: Instant): Db
  {
    if |ids| > MAX_MARK_READ then db
    else
      db.(rows := map id | id in db.rows ::
                    if Reads(db.rows[id], actor, ids) then db.rows[id].(readAt := Some(at)) else db.rows[id])
  }

  // ---------------------------------------------------------------- any run of settings, raises and reads

  datatype Event =
    | Read(actor: string, ids: seq<Id>, at: Instant)
    | Set(key: PrefKey, muted: bool, id: Id, at: Instant, trouble: SetTrouble)
    | Raises(n: Notification, minted: Id, now: Instant, fate: Fate)

  ghost function Apply(h: Host, db: Db, e: Event): Db
  {
    match e
    case Read(actor, ids, at) => Reading(db, actor, ids, at)
    case Set(key, muted, id, at, trouble) => SettingOutcome(db, key, muted, id, at, trouble).0
    case Raises(n, minted, now, fate) => RaiseOutcome(h, db, n, minted, now, fate).0
  }

  /** What a run of the empty store reaches. */
  ghost function Reached(h: Host, events: seq<Event>): Db
  {
    if events == [] then Db(map[], map[]) else Apply(h, Reached(h, events[..|events| - 1]), events[|events| - 1])
  }

  /** The last setting of `key` in the run that took. */
  ghost function LastSetting(events: seq<Event>, key: PrefKey): Option<bool>
  {
    if events == [] then None
    else
      var e := events[|events| - 1];
      if e.Set? && e.key == key && Takes(key, e.trouble) then Some(e.muted)
        else LastSetting(events[..|events| - 1], key)
  }

  lemma {:induction false} PreferenceIsTheLastSetting(h: Host, events: seq<Event>, key: PrefKey)
    ensures IsMuted(Reached(h, events), key) <==> LastSetting(events, key) == Some(true)
    ensures IsExempt(key.1) ==> LastSetting(events, key).None?
    decreases |events|
  {
    if events != [] {
      PreferenceIsTheLastSetting(h, events[..|events| - 1], key);
      var before, e := Reached(h, events[..|events| - 1]), events[|events| - 1];
      if e.Raises? { assert RaiseOutcome(h, before, e.n, e.minted, e.now, e.fate).0.prefs == before.prefs; }
    }
  }

  /** A raise is refused as muted exactly when the actor may mute its event and last did mute its category. */
  lemma {:induction false} MutedIffLastSetSo(h: Host, events: seq<Event>, n: Notification,
                                             minted: Id, now: Instant, fate: Fate)
    ensures RaiseOutcome(h, Reached(h, events), n, minted, now, fate).1 == Refused(Muted) <==>
              && !fate.Unchecked? && !fate.MutedReadBreaks? && Validates(h, n) && !Unmutable(h, n.event)
              && LastSetting(events, (n.actor, n.category)) == Some(true)
  {
    PreferenceIsTheLastSetting(h, events, (n.actor, n.category));
  }

  /** No run leaves a survey or security row muted, so no such notification is ever refused as muted. */
  lemma {:induction false} SurveyAndSecurityAlwaysReach(h: Host, events: seq<Event>, n: Notification,
                                                        minted: Id, now: Instant, fate: Fate)
    requires n.event in h.categoryOf && IsExempt(h.categoryOf[n.event])
    ensures RaiseOutcome(h, Reached(h, events), n, minted, now, fate).1 != Refused(Muted)
    ensures forall key :: key in Reached(h, events).prefs && IsExempt(key.1) ==> !Reached(h, events).prefs[key].muted
  {
    MutedIffLastSetSo(h, events, n, minted, now, fate);
    PreferenceIsTheLastSetting(h, events, (n.actor, n.category));
    forall key: PrefKey | IsExempt(key.1) ensures !IsMuted(Reached(h, events), key) {
      PreferenceIsTheLastSetting(h, events, key);
    }
  }

  lemma {:induction false} RowsKeepTheirIds(h: Host, events: seq<Event>)
    ensures forall id :: id in Reached(h, events).rows ==> Reached(h, events).rows[id].id == id
    decreases |events|
  {
    if events != [] { RowsKeepTheirIds(h, events[..|events| - 1]); }
  }

  /** One step changes a stored row only by its own actor's first reading of it. */
  lemma ReadByItsActor(h: Host, db: Db, e: Event, id: Id)
    requires id in db.rows && db.rows[id].id == id
    ensures var after := Apply(h, db, e).rows;
            && id in after && after[id].id == id
            && (after[id] != db.rows[id] ==>
                  && e.Read? && e.actor == db.rows[id].actor && db.rows[id].readAt.None?
                  && after[id] == db.rows[id].(readAt := Some(e.at)))
  {}

  /** Once raised a notification stays, and once read it stays as it is: nothing stamps it again. */
  lemma {:induction false} AReadStampStays(h: Host, events: seq<Event>, k: nat, id: Id)
    requires k <= |events| && id in Reached(h, events[..k]).rows
    ensures var n := Reached(h, events[..k]).rows[id];
            && id in Reached(h, events).rows
            && Reached(h, events).rows[id].(readAt := None) == n.(readAt := None)
            && (n.readAt.Some? ==> Reached(h, events).rows[id] == n)
    decreases |events|
  {
    if k == |events| {
      assert events[..k] == events;
    } else {
      var rest := events[..|events| - 1];
      assert rest[..k] == events[..k];
      AReadStampStays(h, rest, k, id);
      RowsKeepTheirIds(h, rest);
      ReadByItsActor(h, Reached(h, rest), events[|events| - 1], id);
    }
  }

  // ---------------------------------------------------------------- the store

  class NotificationStore {
    var rows: map<Id, Notification>
    var prefs: map<PrefKey, Preference>

    ghost function Contents(): Db
      reads this
    {
      Db(rows, prefs)
    }

    constructor ()
      ensures Contents() == Db(map[], map[])
    {
      rows, prefs := map[], map[];
    }

    method SetPreference(actor: string, category: string, muted: bool, id: Id, at: Instant, trouble: SetTrouble)
      returns (answer: Result<Preference>)
      modifies this`prefs
      ensures (Contents(), answer) == SettingOutcome(old(Contents()), (actor, category), muted, id, at, trouble)
      ensures answer.Ok? ==>
              (actor, category) in prefs && prefs[(actor, category)] == answer.value && answer.value.muted == muted
    {
      if trouble.CheckFails? { return Refused(Undeclared); }
      if IsExempt(category) { return Refused(Exempt); }
      if trouble.WriteBreaks? { return Refused(Broken); }
      var key := (actor, category);
      var p := if key in prefs then prefs[key].(muted := muted, changedAt := at) else Preference(id, muted, at);
      prefs := prefs[key := p];
      if trouble.ReadBackBreaks? { return Refused(Broken); }
      answer := Ok(prefs[key]);
    }

    /** None when nothing stands in the raise's way. */
    method RefuseIfMuted(h: Host, n: Notification, fate: Fate) returns (why: Option<Refusal>)
      ensures why == if Unmutable(h, n.event) then None
                     else if fate.MutedReadBreaks? then Some(Broken)
                     else if IsMuted(Contents(), (n.actor, n.category)) then Some(Muted) else None
    {
      if n.event in h.unmutable || h.saysUnmutable(n.event) { return None; }
      if fate.MutedReadBreaks? { return Some(Broken); }
      if (n.actor, n.category) in prefs && prefs[(n.actor, n.category)].muted { return Some(Muted); }
      why := None;
    }

    method Raise(h: Host, n: Notification, minted: Id, now: Instant, fate: Fate) returns (answer: Result<Notification>)
      modifies this`rows
      ensures (Contents(), answer) == RaiseOutcome(h, old(Contents()), n, minted, now, fate)
      ensures answer.Ok? ==> answer.value.id !in old(rows) && rows == old(rows)[answer.value.id := answer.value]
      ensures answer.Refused? ==> rows == old(rows)
    {
      if fate.Unchecked? { return Refused(Undeclared); }
      if !Validates(h, n) { return Refused(Invalid); }
      var why := RefuseIfMuted(h, n, fate);
      if why.Some? { return Refused(why.value); }
      var row := n;
      if row.createdAt.None? { row := row.(createdAt := Some(now)); }
      if row.id == "" { row := row.(id := minted); }
      if fate.InsertBreaks? { return Refused(Broken); }
      if row.id in rows || h.capSpent(rows, row) { return Refused(CapSpent); }
      rows := rows[row.id := row];
      answer := Ok(row);
    }

    /** Stamps the actor's own unread rows among `ids`; too many ids at once are refused. */
    method MarkRead(actor: string, ids: seq<Id>, at: Instant) returns (stamped: Option<set<Id>>)
      modifies this`rows
      ensures Contents() == Reading(old(Contents()), actor, ids, at)
      ensures stamped == if |ids| > MAX_MARK_READ then None
                         else Some(set id | id in old(rows) && Reads(old(rows)[id], actor, ids))
    {
      if |ids| > MAX_MARK_READ { return None; }
      var unread := set id | id in rows && Reads(rows[id], actor, ids);
      rows := map id | id in rows :: if id in unread then rows[id].(readAt := Some(at)) else rows[id];
      assert rows == Reading(old(Contents()), actor, ids, at).rows;
      stamped := Some(unread);
    }
  }
}
