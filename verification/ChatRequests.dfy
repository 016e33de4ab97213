/** Starting and declining chat threads on a member's behalf: each a transaction with the notices it raises. */
module ChatRequests {
  import opened Common
  import opened Names
  import opened ChatThreads
  import N = Notifications
  import A = Audiences

  /** A hook's answer about one actor in one room. */
  datatype Answer = Yes | No | Fails

  /** What the host answers in one room: who belongs, who leads, whom it names as leads, whom to tell of a decline. */
  datatype Hooks = Hooks(belongs: string -> Answer, leads: string -> Answer, leadsOf: A.Asked, recipients: A.Asked)

  datatype Denial = NotFound | Invalid | NotDeclinable | Conflict | HookFails | NoticeFails

  /** An answer: the thread, and the notices raised for it. */
  datatype Reply = Given(thread: Thread, raised: seq<N.Notification>) | Denied(why: Denial)

  /** Both stores as one transaction sees them. */
  datatype World = World(chat: Db, notes: N.Db)

  // ---------------------------------------------------------------- whom to tell

  predicate Confirmed(hooks: Hooks, a: string)
  {
    hooks.belongs(a).Yes? && hooks.leads(a).Yes?
  }

  predicate Unanswered(hooks: Hooks, a: string)
  {
    hooks.belongs(a).Fails? || (hooks.belongs(a).Yes? && hooks.leads(a).Fails?)
  }

  /** The distinct other leads the host confirms. */
  ghost function OtherLeads(hooks: Hooks, requester: string): seq<string>
  {
    if hooks.leadsOf.Named? then Keep(FirstSeen(hooks.leadsOf.named, {requester, ""}), a => Confirmed(hooks, a)) else []
  }

  ghost predicate LeadsAnswered(hooks: Hooks, requester: string)
  {
    && !hooks.leadsOf.Fails?
    && (hooks.leadsOf.Named? ==> forall a :: a in FirstSeen(hooks.leadsOf.named, {requester, ""}) ==>
        !Unanswered(hooks, a))
  }

  lemma OneUnanswered(hooks: Hooks, requester: string, k: nat)
    requires hooks.leadsOf.Named? && k < |hooks.leadsOf.named|
    requires var a := hooks.leadsOf.named[k]; a != requester && a != "" && Unanswered(hooks, a)
    ensures !LeadsAnswered(hooks, requester)
  {
    var named, skip := hooks.leadsOf.named, {requester, ""};
    FirstSeenIsTheOnlyOne(named, skip, FirstSeen(named, skip));
    assert named[k] in FirstSeen(named, skip);
  }

  ghost function AskedSoFar(named: seq<string>, requester: string, k: nat): seq<string>
    requires k <= |named|
  {
    FirstSeen(named[..k], {requester, ""})
  }

  ghost function ConfirmedOf(hooks: Hooks, names: seq<string>): seq<string>
  {
    Keep(names, a => Confirmed(hooks, a))
  }

  lemma OneMoreAsked(hooks: Hooks, named: seq<string>, requester: string, k: nat)
    requires k < |named|
    ensures var before, a := AskedSoFar(named, requester, k), named[k];
            if a == requester || a == "" || a in before then AskedSoFar(named, requester, k + 1) == before
            else
              && AskedSoFar(named, requester, k + 1) == before + [a]
              && ConfirmedOf(hooks, before + [a])
                 == ConfirmedOf(hooks, before) + if Confirmed(hooks, a) then [a] else []
  {
    FirstSeenAppend(named, {requester, ""}, k);
    var before, a := AskedSoFar(named, requester, k), named[k];
    assert (before + [a])[..|before|] == before;
  }

  /** The leads to tell: a name is marked seen before the host is asked about it. */
  method LeadsToTell(hooks: Hooks, requester: string) returns (out: Option<seq<string>>)
    ensures out == if LeadsAnswered(hooks, requester) then Some(OtherLeads(hooks, requester)) else None
  {
    if hooks.leadsOf.NoHook? { return Some([]); }
    if hooks.leadsOf.Fails? { return None; }
    var named := hooks.leadsOf.named;
    ghost var asked: seq<string> := [];
    var seen: map<string, bool> := map[requester := true, "" := true];
    var leads: seq<string> := [];
    for k := 0 to |named|
      invariant asked == AskedSoFar(named, requester, k) && leads == ConfirmedOf(hooks, asked)
      invariant forall a :: a in seen <==> a == requester || a == "" || a in asked
      invariant forall a :: a in asked ==> !Unanswered(hooks, a)
    {
      var a := named[k];
      OneMoreAsked(hooks, named, requester, k);
      if a in seen { continue; }
      seen := seen[a := true];
      asked := asked + [a];
      if hooks.belongs(a).No? { continue; }
      if hooks.belongs(a).Fails? || hooks.leads(a).Fails? {
        OneUnanswered(hooks, requester, k);
        return None;
      }
      if hooks.leads(a).Yes? { leads := leads + [a]; }
    }
    assert named[..|named|] == named;
    out := Some(leads);
  }

  /** Whom a decline tells: the defaults, unless the host names others, and then each of them once. */
  method RecipientsFor(asked: A.Asked, defaults: seq<string>) returns (out: Option<seq<string>>)
    ensures out == match asked
                   case NoHook => Some(defaults)
                   case Fails => None
                   case Named(named) => Some(FirstSeen(named, {""}))
  {
    if asked.NoHook? { return Some(defaults); }
    if asked.Fails? { return None; }
    var names := Distinct(asked.named);
    out := Some(names);
  }

  // ---------------------------------------------------------------- telling them

  /** A store opened on a transaction asks the host's hook about no event. */
  function WithinTransaction(h: N.Host): N.Host
  {
    h.(saysUnmutable := _ => false)
  }

  predicate Silenced(h: N.Host, db: N.Db, template: N.Notification, a: string)
  {
    !N.Unmutable(h, template.event) && N.IsMuted(db, (a, template.category))
  }

  /** One raise after another, passing over who muted, as far as the first that fails otherwise. */
  ghost function TellAll(h: N.Host, db: N.Db, template: N.Notification, names: seq<string>, w: A.Weather)
    : (N.Db, Option<seq<N.Notification>>)
  {
    if names == [] then (db, Some([]))
    else
      var (db', raised) := TellAll(h, db, template, names[..|names| - 1], w);
      if raised.None? then (db', None) else TellOne(h, db', raised.value, template, names[|names| - 1], w)
  }

  ghost function TellOne(h: N.Host, db: N.Db, raised: seq<N.Notification>, template: N.Notification,
                         a: string, w: A.Weather)
    : (N.Db, Option<seq<N.Notification>>)
  {
    var (db', r) := A.RaiseOne(h, db, template, a, w);
    (db', if r.Ok? then Some(raised + [r.value]) else if r.why.Muted? then Some(raised) else None)
  }

  lemma TellAllAppend(h: N.Host, db: N.Db, template: N.Notification, names: seq<string>, k: nat, w: A.Weather)
    requires k < |names|
    ensures var (db', raised) := TellAll(h, db, template, names[..k], w);
            TellAll(h, db, template, names[..k + 1], w)
            == if raised.None? then (db', None) else TellOne(h, db', raised.value, template, names[k], w)
  {
    assert names[..k + 1][..k] == names[..k];
  }

  lemma {:induction false} StoppedStays(h: N.Host, db: N.Db, template: N.Notification,
                                        names: seq<string>, k: nat, w: A.Weather)
    requires k <= |names| && TellAll(h, db, template, names[..k], w).1.None?
    ensures TellAll(h, db, template, names, w) == TellAll(h, db, template, names[..k], w)
    decreases |names| - k
  {
    if k == |names| {
      assert names[..k] == names;
    } else {
      TellAllAppend(h, db, template, names, k, w);
      StoppedStays(h, db, template, names, k + 1, w);
    }
  }

  /** Whoever has not muted it is told, in order, and nobody else; the notices are stored. */
  lemma {:induction false} TellsTheUnsilenced(h: N.Host, db: N.Db, template: N.Notification,
                                              names: seq<string>, w: A.Weather)
    requires TellAll(h, db, template, names, w).1.Some?
    ensures var (after, raised) := TellAll(h, db, template, names, w);
            && A.Actors(raised.value) == Keep(names, a => !Silenced(h, db, template, a))
            && A.Adds(db, after, template, raised.value, w)
    decreases |names|
  {
    if names != [] {
      var rest, a := names[..|names| - 1], names[|names| - 1];
      TellsTheUnsilenced(h, db, template, rest, w);
      var (db1, raised) := TellAll(h, db, template, rest, w);
      var r := A.RaiseOne(h, db1, template, a, w).1;
      A.OneMoreAdds(h, db, db1, raised.value, [], template, a, w);
      if r.Ok? { assert A.Actors(raised.value + [r.value]) == A.Actors(raised.value) + [a]; }
    }
  }

  /** True of a telling whose event the host, but not the module, says no actor may mute, and which somebody muted. */
  ghost predicate Overheard(h: N.Host, db: N.Db, template: N.Notification, names: seq<string>)
  {
    && h.saysUnmutable(template.event) && template.event !in h.unmutable
    && exists a :: a in names && N.IsMuted(db, (a, template.category))
  }

  /**
   * A transaction tells whom the host would have told exactly when nobody muted what the host alone calls unmutable.
   */
  lemma TransactionTellsTheSameIff(h: N.Host, db: N.Db, template: N.Notification, names: seq<string>, w: A.Weather)
    requires TellAll(WithinTransaction(h), db, template, names, w).1.Some? && TellAll(h, db, template, names, w).1.Some?
    ensures A.Actors(TellAll(WithinTransaction(h), db, template, names, w).1.value)
            == A.Actors(TellAll(h, db, template, names, w).1.value)
            <==> !Overheard(h, db, template, names)
  {
    TellsTheUnsilenced(WithinTransaction(h), db, template, names, w);
    TellsTheUnsilenced(h, db, template, names, w);
    var within, outside := a => !Silenced(WithinTransaction(h), db, template, a), a => !Silenced(h, db, template, a);
    KeptAre(names, within);
    KeptAre(names, outside);
    if Overheard(h, db, template, names) {
      var a :| a in names && N.IsMuted(db, (a, template.category));
      assert a in Keep(names, outside) && a !in Keep(names, within);
    } else {
      KeepAgrees(names, within, outside);
    }
  }

  method RaiseEach(notices: N.NotificationStore, h: N.Host, recipients: seq<string>,
                   template: N.Notification, w: A.Weather)
    returns (raised: Option<seq<N.Notification>>)
    modifies notices`rows
    ensures (notices.Contents(), raised) == TellAll(h, old(notices.Contents()), template, recipients, w)
  {
    var out := [];
    for k := 0 to |recipients|
      invariant (notices.Contents(), Some(out)) == TellAll(h, old(notices.Contents()), template, recipients[..k], w)
    {
      var a := recipients[k];
      TellAllAppend(h, old(notices.Contents()), template, recipients, k, w);
      var r := notices.Raise(h, template.(actor := a), w.minted(a), w.at(a), w.fate(a));
      if r.Ok? {
        out := out + [r.value];
      } else if !r.why.Muted? {
        StoppedStays(h, old(notices.Contents()), template, recipients, k + 1, w);
        return None;
      }
    }
    assert recipients[..|recipients|] == recipients;
    raised := Some(out);
  }
}
