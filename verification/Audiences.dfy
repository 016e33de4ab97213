/** Raising one notification to everybody a record concerns. */
module Audiences {
  import opened Common
  import opened Names
  import opened Notifications

  /** What a hook of the host's answers when asked who: it is not set, it fails, or it names actors. */
  datatype Asked = NoHook | Fails | Named(named: seq<string>)

  /** What each actor's raise meets: the id minted for it, its instant, and how its statements fare. */
  datatype Weather = Weather(minted: string -> Id, at: string -> Instant, fate: string -> Fate)

  datatype Outcome = Outcome(resolved: nat, raised: seq<Notification>, missed: seq<(string, Refusal)>)

  predicate Complete(out: Outcome)
  {
    |out.raised| + |out.missed| == out.resolved
  }

  function Actors(raised: seq<Notification>): seq<string>
  {
    seq(|raised|, i requires 0 <= i < |raised| => raised[i].actor)
  }

  function Missing(missed: seq<(string, Refusal)>): seq<string>
  {
    seq(|missed|, i requires 0 <= i < |missed| => missed[i].0)
  }

  function RaiseOne(h: Host, db: Db, template: Notification, a: string, w: Weather): (Db, Result<Notification>)
  {
    RaiseOutcome(h, db, template.(actor := a), w.minted(a), w.at(a), w.fate(a))
  }

  predicate Misses(r: Result<Notification>)
  {
    r == Refused(Muted) || r == Refused(CapSpent)
  }

  /** One raise after another, as far as the first that fails for another reason than a miss. */
  ghost function RaiseAll(h: Host, db: Db, template: Notification, names: seq<string>, w: Weather)
    : (Db, seq<Notification>, seq<(string, Refusal)>, Option<Refusal>)
  {
    if names == [] then (db, [], [], None)
    else
      var (db', raised, missed, stop) := RaiseAll(h, db, template, names[..|names| - 1], w);
      if stop.Some? then (db', raised, missed, stop)
      else OneMore(h, db', raised, missed, template, names[|names| - 1], w)
  }

  ghost function OneMore(h: Host, db: Db, raised: seq<Notification>, missed: seq<(string, Refusal)>,
                         template: Notification, a: string, w: Weather)
    : (Db, seq<Notification>, seq<(string, Refusal)>, Option<Refusal>)
  {
    var (db', r) := RaiseOne(h, db, template, a, w);
    if r.Ok? then (db', raised + [r.value], missed, None)
    else if Misses(r) then (db', raised, missed + [(a, r.why)], None)
    else (db', raised, missed, Some(r.why))
  }

  /** The rows raised and the actors missed share out the names, both in the names' own order. */
  ghost predicate Shares(names: seq<string>, raised: seq<Notification>, missed: seq<(string, Refusal)>)
  {
    && Actors(raised) == Keep(names, a => a in Actors(raised))
    && Missing(missed) == Keep(names, a => a !in Actors(raised))
  }

  lemma OneMoreShares(names: seq<string>, raised: seq<Notification>, missed: seq<(string, Refusal)>,
                      raised': seq<Notification>, missed': seq<(string, Refusal)>, a: string)
    requires a !in names && Shares(names, raised, missed)
    requires || (missed' == missed && Actors(raised') == Actors(raised) + [a])
             || (raised' == raised && Missing(missed') == Missing(missed) + [a])
    ensures Shares(names + [a], raised', missed')
  {
    var p, q := x => x in Actors(raised), x => x in Actors(raised');
    KeptAre(names, p);
    assert a !in Actors(raised);
    KeepAgrees(names, p, q);
    KeepAgrees(names, x => x !in Actors(raised), x => x !in Actors(raised'));
    assert (names + [a])[..|names|] == names;
  }

  lemma OneRaiseShares(h: Host, db: Db, template: Notification, names: seq<string>, raised: seq<Notification>,
                       missed: seq<(string, Refusal)>, a: string, w: Weather)
    requires a !in names && Shares(names, raised, missed) && OneMore(h, db, raised, missed, template, a, w).3.None?
    ensures var (_, raised', missed', _) := OneMore(h, db, raised, missed, template, a, w);
            Shares(names + [a], raised', missed') && |raised'| + |missed'| == |raised| + |missed| + 1
  {
    var (_, raised', missed', _) := OneMore(h, db, raised, missed, template, a, w);
    if RaiseOne(h, db, template, a, w).1.Ok? {
      assert Actors(raised') == Actors(raised) + [a];
    } else {
      assert Missing(missed') == Missing(missed) + [a];
    }
    OneMoreShares(names, raised, missed, raised', missed', a);
  }

  /** A pass nothing stops raises to some of the names and misses the others, and nobody is lost or told twice. */
  lemma {:induction false} RaisesShareTheNames(h: Host, db: Db, template: Notification, names: seq<string>, w: Weather)
    requires NoneTwice(names) && RaiseAll(h, db, template, names, w).3.None?
    ensures var (_, raised, missed, _) := RaiseAll(h, db, template, names, w);
            Shares(names, raised, missed) && |raised| + |missed| == |names|
    decreases |names|
  {
    if names != [] {
      var rest, a := names[..|names| - 1], names[|names| - 1];
      assert a !in rest;
      assert names == rest + [a];
      RaisesShareTheNames(h, db, template, rest, w);
      var (db1, raised, missed, _) := RaiseAll(h, db, template, rest, w);
      OneRaiseShares(h, db1, template, rest, raised, missed, a, w);
    }
  }

  /** The rows before, and one new row for each raise, as the template has it. */
  ghost predicate Adds(before: Db, after: Db, template: Notification, raised: seq<Notification>, w: Weather)
  {
    && after.prefs == before.prefs
    && |after.rows| == |before.rows| + |raised|
    && (forall id :: id in before.rows ==> id in after.rows && after.rows[id] == before.rows[id])
    && (forall n :: n in raised ==>
          && n.id !in before.rows && n.id in after.rows && after.rows[n.id] == n
          && n == RowOf(template.(actor := n.actor), w.minted(n.actor), w.at(n.actor)))
  }

  ghost predicate FairlyMissed(h: Host, db: Db, template: Notification, missed: seq<(string, Refusal)>)
  {
    forall m :: m in missed ==>
      m.1 == if !Unmutable(h, template.event) && IsMuted(db, (m.0, template.category)) then Muted else CapSpent
  }

  lemma OneMoreAdds(h: Host, before: Db, db: Db, raised: seq<Notification>, missed: seq<(string, Refusal)>,
                    template: Notification, a: string, w: Weather)
    requires Adds(before, db, template, raised, w)
    ensures var (after, raised', _, _) := OneMore(h, db, raised, missed, template, a, w);
            Adds(before, after, template, raised', w)
  {
    var r := RaiseOne(h, db, template, a, w).1;
    if r.Ok? {
      forall n | n in raised + [r.value]
        ensures n.id !in before.rows && n == RowOf(template.(actor := n.actor), w.minted(n.actor), w.at(n.actor))
      {
        if n != r.value { assert n in raised; }
      }
    }
  }

  lemma OneMoreMissesFairly(h: Host, before: Db, db: Db, raised: seq<Notification>, missed: seq<(string, Refusal)>,
                            template: Notification, a: string, w: Weather)
    requires db.prefs == before.prefs && FairlyMissed(h, before, template, missed)
    ensures var (_, _, missed', stop) := OneMore(h, db, raised, missed, template, a, w);
            FairlyMissed(h, before, template, missed') && (stop.Some? ==> stop.value != Muted && stop.value != CapSpent)
  {}

  /** Whether or not it is stopped, a pass stores what it raised, and misses the muted and those whose cap is spent. */
  lemma {:induction false} RaisesAreStored(h: Host, db: Db, template: Notification, names: seq<string>, w: Weather)
    ensures var (after, raised, missed, stop) := RaiseAll(h, db, template, names, w);
            && Adds(db, after, template, raised, w) && FairlyMissed(h, db, template, missed)
            && (stop.Some? ==> stop.value != Muted && stop.value != CapSpent)
    decreases |names|
  {
    if names != [] {
      var rest, a := names[..|names| - 1], names[|names| - 1];
      RaisesAreStored(h, db, template, rest, w);
      var (db1, raised, missed, _) := RaiseAll(h, db, template, rest, w);
      OneMoreAdds(h, db, db1, raised, missed, template, a, w);
      OneMoreMissesFairly(h, db, db1, raised, missed, template, a, w);
    }
  }

  lemma RaiseAllAppend(h: Host, db: Db, template: Notification, names: seq<string>, k: nat, w: Weather)
    requires k < |names|
    ensures var (db', raised, missed, stop) := RaiseAll(h, db, template, names[..k], w);
            RaiseAll(h, db, template, names[..k + 1], w)
            == if stop.Some? then (db', raised, missed, stop)
              else OneMore(h, db', raised, missed, template, names[k], w)
  {
    assert names[..k + 1][..k] == names[..k];
  }

  lemma {:induction false} StoppedStays(h: Host, db: Db, template: Notification, names: seq<string>, k: nat, w: Weather)
    requires k <= |names| && RaiseAll(h, db, template, names[..k], w).3.Some?
    ensures RaiseAll(h, db, template, names, w) == RaiseAll(h, db, template, names[..k], w)
    decreases |names| - k
  {
    if k == |names| {
      assert names[..k] == names;
    } else {
      RaiseAllAppend(h, db, template, names, k, w);
      StoppedStays(h, db, template, names, k + 1, w);
    }
  }

  method AudienceOf(asked: Asked) returns (names: Result<seq<string>>)
    ensures names == if asked.NoHook? then Refused(NoAudience)
                     else if asked.Fails? then Refused(Broken)
                     else if FirstSeen(asked.named, {""}) == [] then Refused(NoAudience)
                     else Ok(FirstSeen(asked.named, {""}))
  {
    if asked.NoHook? { return Refused(NoAudience); }
    if asked.Fails? { return Refused(Broken); }
    var out := Distinct(asked.named);
    if |out| == 0 { return Refused(NoAudience); }
    names := Ok(out);
  }

  /** The raising loop of `RaiseToAudience`. */
  method RaiseToEach(store: NotificationStore, h: Host, names: seq<string>, template: Notification, w: Weather)
    returns (raised: seq<Notification>, missed: seq<(string, Refusal)>, err: Option<Refusal>)
    modifies store`rows
    ensures (store.Contents(), raised, missed, err) == RaiseAll(h, old(store.Contents()), template, names, w)
  {
    raised, missed, err := [], [], None;
    for k := 0 to |names|
      invariant (store.Contents(), raised, missed, None) == RaiseAll(h, old(store.Contents()), template, names[..k], w)
    {
      var a := names[k];
      RaiseAllAppend(h, old(store.Contents()), template, names, k, w);
      var r := store.Raise(h, template.(actor := a), w.minted(a), w.at(a), w.fate(a));
      if r.Ok? {
        raised := raised + [r.value];
      } else if r.why.Muted? || r.why.CapSpent? {
        missed := missed + [(a, r.why)];
      } else {
        StoppedStays(h, old(store.Contents()), template, names, k + 1, w);
        err := Some(r.why);
        return;
      }
    }
    assert names[..|names|] == names;
  }

  predicate NamesARecord(template: Notification)
  {
    template.actor == "" && template.subjectKind != "" && template.subject != ""
  }

  /**
   * Raises `template` to the audience the host names. `declared` is the spec's check of the first recipient's row.
   * A nil error means the distinct names are shared out, in first-seen order, into the raised and the missed.
   */
  method RaiseToAudience(store: NotificationStore, h: Host, asked: Asked, template: Notification,
                         declared: bool, w: Weather)
    returns (out: Outcome, err: Option<Refusal>)
    modifies store`rows
    ensures err.None? ==>
              && asked.Named? && NamesARecord(template) && declared && Validates(h, template) && Complete(out)
              && var names := FirstSeen(asked.named, {""});
                 names != [] && out.resolved == |names| && Shares(names, out.raised, out.missed)
    ensures if asked.Named? && NamesARecord(template) && declared && Validates(h, template)
            && FirstSeen(asked.named, {""}) != []
            then (store.Contents(), out.raised, out.missed, err)
                 == RaiseAll(h, old(store.Contents()), template, FirstSeen(asked.named, {""}), w)
            else store.rows == old(store.rows) && out == Outcome(0, [], [])
  {
    out := Outcome(0, [], []);
    if template.actor != "" { return out, Some(Invalid); }
    if template.subjectKind == "" || template.subject == "" { return out, Some(Invalid); }
    var recipients := AudienceOf(asked);
    if recipients.Refused? { return out, Some(recipients.why); }
    var names := recipients.value;
    if !declared { return out, Some(Undeclared); }
    if !Validates(h, template.(actor := names[0])) { return out, Some(Invalid); }
    var raised, missed, stop := RaiseToEach(store, h, names, template, w);
    if stop.None? {
      FirstSeenIsTheOnlyOne(asked.named, {""}, names);
      RaisesShareTheNames(h, old(store.Contents()), template, names, w);
    }
    return Outcome(|names|, raised, missed), stop;
  }
}
