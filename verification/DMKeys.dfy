/** Device keys: publishing is three statements, and a handset keeps one live key. */
module DMKeys {
  import opened Common

  datatype KeyId = KeyId(actor: string, key: string)

  datatype DeviceKey = DeviceKey(publicKey: string, publishedBy: string, device: string,
                                 createdAt: Instant, retiredAt: Option<Instant>)

  type Keys = map<KeyId, DeviceKey>

  predicate Live(keys: Keys, k: KeyId)
  {
    k in keys && keys[k].retiredAt.None?
  }

  // ---------------------------------------------------------------- the statements

  /** The upsert: a new row, or the named columns of the old one and its retirement cleared. */
  function Upsert(keys: Keys, k: KeyId, draft: DeviceKey): Keys
  {
    keys[k := if k in keys then draft.(createdAt := keys[k].createdAt, retiredAt := None)
         else draft.(retiredAt := None)]
  }

  /** Retires the other live keys of one actor's handset. */
  function RetireSiblings(keys: Keys, k: KeyId, device: string, at: Instant): Keys
  {
    if device == "" then keys
    else
      map j | j in keys :: if j.actor == k.actor && j != k && keys[j].device == device && keys[j].retiredAt.None?
                           then keys[j].(retiredAt := Some(at)) else keys[j]
  }

  /** Retires every live key of a handset. */
  function RetireDevice(keys: Keys, device: string, at: Instant): Keys
  {
    if device == "" then keys
    else
      map j | j in keys :: if keys[j].device == device && keys[j].retiredAt.None?
                           then keys[j].(retiredAt := Some(at)) else keys[j]
  }

  // ---------------------------------------------------------------- any number of publishes at once

  /** A publish between two of its statements; `upsertedAt` is when its upsert ran. */
  datatype Publish =
    | Upserting(k: KeyId, draft: DeviceKey)
    | ReadingBack(k: KeyId, upsertedAt: nat)
    | Retiring(k: KeyId, upsertedAt: nat, device: string)
    | Published(k: KeyId)
    | Abandoned(k: KeyId, since: Option<nat>)

  /** The table, the publishes, and, for the proof, when each row was last upserted. */
  datatype Sys = Sys(keys: Keys, publishes: map<nat, Publish>, lastUpsert: map<KeyId, nat>, clock: nat)

  datatype Event =
    | Begin(publish: nat, k: KeyId, draft: DeviceKey)
    | Step(publish: nat, at: Instant)
    | Break(publish: nat)
    | Retire(device: string, at: Instant)

  ghost predicate InFlight(p: Publish)
  {
    p.Upserting? || p.ReadingBack? || p.Retiring?
  }

  ghost function Apply(s: Sys, e: Event): Sys
  {
    match e
    case Begin(publish, k, draft) =>
      if publish in s.publishes then s else s.(publishes := s.publishes[publish := Upserting(k, draft)])
    case Step(publish, at) => if publish in s.publishes then Advance(s, publish, at) else s
    case Break(publish) =>
      if publish in s.publishes && InFlight(s.publishes[publish]) then
        var p := s.publishes[publish];
        s.(publishes := s.publishes[publish := Abandoned(p.k, if p.Upserting? then None else Some(p.upsertedAt))])
      else s
    case Retire(device, at) => s.(keys := RetireDevice(s.keys, device, at))
  }

  ghost function Advance(s: Sys, publish: nat, at: Instant): Sys
    requires publish in s.publishes
  {
    match s.publishes[publish]
    case Upserting(k, draft) =>
      Sys(Upsert(s.keys, k, draft), s.publishes[publish := ReadingBack(k, s.clock)],
          s.lastUpsert[k := s.clock], s.clock + 1)
    case ReadingBack(k, upsertedAt) =>
      if k in s.keys then s.(publishes := s.publishes[publish := Retiring(k, upsertedAt, s.keys[k].device)]) else s
    case Retiring(k, upsertedAt, device) =>
      s.(keys := RetireSiblings(s.keys, k, device, at), publishes := s.publishes[publish := Published(k)])
    case _ => s
  }

  ghost function Run(s: Sys, events: seq<Event>): Sys
    decreases |events|
  {
    if events == [] then s else Run(Apply(s, events[0]), events[1..])
  }

  /** `p` made the last upsert of `k`, and has yet to retire its siblings on `device`, or never will. */
  ghost predicate Owes(s: Sys, p: Publish, k: KeyId, device: string)
    requires k in s.lastUpsert
  {
    match p
    case ReadingBack(j, at) => j == k && at == s.lastUpsert[k]
    case Retiring(j, at, d) => j == k && at == s.lastUpsert[k] && d == device
    case Abandoned(j, at) => j == k && at == Some(s.lastUpsert[k])
    case _ => false
  }

  /** Two live keys of one handset. */
  ghost predicate Twins(keys: Keys, older: KeyId, newer: KeyId)
  {
    Live(keys, older) && Live(keys, newer) && older.actor == newer.actor && older != newer
    && keys[older].device == keys[newer].device != ""
  }

  ghost predicate Inv(s: Sys)
  {
    && s.lastUpsert.Keys == s.keys.Keys
    && (forall k :: k in s.lastUpsert ==> s.lastUpsert[k] < s.clock)
    && (forall j, k :: j in s.lastUpsert && k in s.lastUpsert && j != k ==> s.lastUpsert[j] != s.lastUpsert[k])
    && (forall p :: p in s.publishes && s.publishes[p].ReadingBack? ==> s.publishes[p].k in s.keys)
    && (forall p :: p in s.publishes && s.publishes[p].Retiring? ==> s.publishes[p].k in s.keys)
    && (forall older, newer :: Twins(s.keys, older, newer) && s.lastUpsert[older] < s.lastUpsert[newer] ==>
        SomebodyOwes(s, newer))
  }

  ghost predicate SomebodyOwes(s: Sys, newer: KeyId)
    requires newer in s.keys && newer in s.lastUpsert
  {
    exists p :: p in s.publishes && Owes(s, s.publishes[p], newer, s.keys[newer].device)
  }

  /** A debt passes to whatever the publish that owed it became, if its key was not upserted again. */
  lemma DebtCarries(s: Sys, s': Sys, newer: KeyId)
    requires newer in s.keys && newer in s.lastUpsert && newer in s'.keys && newer in s'.lastUpsert
    requires SomebodyOwes(s, newer)
    requires forall p :: p in s.publishes && Owes(s, s.publishes[p], newer, s.keys[newer].device) ==>
               p in s'.publishes && Owes(s', s'.publishes[p], newer, s'.keys[newer].device)
    ensures SomebodyOwes(s', newer)
  {
    var p :| p in s.publishes && Owes(s, s.publishes[p], newer, s.keys[newer].device);
    assert Owes(s', s'.publishes[p], newer, s'.keys[newer].device);
  }

  lemma UpsertKeepsInv(s: Sys, publish: nat, at: Instant)
    requires Inv(s) && publish in s.publishes && s.publishes[publish].Upserting?
    ensures Inv(Advance(s, publish, at))
  {
    var s' := Advance(s, publish, at);
    var k := s.publishes[publish].k;
    forall older, newer | Twins(s'.keys, older, newer) && s'.lastUpsert[older] < s'.lastUpsert[newer]
      ensures SomebodyOwes(s', newer)
    {
      assert older != k;
      if newer == k {
        assert Owes(s', s'.publishes[publish], newer, s'.keys[newer].device);
      } else {
        assert Twins(s.keys, older, newer);
        DebtCarries(s, s', newer);
      }
    }
  }

  lemma ReadBackKeepsInv(s: Sys, publish: nat, at: Instant)
    requires Inv(s) && publish in s.publishes && s.publishes[publish].ReadingBack?
    ensures Inv(Advance(s, publish, at))
  {
    var s' := Advance(s, publish, at);
    forall older, newer | Twins(s'.keys, older, newer) && s'.lastUpsert[older] < s'.lastUpsert[newer]
      ensures SomebodyOwes(s', newer)
    {
      assert Twins(s.keys, older, newer);
      DebtCarries(s, s', newer);
    }
  }

  lemma RetireKeepsInv(s: Sys, publish: nat, at: Instant)
    requires Inv(s) && publish in s.publishes && s.publishes[publish].Retiring?
    ensures Inv(Advance(s, publish, at))
  {
    var s' := Advance(s, publish, at);
    forall older, newer | Twins(s'.keys, older, newer) && s'.lastUpsert[older] < s'.lastUpsert[newer]
      ensures SomebodyOwes(s', newer)
    {
      assert Twins(s.keys, older, newer);
      assert !Owes(s, s.publishes[publish], newer, s.keys[newer].device);
      DebtCarries(s, s', newer);
    }
  }

  lemma RetireDeviceKeepsInv(s: Sys, device: string, at: Instant)
    requires Inv(s)
    ensures Inv(Apply(s, Retire(device, at)))
  {
    var s' := Apply(s, Retire(device, at));
    forall older, newer | Twins(s'.keys, older, newer) && s'.lastUpsert[older] < s'.lastUpsert[newer]
      ensures SomebodyOwes(s', newer)
    {
      assert Twins(s.keys, older, newer);
      DebtCarries(s, s', newer);
    }
  }

  lemma BeginKeepsInv(s: Sys, publish: nat, k: KeyId, draft: DeviceKey)
    requires Inv(s)
    ensures Inv(Apply(s, Begin(publish, k, draft)))
  {
    var s' := Apply(s, Begin(publish, k, draft));
    forall older, newer | Twins(s'.keys, older, newer) && s'.lastUpsert[older] < s'.lastUpsert[newer]
      ensures SomebodyOwes(s', newer)
    {
      DebtCarries(s, s', newer);
    }
  }

  lemma BreakKeepsInv(s: Sys, publish: nat)
    requires Inv(s)
    ensures Inv(Apply(s, Break(publish)))
  {
    var s' := Apply(s, Break(publish));
    forall older, newer | Twins(s'.keys, older, newer) && s'.lastUpsert[older] < s'.lastUpsert[newer]
      ensures SomebodyOwes(s', newer)
    {
      assert SomebodyOwes(s, newer);
      DebtCarries(s, s', newer);
    }
  }

  lemma ApplyKeepsInv(s: Sys, e: Event)
    requires Inv(s)
    ensures Inv(Apply(s, e))
  {
    match e
    case Step(publish, at) =>
      if publish in s.publishes {
        match s.publishes[publish]
        case Upserting(_, _) => UpsertKeepsInv(s, publish, at);
        case ReadingBack(_, _) => ReadBackKeepsInv(s, publish, at);
        case Retiring(_, _, _) => RetireKeepsInv(s, publish, at);
        case _ =>
      }
    case Retire(device, at) => RetireDeviceKeepsInv(s, device, at);
    case Begin(publish, k, draft) => BeginKeepsInv(s, publish, k, draft);
    case Break(publish) => BreakKeepsInv(s, publish);
  }

  lemma {:induction false} RunKeepsInv(s: Sys, events: seq<Event>)
    requires Inv(s)
    ensures Inv(Run(s, events))
    decreases |events|
  {
    if events != [] {
      ApplyKeepsInv(s, events[0]);
      RunKeepsInv(Apply(s, events[0]), events[1..]);
    }
  }

  const EMPTY := Sys(map[], map[], map[], 0)

  ghost predicate Quiet(s: Sys)
  {
    forall p :: p in s.publishes ==> !InFlight(s.publishes[p])
  }

  /** A publish of `k` that never came to retire its siblings. */
  ghost predicate BrokenOff(p: Publish, k: KeyId)
  {
    p.Abandoned? && p.since.Some? && p.k == k
  }

  /** In a quiet store two live keys of one handset mean a publish of the later one was broken off after its upsert. */
  lemma TwinsMeanABrokenPublish(events: seq<Event>, j: KeyId, k: KeyId)
    requires Quiet(Run(EMPTY, events)) && Twins(Run(EMPTY, events).keys, j, k)
    ensures var s := Run(EMPTY, events);
            j in s.lastUpsert && k in s.lastUpsert &&
            exists p :: p in s.publishes
              && BrokenOff(s.publishes[p], if s.lastUpsert[j] < s.lastUpsert[k] then k else j)
  {
    var s := Run(EMPTY, events);
    RunKeepsInv(EMPTY, events);
    var newer := if s.lastUpsert[j] < s.lastUpsert[k] then k else j;
    assert Twins(s.keys, k, j);
    assert SomebodyOwes(s, newer);
    var p :| p in s.publishes && Owes(s, s.publishes[p], newer, s.keys[newer].device);
    assert BrokenOff(s.publishes[p], newer);
  }

  /** With no publish in flight and none broken off after its upsert, a handset has at most one live key. */
  lemma OneLiveKeyAHandset(events: seq<Event>, j: KeyId, k: KeyId)
    requires Quiet(Run(EMPTY, events))
    requires forall p :: p in Run(EMPTY, events).publishes && Run(EMPTY, events).publishes[p].Abandoned? ==>
               Run(EMPTY, events).publishes[p].since.None?
    requires var keys := Run(EMPTY, events).keys;
             Live(keys, j) && Live(keys, k) && j.actor == k.actor && keys[j].device == keys[k].device != ""
    ensures j == k
  {
    if j != k {
      TwinsMeanABrokenPublish(events, j, k);
    }
  }

  /** The condition is needed: one publish broken off after its upsert leaves its handset two live keys. */
  lemma ABrokenPublishLeavesTwins(actor: string, device: string, at: Instant)
    requires device != ""
    ensures var j, k := KeyId(actor, "1"), KeyId(actor, "2");
            var draft := DeviceKey("", actor, device, at, None);
            var events :=
              [Begin(1, j, draft), Step(1, at), Step(1, at), Step(1, at), Begin(2, k, draft), Step(2, at), Break(2)];
            Quiet(Run(EMPTY, events)) && Twins(Run(EMPTY, events).keys, j, k)
  {
    var j, k := KeyId(actor, "1"), KeyId(actor, "2");
    assert "1"[0] != "2"[0];
    var draft := DeviceKey("", actor, device, at, None);
    var s1 := Apply(EMPTY, Begin(1, j, draft));
    var s2 := Apply(s1, Step(1, at));
    assert s2.keys == map[j := draft];
    var s3 := Apply(s2, Step(1, at));
    assert s3.publishes[1] == Retiring(j, 0, device);
    var s4 := Apply(s3, Step(1, at));
    assert s4.keys == map[j := draft];
    var s5 := Apply(s4, Begin(2, k, draft));
    var s6 := Apply(s5, Step(2, at));
    var s7 := Apply(s6, Break(2));
    var events :=
      [Begin(1, j, draft), Step(1, at), Step(1, at), Step(1, at), Begin(2, k, draft), Step(2, at), Break(2)];
    RunSeven(EMPTY, events);
    assert Run(EMPTY, events) == s7;
  }

  lemma RunSeven(s: Sys, e: seq<Event>)
    requires |e| == 7
    ensures Run(s, e) == Apply(Apply(Apply(Apply(Apply(Apply(Apply(s, e[0]), e[1]), e[2]), e[3]), e[4]), e[5]), e[6])
  {
    RunAppend(s, e[..6], e[6]);
    assert e == e[..6] + [e[6]];
    RunAppend(s, e[..5], e[5]);
    assert e[..6] == e[..5] + [e[5]];
    RunAppend(s, e[..4], e[4]);
    assert e[..5] == e[..4] + [e[4]];
    RunAppend(s, e[..3], e[3]);
    assert e[..4] == e[..3] + [e[3]];
    RunAppend(s, e[..2], e[2]);
    assert e[..3] == e[..2] + [e[2]];
    RunAppend(s, e[..1], e[1]);
    assert e[..2] == e[..1] + [e[1]];
  }

  lemma {:induction false} RunAppend(s: Sys, events: seq<Event>, e: Event)
    ensures Run(s, events + [e]) == Apply(Run(s, events), e)
    decreases |events|
  {
    if events == [] {
      assert events + [e] == [e];
    } else {
      RunAppend(Apply(s, events[0]), events[1..], e);
      assert (events + [e])[1..] == events[1..] + [e];
    }
  }

  // ---------------------------------------------------------------- the store

  /** What one publish leaves when nobody is in between. */
  function PublishAlone(keys: Keys, k: KeyId, draft: DeviceKey, at: Instant): Keys
  {
    RetireSiblings(Upsert(keys, k, draft), k, draft.device, at)
  }

  /** Publishing leaves the key live and, on its handset, alone; other actors and handsets keep what they had. */
  lemma PublishReplaces(keys: Keys, k: KeyId, draft: DeviceKey, at: Instant, j: KeyId)
    ensures var after := PublishAlone(keys, k, draft, at);
            && Live(after, k) && after[k].publicKey == draft.publicKey && after[k].device == draft.device
            && (j != k ==> (j in after <==> j in keys))
            && (j != k && j in keys ==>
                  if j.actor == k.actor && keys[j].device == draft.device != ""
                  then !Live(after, j) else after[j] == keys[j])
  {}

  ghost predicate OnePerHandset(keys: Keys)
  {
    forall j, k :: Live(keys, j) && Live(keys, k) && j.actor == k.actor && keys[j].device == keys[k].device != "" ==>
      j == k
  }

  /**
   * A publish that completes keeps one live key a handset; one broken off after its upsert does iff no sibling was
   * live.
   */
  lemma BrokenPublishKeepsOneIff(keys: Keys, k: KeyId, draft: DeviceKey, at: Instant)
    requires OnePerHandset(keys)
    ensures OnePerHandset(PublishAlone(keys, k, draft, at))
    ensures OnePerHandset(Upsert(keys, k, draft)) <==>
              forall j :: Live(keys, j) && j != k && j.actor == k.actor && keys[j].device == draft.device ==>
                draft.device == ""
  {
    var after := Upsert(keys, k, draft);
    assert Live(after, k) && after[k].device == draft.device;
    forall j | j != k ensures Live(after, j) <==> Live(keys, j) {}
  }

  class DMKeyStore {
    var keys: Keys

    constructor ()
      ensures keys == map[]
    {
      keys := map[];
    }

    /** The three statements of a publish, with no other host in between. */
    method PublishDeviceKey(k: KeyId, draft: DeviceKey, at: Instant) returns (published: DeviceKey)
      modifies this
      ensures keys == PublishAlone(old(keys), k, draft, at)
      ensures published == Upsert(old(keys), k, draft)[k]
    {
      keys := Upsert(keys, k, draft);
      published := keys[k];
      if published.device != "" {
        keys := RetireSiblings(keys, k, published.device, at);
      }
    }

    /** The live keys of the named actors, and no other key. */
    method LookupDeviceKeys(actors: seq<string>) returns (found: Keys)
      ensures forall k :: k in found <==> Live(keys, k) && k.actor in actors
      ensures forall k :: k in found ==> k in keys && found[k] == keys[k]
    {
      if |actors| == 0 { return map[]; }
      found := map k | k in keys && k.actor in actors && keys[k].retiredAt.None? :: keys[k];
    }

    method RetireDeviceKeysForDevice(device: string, at: Instant) returns (retired: nat)
      modifies this
      ensures keys == RetireDevice(old(keys), device, at)
      ensures retired == |set k | k in old(keys) && Live(old(keys), k) && old(keys)[k].device == device != ""|
    {
      if device == "" {
        assert (set k | k in old(keys) && Live(old(keys), k) && old(keys)[k].device == device != "") == {};
        return 0;
      }
      var live := set k | k in keys && Live(keys, k) && keys[k].device == device != "";
      retired := |live|;
      keys := RetireDevice(keys, device, at);
    }
  }
}
