/** A direct-message thread's roster: who is on it, in which state, and who may change that. */
module DMRoster {
  import opened Common
  import opened Names

  datatype State = Invited | Active | Left | Kicked

  datatype Participant = Participant(state: State, isAdmin: bool, updatedAt: Instant)

  /** One thread's participants; every statement names one thread. */
  type Roster = map<string, Participant>

  datatype Refusal = NotFound | NotAdmin | AlreadyActive | SelfKick | LastAdmin | NotLastToLeave | Conflict

  datatype Reply = Done | Refused(why: Refusal)

  function ActiveSet(r: Roster): set<string>
  {
    set a | a in r && r[a].state.Active?
  }

  function ActiveAdmins(r: Roster): set<string>
  {
    set a | a in r && r[a].state.Active? && r[a].isAdmin
  }

  predicate IsAdmin(r: Roster, actor: string)
  {
    actor in r && r[actor].isAdmin && r[actor].state.Active?
  }

  // ---------------------------------------------------------------- whole operations

  datatype Op =
    | Invite(actor: string, who: string)
    | Accept(actor: string)
    | Leave(actor: string)
    | Kick(actor: string, who: string)
    | Promote(actor: string, who: string)
    | ReEnable(actor: string, who: string)

  function SetState(r: Roster, actor: string, state: State, at: Instant): (Roster, Reply)
  {
    if actor in r then (r[actor := r[actor].(state := state, updatedAt := at)], Done) else (r, Refused(NotFound))
  }

  /** The one statement that brings an emptied thread back. */
  function ClaimEmptied(r: Roster, actor: string, at: Instant): (Roster, Reply)
  {
    if actor in r && r[actor].state.Left? && (forall a :: a in r ==> !r[a].state.Active?)
    then (r[actor := r[actor].(state := Active, updatedAt := at)], Done)
    else (r, Refused(NotLastToLeave))
  }

  /** What one operation does, run whole. */
  ghost function Perform(r: Roster, op: Op, at: Instant): (Roster, Reply)
  {
    match op
    case Invite(actor, who) =>
      if !IsAdmin(r, who) then (r, Refused(NotAdmin))
      else if actor in r && r[actor].state.Active? then (r, Refused(AlreadyActive))
      else (r[actor := Participant(Invited, actor in r && r[actor].isAdmin, at)], Done)
    case Accept(actor) => SetState(r, actor, Active, at)
    case Leave(actor) =>
      if IsAdmin(r, actor) && |ActiveAdmins(r)| == 1 && |ActiveSet(r)| > 1 then (r, Refused(LastAdmin))
      else SetState(r, actor, Left, at)
    case Kick(actor, who) =>
      if actor == who then (r, Refused(SelfKick))
      else if !IsAdmin(r, who) then (r, Refused(NotAdmin))
      else SetState(r, actor, Kicked, at)
    case Promote(actor, who) =>
      if !IsAdmin(r, who) then (r, Refused(NotAdmin))
      else if actor !in r then (r, Refused(NotFound))
      else (r[actor := r[actor].(isAdmin := true, updatedAt := at)], Done)
    case ReEnable(actor, who) =>
      if actor !in r then (r, Refused(NotFound))
      else if actor == who then ClaimEmptied(r, actor, at)
      else if !IsAdmin(r, who) then (r, Refused(NotAdmin))
      else SetState(r, actor, Invited, at)
  }

  /** An operation and the instant its clock gave. */
  type Timed = (Op, Instant)

  ghost function Run(r: Roster, ops: seq<Timed>): Roster
    decreases |ops|
  {
    if ops == [] then r else Run(Perform(r, ops[0].0, ops[0].1).0, ops[1..])
  }

  // ---------------------------------------------------------------- admin continuity

  lemma SingletonSets<T>(small: set<T>, big: set<T>, x: T)
    requires small <= big && x in small
    ensures |small| == 1 <==> small == {x}
    ensures |big| > 1 <==> big != {x}
  {
    if small != {x} {
      var y :| y in small && y != x;
      assert |{x, y}| == 2 && {x, y} <= small;
      SubsetSize({x, y}, small);
    }
    if big != {x} {
      var y :| y in big && y != x;
      assert |{x, y}| == 2 && {x, y} <= big;
      SubsetSize({x, y}, big);
    }
  }

  lemma SubsetSize<T>(a: set<T>, b: set<T>)
    requires a <= b
    ensures |a| <= |b|
  {
    assert b == a + (b - a);
  }

  /** An operation on a thread with an active admin leaves an active admin, or nobody active. */
  lemma NoOperationLosesTheLastAdmin(r: Roster, op: Op, at: Instant)
    requires ActiveAdmins(r) != {}
    ensures var r' := Perform(r, op, at).0; ActiveAdmins(r') != {} || ActiveSet(r') == {}
  {
    var r' := Perform(r, op, at).0;
    var admin :| admin in ActiveAdmins(r);
    match op
    case Leave(actor) =>
      if r' != r && IsAdmin(r, actor) {
        SingletonSets(ActiveAdmins(r), ActiveSet(r), actor);
        if ActiveAdmins(r) != {actor} {
          var other :| other in ActiveAdmins(r) && other != actor;
          assert other in ActiveAdmins(r');
        } else {
          assert ActiveSet(r) == {actor};
          assert forall a :: a in ActiveSet(r') ==> a in ActiveSet(r) && a != actor;
        }
      } else {
        assert admin in ActiveAdmins(r');
      }
    case Kick(actor, who) =>
      if r' != r { assert who in ActiveAdmins(r'); } else { assert admin in ActiveAdmins(r'); }
    case ReEnable(actor, who) =>
      if r' != r && actor != who { assert who in ActiveAdmins(r'); } else { assert admin in ActiveAdmins(r'); }
    case _ => assert admin in ActiveAdmins(r');
  }

  /** From any roster with an active admin, a run keeps one in every state up to the first with nobody active. */
  lemma {:induction false} AdminContinuity(r: Roster, ops: seq<Timed>)
    requires ActiveAdmins(r) != {}
    requires forall k :: 0 <= k <= |ops| ==> ActiveSet(Run(r, ops[..k])) != {}
    ensures ActiveAdmins(Run(r, ops)) != {}
    decreases |ops|
  {
    if ops != [] {
      NoOperationLosesTheLastAdmin(r, ops[0].0, ops[0].1);
      var r1 := Perform(r, ops[0].0, ops[0].1).0;
      assert ops[..1][1..] == [];
      assert Run(r, ops[..1]) == r1;
      forall k | 0 <= k <= |ops[1..]| ensures ActiveSet(Run(r1, ops[1..][..k])) != {} {
        assert ops[..k + 1][1..] == ops[1..][..k];
      }
      AdminContinuity(r1, ops[1..]);
    }
  }

  // ---------------------------------------------------------------- the claim

  /**
   * A self re-enable succeeds only from an emptied roster, by somebody who left, and leaves the claimant alone active.
   */
  lemma ClaimLeavesTheClaimantAlone(r: Roster, actor: string, at: Instant)
    ensures Perform(r, ReEnable(actor, actor), at).1.Done?
            <==> actor in r && r[actor].state.Left? && ActiveSet(r) == {}
    ensures Perform(r, ReEnable(actor, actor), at).1.Done? ==>
              ActiveSet(Perform(r, ReEnable(actor, actor), at).0) == {actor}
  {
    if actor in r && r[actor].state.Left? {
      if forall a :: a in r ==> !r[a].state.Active? {
        assert ActiveSet(r) == {};
        assert ActiveSet(ClaimEmptied(r, actor, at).0) == {actor};
      } else {
        var a :| a in r && r[a].state.Active?;
        assert a in ActiveSet(r);
      }
    }
  }

  /** True of the roster a leave emptied. */
  ghost predicate EmptiedBy(r: Roster, last: string, at: Instant)
  {
    Perform(r, Leave(last), at).1.Done? && ActiveSet(Perform(r, Leave(last), at).0) == {}
  }

  /** Whoever left a thread that a leave then emptied may claim it, not only the last to leave. */
  lemma AnybodyWhoLeftMayClaim(r: Roster, last: string, at: Instant, actor: string, later: Instant)
    requires EmptiedBy(r, last, at)
    ensures var r' := Perform(r, Leave(last), at).0;
            Perform(r', ReEnable(actor, actor), later).1.Done? <==>
              actor == last || (actor in r && r[actor].state.Left?)
  {
    ClaimLeavesTheClaimantAlone(Perform(r, Leave(last), at).0, actor, later);
  }

  /** So only the last to leave can bring the thread back exactly when nobody else on it had left. */
  lemma OnlyTheLastToLeaveMayClaimIff(r: Roster, last: string, at: Instant, later: Instant)
    requires EmptiedBy(r, last, at)
    ensures var r' := Perform(r, Leave(last), at).0;
            (forall actor :: Perform(r', ReEnable(actor, actor), later).1.Done? ==> actor == last)
            <==> (forall actor :: actor in r && r[actor].state.Left? ==> actor == last)
  {
    forall actor ensures var r' := Perform(r, Leave(last), at).0;
                         Perform(r', ReEnable(actor, actor), later).1.Done?
                         <==> actor == last || (actor in r && r[actor].state.Left?)
    {
      AnybodyWhoLeftMayClaim(r, last, at, actor, later);
    }
  }

  /** A run in which "a" leaves, "b" leaves last, and "a" brings the thread back. */
  lemma TheFirstToLeaveMayClaim(at: Instant)
    ensures var r := map["a" := Participant(Active, false, at), "b" := Participant(Active, true, at)];
            var left := Run(r, [(Leave("a"), at), (Leave("b"), at)]);
            && EmptiedBy(Run(r, [(Leave("a"), at)]), "b", at)
            && Perform(left, ReEnable("a", "a"), at).1.Done?
            && ActiveSet(Perform(left, ReEnable("a", "a"), at).0) == {"a"}
  {
    var r := map["a" := Participant(Active, false, at), "b" := Participant(Active, true, at)];
    var r1 := r["a" := Participant(Left, false, at)];
    var ops := [(Leave("a"), at), (Leave("b"), at)];
    assert Perform(r, Leave("a"), at) == (r1, Done);
    assert ops[1..] == [(Leave("b"), at)] && ops[1..][1..] == [];
    assert Run(r, [(Leave("a"), at)]) == r1 by { assert [(Leave("a"), at)][1..] == []; }
    assert ActiveSet(r1) == {"b"};
    assert Perform(r1, Leave("b"), at) == (r1["b" := Participant(Left, true, at)], Done);
    assert Run(r, ops) == Run(r1, ops[1..]) == Perform(r1, Leave("b"), at).0;
    AnybodyWhoLeftMayClaim(r1, "b", at, "a", at);
    ClaimLeavesTheClaimantAlone(Run(r, ops), "a", at);
  }

  ghost predicate Claims(r: Roster, op: Timed)
  {
    op.0.ReEnable? && op.0.actor == op.0.who && Perform(r, op.0, op.1).1.Done?
  }

  /** True of the `k`th step of a run when it found somebody active and left nobody. */
  ghost predicate Empties(r: Roster, ops: seq<Timed>, k: nat)
    requires k < |ops|
  {
    ActiveSet(Run(r, ops[..k])) != {} && ActiveSet(Run(r, ops[..k + 1])) == {}
  }

  /** A run from somebody active to nobody active has a step that empties the active set. */
  lemma {:induction false} SomeStepEmpties(r: Roster, ops: seq<Timed>, m: nat) returns (k: nat)
    requires m <= |ops|
    requires ActiveSet(Run(r, ops[..m])) != {} && ActiveSet(Run(r, ops)) == {}
    ensures m <= k < |ops| && Empties(r, ops, k)
    decreases |ops| - m
  {
    assert ops[..|ops|] == ops;
    if ActiveSet(Run(r, ops[..m + 1])) == {} {
      k := m;
    } else {
      k := SomeStepEmpties(r, ops, m + 1);
    }
  }

  lemma {:induction false} RunAppend(r: Roster, ops: seq<Timed>, op: Timed)
    ensures Run(r, ops + [op]) == Perform(Run(r, ops), op.0, op.1).0
    decreases |ops|
  {
    if ops == [] {
      assert ops + [op] == [op];
    } else {
      RunAppend(Perform(r, ops[0].0, ops[0].1).0, ops[1..], op);
      assert (ops + [op])[1..] == ops[1..] + [op];
    }
  }

  /** Between two successful claims of one thread there is a step that emptied its active set. */
  lemma BetweenTwoClaimsItEmptied(r: Roster, ops: seq<Timed>, i: nat, j: nat)
    requires i < j < |ops|
    requires Claims(Run(r, ops[..i]), ops[i]) && Claims(Run(r, ops[..j]), ops[j])
    ensures exists k :: i < k < j && Empties(r, ops, k)
  {
    RunAppend(r, ops[..i], ops[i]);
    assert ops[..i + 1] == ops[..i] + [ops[i]];
    ClaimLeavesTheClaimantAlone(Run(r, ops[..i]), ops[i].0.actor, ops[i].1);
    ClaimLeavesTheClaimantAlone(Run(r, ops[..j]), ops[j].0.actor, ops[j].1);
    var before := ops[..j];
    assert before[..i + 1] == ops[..i + 1];
    var k := SomeStepEmpties(r, before, i + 1);
    assert before[..k] == ops[..k] && before[..k + 1] == ops[..k + 1];
    assert Empties(r, ops, k);
  }

  // ---------------------------------------------------------------- who may change what

  predicate ActiveIn(r: Roster, actor: string)
  {
    actor in r && r[actor].state.Active?
  }

  predicate Flagged(r: Roster, actor: string)
  {
    actor in r && r[actor].isAdmin
  }

  /** An operation changes nobody's row but its subject's, a refused one nobody's, and it never removes a row. */
  lemma OneRowAtATime(r: Roster, op: Op, at: Instant)
    ensures var (r', reply) := Perform(r, op, at);
            && (reply.Refused? ==> r' == r)
            && (forall a :: a in r ==> a in r' && (a != op.actor ==> r'[a] == r[a]))
            && (forall a :: a in r' && a !in r ==> op == Invite(a, op.who) && r'[a] == Participant(Invited, false, at))
            && (ActiveIn(r', op.actor) && !ActiveIn(r, op.actor) ==> op.Accept? || op == ReEnable(op.actor, op.actor))
            && (Flagged(r', op.actor) && !Flagged(r, op.actor) ==> op.Promote? && IsAdmin(r, op.who))
  {}

  /** Nobody becomes active but by accepting, or by claiming an emptied thread, oneself. */
  lemma {:induction false} NobodyIsMadeActive(r: Roster, ops: seq<Timed>, actor: string)
    requires !ActiveIn(r, actor) && ActiveIn(Run(r, ops), actor)
    ensures exists k :: 0 <= k < |ops| && (ops[k].0 == Accept(actor) || ops[k].0 == ReEnable(actor, actor))
    decreases |ops|
  {
    var r1 := Perform(r, ops[0].0, ops[0].1).0;
    OneRowAtATime(r, ops[0].0, ops[0].1);
    if !ActiveIn(r1, actor) {
      NobodyIsMadeActive(r1, ops[1..], actor);
      var k :| 0 <= k < |ops[1..]| && (ops[1..][k].0 == Accept(actor) || ops[1..][k].0 == ReEnable(actor, actor));
      assert ops[k + 1] == ops[1..][k];
    }
  }

  /** Nobody becomes an admin but by the promotion of somebody who was an active admin then. */
  lemma {:induction false} AdminsAreMadeByAdmins(r: Roster, ops: seq<Timed>, actor: string, m: nat) returns (k: nat)
    requires m <= |ops| && !Flagged(Run(r, ops[..m]), actor) && Flagged(Run(r, ops), actor)
    ensures m <= k < |ops| && ops[k].0.Promote? && ops[k].0.actor == actor && IsAdmin(Run(r, ops[..k]), ops[k].0.who)
    decreases |ops| - m
  {
    assert ops[..|ops|] == ops;
    RunAppend(r, ops[..m], ops[m]);
    assert ops[..m + 1] == ops[..m] + [ops[m]];
    OneRowAtATime(Run(r, ops[..m]), ops[m].0, ops[m].1);
    if Flagged(Run(r, ops[..m + 1]), actor) {
      k := m;
    } else {
      k := AdminsAreMadeByAdmins(r, ops, actor, m + 1);
    }
  }

  // ---------------------------------------------------------------- between the statements of a leave

  /** The guard a leave evaluates, on the roster as it then is. */
  predicate MayLeave(r: Roster, actor: string)
  {
    !(IsAdmin(r, actor) && |ActiveAdmins(r)| == 1 && |ActiveSet(r)| > 1)
  }

  /**
   * The write of a leave, on a roster others may have changed since its guard, keeps continuity iff the guard still
   * holds.
   */
  lemma LeaveWriteKeepsContinuityIff(r: Roster, actor: string, at: Instant)
    requires ActiveAdmins(r) != {}
    ensures var r' := SetState(r, actor, Left, at).0;
            (ActiveAdmins(r') != {} || ActiveSet(r') == {}) <==> MayLeave(r, actor)
  {
    var r' := SetState(r, actor, Left, at).0;
    if MayLeave(r, actor) {
      assert r' == Perform(r, Leave(actor), at).0;
      NoOperationLosesTheLastAdmin(r, Leave(actor), at);
    } else {
      SingletonSets(ActiveAdmins(r), ActiveSet(r), actor);
      assert ActiveAdmins(r') == {} by {
        assert forall a :: a in ActiveAdmins(r') ==> a in ActiveAdmins(r) && a != actor;
      }
      var other :| other in ActiveSet(r) && other != actor;
      assert other in ActiveSet(r');
    }
  }

  /** Two admins who both count before either writes strand the rest: continuity is not kept statement by statement. */
  lemma TwoLeavesMayStrandTheThread(at: Instant)
    ensures var r := map["a" := Participant(Active, true, 0), "b" := Participant(Active, true, 0),
                         "c" := Participant(Active, false, 0)];
            var r' := SetState(SetState(r, "a", Left, at).0, "b", Left, at).0;
            MayLeave(r, "a") && MayLeave(r, "b") && ActiveSet(r') != {} && ActiveAdmins(r') == {}
  {
    var r := map["a" := Participant(Active, true, 0), "b" := Participant(Active, true, 0),
                 "c" := Participant(Active, false, 0)];
    assert "a"[0] != "b"[0] && "b"[0] != "c"[0] && "a"[0] != "c"[0];
    assert "a" in ActiveAdmins(r) && "b" in ActiveAdmins(r);
    SingletonSets(ActiveAdmins(r), ActiveSet(r), "a");
    SingletonSets(ActiveAdmins(r), ActiveSet(r), "b");
    var r' := SetState(SetState(r, "a", Left, at).0, "b", Left, at).0;
    assert "c" in ActiveSet(r');
  }

  /** Nothing looks at the earlier state: somebody kicked is active again by accepting. */
  lemma KickedIsNotFinal(r: Roster, actor: string, who: string, at: Instant)
    requires Perform(r, Kick(actor, who), at).1.Done?
    ensures var kicked := Perform(r, Kick(actor, who), at).0;
            !IsAdmin(kicked, actor) && actor in ActiveSet(Perform(kicked, Accept(actor), at).0)
  {
    var kicked := Perform(r, Kick(actor, who), at).0;
    assert actor in kicked;
  }

  // ---------------------------------------------------------------- the first roster

  /** The rows a new thread inserts after its creator's: everybody else named, in order. */
  ghost function Others(initial: seq<string>, creator: string): seq<string>
  {
    Keep(initial, a => a != creator)
  }

  /** The creator, active and admin, and the others, invited. */
  ghost function FirstRoster(others: seq<string>, creator: string, at: Instant): Roster
  {
    (map a | a in others :: Participant(Invited, false, at))
    + (if creator == "" then map[] else map[creator := Participant(Active, true, at)])
  }

  lemma OthersAppend(initial: seq<string>, creator: string, k: nat)
    requires k < |initial|
    ensures Others(initial[..k + 1], creator)
            == Others(initial[..k], creator) + if initial[k] == creator then [] else [initial[k]]
  {
    KeepAppend(initial, k, a => a != creator);
  }

  lemma OthersAreNotTheCreator(initial: seq<string>, creator: string)
    ensures forall a :: a in Others(initial, creator) <==> a in initial && a != creator
  {
    KeptAre(initial, a => a != creator);
  }

  lemma OneMoreOther(others: seq<string>, creator: string, a: string, at: Instant)
    requires a != creator
    ensures FirstRoster(others + [a], creator, at)
            == FirstRoster(others, creator, at)[a := Participant(Invited, false, at)]
    ensures a in FirstRoster(others, creator, at) ==> !NoneTwice(others + [a])
    ensures a !in FirstRoster(others, creator, at) && NoneTwice(others) ==> NoneTwice(others + [a])
  {
    if a in others {
      var i :| 0 <= i < |others| && others[i] == a;
      assert (others + [a])[i] == (others + [a])[|others|];
    }
  }

  /**
   * Creates a thread and its roster in one transaction: an id already taken, or somebody named twice, violates a
   * primary key and aborts it. An id the caller leaves out is minted.
   */
  method CreateThread(threads: map<string, Roster>, id: string, minted: string, creator: string, initial: seq<string>,
                      at: Instant)
    returns (after: map<string, Roster>, reply: Reply)
    ensures reply.Done? <==> KeyOf(id, minted) !in threads && NoneTwice(Others(initial, creator))
    ensures reply.Refused? ==> reply.why == Conflict && after == threads
    ensures reply.Done? ==> after == threads[KeyOf(id, minted) := FirstRoster(Others(initial, creator), creator, at)]
  {
    var key := if id == "" then minted else id;
    if key in threads { return threads, Refused(Conflict); }
    var roster: Roster := map[];
    if creator != "" { roster := map[creator := Participant(Active, true, at)]; }
    ghost var named: seq<string> := [];
    for k := 0 to |initial|
      invariant named == Others(initial[..k], creator) && NoneTwice(named)
      invariant roster == FirstRoster(named, creator, at)
    {
      OthersAppend(initial, creator, k);
      if initial[k] != creator {
        OneMoreOther(named, creator, initial[k], at);
        named := named + [initial[k]];
        if initial[k] in roster {
          OthersPrefix(initial, creator, k + 1);
          return threads, Refused(Conflict);
        }
        roster := roster[initial[k] := Participant(Invited, false, at)];
      }
    }
    assert initial[..|initial|] == initial;
    return threads[key := roster], Done;
  }

  function KeyOf(id: string, minted: string): string
  {
    if id == "" then minted else id
  }

  /** A new thread has exactly its creator and those named on it, and an active admin iff it has a creator. */
  lemma FirstRosterIsWhoWasNamed(initial: seq<string>, creator: string, at: Instant)
    ensures var r := FirstRoster(Others(initial, creator), creator, at);
            && (forall a :: a in r <==> (a in initial && a != creator) || a == creator != "")
            && (forall a :: a in r ==>
                r[a] == if a == creator then Participant(Active, true, at) else Participant(Invited, false, at))
            && ActiveSet(r) == ActiveAdmins(r) == if creator == "" then {} else {creator}
  {
    OthersAreNotTheCreator(initial, creator);
  }

  lemma {:induction false} OthersPrefix(initial: seq<string>, creator: string, k: nat)
    requires k <= |initial| && !NoneTwice(Others(initial[..k], creator))
    ensures !NoneTwice(Others(initial, creator))
    decreases |initial| - k
  {
    if k == |initial| {
      assert initial[..k] == initial;
    } else {
      OthersAppend(initial, creator, k);
      var s, t := Others(initial[..k], creator), Others(initial[..k + 1], creator);
      assert s <= t;
      var i, j :| 0 <= i < j < |s| && s[i] == s[j];
      assert t[i] == t[j];
      OthersPrefix(initial, creator, k + 1);
    }
  }

  // ---------------------------------------------------------------- the store

  /** One thread's roster and the operations on it, each run whole. */
  class DMRosterStore {
    var rows: Roster

    constructor (roster: Roster)
      ensures rows == roster
    {
      rows := roster;
    }

    method UpdateState(actor: string, state: State, at: Instant) returns (reply: Reply)
      modifies this
      ensures (rows, reply) == SetState(old(rows), actor, state, at)
    {
      if actor !in rows { return Refused(NotFound); }
      rows := rows[actor := rows[actor].(state := state, updatedAt := at)];
      reply := Done;
    }

    method Invite(actor: string, who: string, at: Instant) returns (reply: Reply)
      modifies this
      ensures (rows, reply) == Perform(old(rows), Op.Invite(actor, who), at)
    {
      if !IsAdmin(rows, who) { return Refused(NotAdmin); }
      if actor in rows && rows[actor].state.Active? { return Refused(AlreadyActive); }
      if actor in rows {
        rows := rows[actor := rows[actor].(state := Invited, updatedAt := at)];
      } else {
        rows := rows[actor := Participant(Invited, false, at)];
      }
      reply := Done;
    }

    method Accept(actor: string, at: Instant) returns (reply: Reply)
      modifies this
      ensures (rows, reply) == Perform(old(rows), Op.Accept(actor), at)
    {
      reply := UpdateState(actor, Active, at);
    }

    method Leave(actor: string, at: Instant) returns (reply: Reply)
      modifies this
      ensures (rows, reply) == Perform(old(rows), Op.Leave(actor), at)
    {
      if IsAdmin(rows, actor) {
        var activeAdmins := |ActiveAdmins(rows)|;
        var active := |ActiveSet(rows)|;
        if activeAdmins == 1 && active > 1 { return Refused(LastAdmin); }
      }
      reply := UpdateState(actor, Left, at);
    }

    method Kick(actor: string, who: string, at: Instant) returns (reply: Reply)
      modifies this
      ensures (rows, reply) == Perform(old(rows), Op.Kick(actor, who), at)
    {
      if actor == who { return Refused(SelfKick); }
      if !IsAdmin(rows, who) { return Refused(NotAdmin); }
      reply := UpdateState(actor, Kicked, at);
    }

    method Promote(actor: string, who: string, at: Instant) returns (reply: Reply)
      modifies this
      ensures (rows, reply) == Perform(old(rows), Op.Promote(actor, who), at)
    {
      if !IsAdmin(rows, who) { return Refused(NotAdmin); }
      if actor !in rows { return Refused(NotFound); }
      rows := rows[actor := rows[actor].(isAdmin := true, updatedAt := at)];
      reply := Done;
    }

    method ReEnable(actor: string, who: string, at: Instant) returns (reply: Reply)
      modifies this
      ensures (rows, reply) == Perform(old(rows), Op.ReEnable(actor, who), at)
    {
      if actor !in rows { return Refused(NotFound); }
      if actor == who {
        if !rows[actor].state.Left? || (exists a :: a in rows && rows[a].state.Active?) {
          return Refused(NotLastToLeave);
        }
        rows := rows[actor := rows[actor].(state := Active, updatedAt := at)];
        return Done;
      }
      if !IsAdmin(rows, who) { return Refused(NotAdmin); }
      reply := UpdateState(actor, Invited, at);
    }
  }
}
