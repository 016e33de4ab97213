/** Where moving a declined thread aside meets the labels: the path it is moved to may be a label's own. */
module ChatAsides {
  import opened Common
  import opened ChatReuse
  import opened ChatRuns
  import opened ChatThreads
  import opened Slug

  lemma {:induction false} RunConcat(s: Sys, first: seq<Event>, rest: seq<Event>)
    ensures Run(s, first + rest) == Run(Run(s, first), rest)
    decreases |first|
  {
    if first == [] {
      assert first + rest == rest;
    } else {
      assert (first + rest)[0] == first[0] && (first + rest)[1..] == first[1..] + rest;
      RunConcat(Apply(s, first[0]), first[1..], rest);
    }
  }

  lemma RunOne(s: Sys, e: Event)
    ensures Run(s, [e]) == Apply(s, e)
  {
    assert [e][1..] == [];
  }

  lemma RunThree(s: Sys, e: Event, f: Event, g: Event)
    ensures Run(s, [e, f, g]) == Apply(Apply(Apply(s, e), f), g)
  {
    var s1, s2 := Apply(s, e), Apply(Apply(s, e), f);
    assert [e, f, g][1..] == [f, g] && Run(s, [e, f, g]) == Run(s1, [f, g]);
    assert [f, g][1..] == [g] && Run(s1, [f, g]) == Run(s2, [g]);
    assert [g][1..] == [] && Run(s2, [g]) == Apply(s2, g);
  }

  /** A call's whole start, undisturbed, of a label whose path is free. */
  lemma StartSteps(s: Sys, call: nat, draft: Thread, at: Instant)
    requires call !in s.calls && Fresh(s, draft.id) && draft.declined.None? && SlotOf(draft) !in s.db.index
    ensures var s' := Run(s, [BeginStart(call, draft, Anything()), Step(call, at), Step(call, at)]);
            s'.db == Insert(s.db, draft.(createdAt := at)) && s'.calls.Keys == s.calls.Keys + {call}
            && s'.minter.Keys == s.minter.Keys + {draft.id}
  {
    var s1 := Apply(s, BeginStart(call, draft, Anything()));
    var s2 := Apply(s1, Step(call, at));
    assert s2 == Turn(s1, call, Minting(draft, draft.path, Anything(), None));
    RunThree(s, BeginStart(call, draft, Anything()), Step(call, at), Step(call, at));
  }

  /** A call's whole decline, undisturbed, of a thread that can be declined and whose aside path is free. */
  lemma DeclineSteps(s: Sys, call: nat, t: Thread, who: string, at: Instant)
    requires call !in s.calls && t.id in s.db.threads && s.db.threads[t.id] == t && Declinable(t)
    requires (t.room, Aside(t.path, t.id)) !in s.db.index
    ensures var s' := Run(s, [BeginDecline(call, t.room, t.id, who), Step(call, at), Step(call, at)]);
            && s'.db == DeclineUpdate(s.db, t.room, t.id, Decline(at, who), Aside(t.path, t.id)).0
            && s'.calls.Keys == s.calls.Keys + {call} && s'.minter == s.minter
            && t.id in s'.db.threads && s'.db.threads[t.id].declined.Some?
            && (t.room, Aside(t.path, t.id)) in s'.db.index && s'.db.index[(t.room, Aside(t.path, t.id))] == t.id
  {
    var s1 := Apply(s, BeginDecline(call, t.room, t.id, who));
    var s2 := Apply(s1, Step(call, at));
    assert s2 == Turn(s1, call, DecliningRead(t, who, 0));
    RunThree(s, BeginDecline(call, t.room, t.id, who), Step(call, at), Step(call, at));
  }

  /** A call's whole decline, undisturbed, of a thread that can be declined and whose aside path is taken. */
  lemma DeclineClashes(s: Sys, call: nat, t: Thread, who: string, at: Instant)
    requires call !in s.calls && t.id in s.db.threads && s.db.threads[t.id] == t && Declinable(t)
    requires (t.room, Aside(t.path, t.id)) in s.db.index && s.db.index[(t.room, Aside(t.path, t.id))] != t.id
    ensures var s' := Run(s, [BeginDecline(call, t.room, t.id, who), Step(call, at), Step(call, at)]);
            s'.db == s.db && call in s'.calls && s'.calls[call] == Over(Conflicted)
  {
    var s1 := Apply(s, BeginDecline(call, t.room, t.id, who));
    var s2 := Apply(s1, Step(call, at));
    assert s2 == Turn(s1, call, DecliningRead(t, who, 0));
    RunThree(s, BeginDecline(call, t.room, t.id, who), Step(call, at), Step(call, at));
  }

  /** The ids that `mintID` gives chat threads. */
  function IdOf(minted: string): (id: string)
    ensures Suffix(id) == minted
  {
    PREFIX + minted
  }

  function Asking(minted: string, path: string): Thread
  {
    Thread(IdOf(minted), "r", path, "", Leads, "m", None, 0)
  }

  const NOTHING := Sys(Db(map[], map[]), map[], map[], map[])

  ghost function Starts(call: nat, minted: string, path: string, at: Instant): seq<Event>
  {
    [BeginStart(call, Asking(minted, path), Anything()), Step(call, at), Step(call, at)]
  }

  ghost function Declines(call: nat, minted: string, at: Instant): seq<Event>
  {
    [BeginDecline(call, "r", IdOf(minted), "lead"), Step(call, at), Step(call, at)]
  }

  lemma FirstStart(u: string, path: string, at: Instant)
    ensures var s := Run(NOTHING, Starts(0, u, path, at));
            var t := Asking(u, path).(createdAt := at);
            s.calls.Keys == {0} && s.minter.Keys == {t.id} && s.db == Insert(NOTHING.db, t)
  {
    StartSteps(NOTHING, 0, Asking(u, path), at);
  }

  /** A thread is started and declined, and so moved aside. */
  lemma ThreadMovesAside(u: string, path: string, at: Instant)
    ensures var s := Run(Run(NOTHING, Starts(0, u, path, at)), Declines(1, u, at));
            && s.calls.Keys == {0, 1} && s.minter.Keys == {IdOf(u)} && s.db.threads.Keys == {IdOf(u)}
            && s.db.index.Keys == {("r", Aside(path, IdOf(u)))}
            && s.db.index[("r", Aside(path, IdOf(u)))] == IdOf(u) && s.db.threads[IdOf(u)].declined.Some?
  {
    FirstStart(u, path, at);
    DeclineSteps(Run(NOTHING, Starts(0, u, path, at)), 1, Asking(u, path).(createdAt := at), "lead", at);
  }

  lemma AsideIsAskedFor(u: string, v: string, path: string, at: Instant)
    requires u != v
    ensures var aside := Aside(path, IdOf(u));
            var again := BeginStart(2, Asking(v, aside), Anything());
            var s := Reached(Starts(0, u, path, at) + (Declines(1, u, at) + [again]));
            && 2 in s.calls && s.calls[2] == Starting(Asking(v, aside), Anything())
            && s.db.index.Keys == {("r", aside)} && s.db.index[("r", aside)] in s.db.threads
            && s.db.threads[s.db.index[("r", aside)]].declined.Some?
  {
    var again := BeginStart(2, Asking(v, Aside(path, IdOf(u))), Anything());
    RunConcat(NOTHING, Starts(0, u, path, at), Declines(1, u, at) + [again]);
    RunConcat(Run(NOTHING, Starts(0, u, path, at)), Declines(1, u, at), [again]);
    ThreadMovesAside(u, path, at);
    var s2 := Run(Run(NOTHING, Starts(0, u, path, at)), Declines(1, u, at));
    assert Suffix(IdOf(u)) != Suffix(IdOf(v));
    RunOne(s2, again);
  }

  /** A label, and an id minted as groups of lower-case letters and digits. */
  ghost predicate Labelled(a: Alphabet, text: string, groups: Words)
  {
    && Sound(a) && WordsOf(a, text) != [] && groups != [] && WordList(groups, a.letterOrDigit)
    && forall i :: 0 <= i < |groups| ==> All(groups[i], c => a.lower(c) == c)
  }

  /**
   * A label's thread is started and declined, and so moved aside; then a label is started that names the very path it
   * was moved to, where it finds the declined thread.
   */
  lemma ADeclinedThreadMayHoldALabelsPath(a: Alphabet, text: string, groups: Words, v: string, at: Instant)
    requires Labelled(a, text, groups) && v != Join(groups, '-')
    ensures var u, path := Join(groups, '-'), PathOf(WordsOf(a, text));
            var aside := Aside(path, IdOf(u));
            var s := Reached(Starts(0, u, path, at)
                             + (Declines(1, u, at) + [BeginStart(2, Asking(v, aside), Anything())]));
            && TagPath(a, text) == Some(path) && TagPath(a, aside) == Some(aside)
            && 2 in s.calls && s.calls[2] == Starting(Asking(v, aside), Anything())
            && ("r", aside) in s.db.index && s.db.index[("r", aside)] in s.db.threads
            && s.db.threads[s.db.index[("r", aside)]].declined.Some? && ("r", Aside(aside, IdOf(v))) !in s.db.index
  {
    var u, path := Join(groups, '-'), PathOf(WordsOf(a, text));
    var aside := Aside(path, IdOf(u));
    LabelsMayNameAsidePaths(a, text, groups);
    AsideIsAskedFor(u, v, path, at);
  }

  /** Two threads are started, the second at the path the first would be moved aside to. */
  lemma SecondTakesTheAside(u: string, v: string, path: string, at: Instant)
    requires u != v
    ensures var s := Run(Run(NOTHING, Starts(0, u, path, at)), Starts(1, v, Aside(path, IdOf(u)), at));
            && s.calls.Keys == {0, 1} && IdOf(u) in s.db.threads
            && s.db.threads[IdOf(u)] == Asking(u, path).(createdAt := at)
            && ("r", Aside(path, IdOf(u))) in s.db.index
            && s.db.index[("r", Aside(path, IdOf(u)))] == IdOf(v) != IdOf(u)
  {
    FirstStart(u, path, at);
    assert Suffix(IdOf(u)) != Suffix(IdOf(v));
    StartSteps(Run(NOTHING, Starts(0, u, path, at)), 1, Asking(v, Aside(path, IdOf(u))), at);
  }

  /**
   * A label's thread is started, then the label that names where it would be moved aside. The first thread is still
   * asked for and with the leads, and its decline, which nobody disturbs, meets the index and declines nothing.
   */
  lemma ADeclineMayMeetTheIndex(a: Alphabet, text: string, groups: Words, v: string, at: Instant)
    requires Labelled(a, text, groups) && v != Join(groups, '-')
    ensures var u, path := Join(groups, '-'), PathOf(WordsOf(a, text));
            var aside := Aside(path, IdOf(u));
            var s := Reached(Starts(0, u, path, at) + (Starts(1, v, aside, at) + Declines(2, u, at)));
            && TagPath(a, text) == Some(path) && TagPath(a, aside) == Some(aside)
            && 2 in s.calls && s.calls[2] == Over(Conflicted)
            && IdOf(u) in s.db.threads && s.db.threads[IdOf(u)].room == "r" && Declinable(s.db.threads[IdOf(u)])
  {
    var u, path := Join(groups, '-'), PathOf(WordsOf(a, text));
    var aside := Aside(path, IdOf(u));
    LabelsMayNameAsidePaths(a, text, groups);
    RunConcat(NOTHING, Starts(0, u, path, at), Starts(1, v, aside, at) + Declines(2, u, at));
    RunConcat(Run(NOTHING, Starts(0, u, path, at)), Starts(1, v, aside, at), Declines(2, u, at));
    SecondTakesTheAside(u, v, path, at);
    DeclineClashes(Run(Run(NOTHING, Starts(0, u, path, at)), Starts(1, v, aside, at)), 2,
                   Asking(u, path).(createdAt := at), "lead", at);
  }
}
