/** Read, insert under a unique index, and read again when the insert loses: any number of callers at once. */
module GetOrCreate {
  import opened Common

  /** A call between two of its statements. */
  datatype Call<K, V> =
    | Resolving(key: K, draft: V)
    | Inserting(key: K, draft: V)
    | Rereading(key: K)
    | Answered(key: K, row: V)
    | Failed(key: K)

  /** The table, which the unique index keeps to one row a key, and the calls in progress. */
  datatype Sys<K, V> = Sys(rows: map<K, V>, calls: map<nat, Call<K, V>>)

  /** How a statement fares: it works, it breaks, or it breaks in a way the caller passes on at once. */
  datatype Luck = Works | Breaks | GivesUp

  datatype Event<K, V> = Begin(call: nat, key: K, draft: V) | Step(call: nat, luck: Luck)

  ghost function Advance<K, V>(rows: map<K, V>, c: Call<K, V>, luck: Luck): (map<K, V>, Call<K, V>)
  {
    match c
    case Resolving(key, draft) =>
      if !luck.Works? then (rows, Failed(key))
      else if key in rows then (rows, Answered(key, rows[key]))
      else (rows, Inserting(key, draft))
    case Inserting(key, draft) =>
      if luck.GivesUp? then (rows, Failed(key))
      else if luck.Breaks? || key in rows then (rows, Rereading(key))
      else (rows[key := draft], Answered(key, draft))
    case Rereading(key) =>
      if luck.Works? && key in rows then (rows, Answered(key, rows[key])) else (rows, Failed(key))
    case _ => (rows, c)
  }

  ghost function Apply<K, V>(s: Sys<K, V>, e: Event<K, V>): Sys<K, V>
  {
    match e
    case Begin(call, key, draft) =>
      if call in s.calls then s else s.(calls := s.calls[call := Resolving(key, draft)])
    case Step(call, luck) =>
      if call !in s.calls then s
      else
        var (rows, c) := Advance(s.rows, s.calls[call], luck);
        Sys(rows, s.calls[call := c])
  }

  ghost function Run<K, V>(s: Sys<K, V>, events: seq<Event<K, V>>): Sys<K, V>
    decreases |events|
  {
    if events == [] then s else Run(Apply(s, events[0]), events[1..])
  }

  /** One more statement of a call, after whatever `others` do, unless the call is over. */
  ghost function Next<K, V>(rows: map<K, V>, c: Call<K, V>, luck: Luck, others: map<K, V> -> map<K, V>)
    : (map<K, V>, Call<K, V>)
  {
    if c.Answered? || c.Failed? then (rows, c) else Advance(others(rows), c, luck)
  }

  /** A whole call: read, insert, read again. */
  ghost function Carry<K, V>(rows: map<K, V>, key: K, draft: V, read: Luck, insert: Luck, reread: Luck,
                             others: (nat, map<K, V>) -> map<K, V>): (map<K, V>, Call<K, V>)
  {
    var (r1, c1) := Next(rows, Resolving(key, draft), read, r => others(1, r));
    var (r2, c2) := Next(r1, c1, insert, r => others(2, r));
    Next(r2, c2, reread, r => others(3, r))
  }

  lemma CarryByStatements<K, V>(rows: map<K, V>, key: K, draft: V, read: Luck, insert: Luck, reread: Luck,
                                others: (nat, map<K, V>) -> map<K, V>)
    ensures var r1 := others(1, rows);
            var r2 := others(2, r1);
            var r3 := others(3, r2);
            Carry(rows, key, draft, read, insert, reread, others) ==
            if !read.Works? then (r1, Failed(key))
            else if key in r1 then (r1, Answered(key, r1[key]))
            else if insert.GivesUp? then (r2, Failed(key))
            else if insert.Works? && key !in r2 then (r2[key := draft], Answered(key, draft))
            else if reread.Works? && key in r3 then (r3, Answered(key, r3[key]))
            else (r3, Failed(key))
  {}

  /** Rows are added and never changed: what one host's statements may do behind another's back. */
  ghost predicate Extends<K, V>(before: map<K, V>, after: map<K, V>)
  {
    forall k :: k in before ==> k in after && after[k] == before[k]
  }

  /** The row that was first under a key in a run: there already, or the first one inserted. */
  ghost function FirstRow<K, V>(s: Sys<K, V>, events: seq<Event<K, V>>, key: K): Option<V>
    decreases |events|
  {
    if key in s.rows then Some(s.rows[key])
    else if events == [] then None
    else FirstRow(Apply(s, events[0]), events[1..], key)
  }

  /** The calls begun since `old` that have an answer were answered with the stored row. */
  ghost predicate AnsweredTruly<K, V>(s: Sys<K, V>, earlier: set<nat>)
  {
    forall c :: c in s.calls && c !in earlier && s.calls[c].Answered? ==>
      s.calls[c].key in s.rows && s.rows[s.calls[c].key] == s.calls[c].row
  }

  lemma StepKeepsTruth<K, V>(s: Sys<K, V>, e: Event<K, V>, earlier: set<nat>)
    requires AnsweredTruly(s, earlier)
    ensures Extends(s.rows, Apply(s, e).rows) && AnsweredTruly(Apply(s, e), earlier)
  {
    if e.Step? && e.call in s.calls {
      var (rows, c) := Advance(s.rows, s.calls[e.call], e.luck);
      assert Extends(s.rows, rows);
    }
  }

  lemma {:induction false} RunKeepsTruth<K, V>(s: Sys<K, V>, events: seq<Event<K, V>>, earlier: set<nat>, key: K)
    requires AnsweredTruly(s, earlier)
    ensures Extends(s.rows, Run(s, events).rows) && AnsweredTruly(Run(s, events), earlier)
    ensures key in Run(s, events).rows <==> FirstRow(s, events, key).Some?
    ensures key in Run(s, events).rows ==> Run(s, events).rows[key] == FirstRow(s, events, key).value
    decreases |events|
  {
    if events != [] {
      StepKeepsTruth(s, events[0], earlier);
      RunKeepsTruth(Apply(s, events[0]), events[1..], earlier, key);
    }
  }

  /** All successful calls for one key that began in a run return one row: the first one inserted, as it is stored. */
  lemma {:induction false} CallsConverge<K, V>(s: Sys<K, V>, events: seq<Event<K, V>>, c: nat, d: nat)
    requires c !in s.calls && c in Run(s, events).calls && Run(s, events).calls[c].Answered?
    requires d !in s.calls && d in Run(s, events).calls && Run(s, events).calls[d].Answered?
    requires Run(s, events).calls[c].key == Run(s, events).calls[d].key
    ensures var s' := Run(s, events);
            && s'.calls[c].row == s'.calls[d].row
            && s'.calls[c].key in s'.rows && s'.calls[c].row == s'.rows[s'.calls[c].key]
            && FirstRow(s, events, s'.calls[c].key) == Some(s'.calls[c].row)
  {
    RunKeepsTruth(s, events, s.calls.Keys, Run(s, events).calls[c].key);
  }

  /** Rows, and the drafts and answers of calls, are of the keys they go by. */
  ghost predicate Fits<K(!new), V>(s: Sys<K, V>, fits: (K, V) -> bool)
  {
    && (forall k :: k in s.rows ==> fits(k, s.rows[k]))
    && (forall c :: c in s.calls ==>
          match s.calls[c]
          case Resolving(key, draft) => fits(key, draft)
          case Inserting(key, draft) => fits(key, draft)
          case Answered(key, row) => fits(key, row)
          case _ => true)
  }

  lemma StepKeepsFit<K(!new), V>(s: Sys<K, V>, e: Event<K, V>, fits: (K, V) -> bool)
    requires Fits(s, fits) && (e.Begin? ==> fits(e.key, e.draft))
    ensures Fits(Apply(s, e), fits)
  {}

  /** If every draft is of its key, so is every row and every answer. */
  lemma {:induction false} RunKeepsFit<K(!new), V>(s: Sys<K, V>, events: seq<Event<K, V>>, fits: (K, V) -> bool)
    requires Fits(s, fits) && forall e :: e in events && e.Begin? ==> fits(e.key, e.draft)
    ensures Fits(Run(s, events), fits)
    decreases |events|
  {
    if events != [] {
      assert events[0] in events;
      StepKeepsFit(s, events[0], fits);
      RunKeepsFit(Apply(s, events[0]), events[1..], fits);
    }
  }
}
