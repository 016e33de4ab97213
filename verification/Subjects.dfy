/** Threads about a subject: one group thread, and one private thread an owner. */
module Subjects {
  import opened Common
  import opened GetOrCreate

  datatype Audience = Private | Group

  datatype Place = Place(kind: string, id: string, audience: Audience, owner: string)

  datatype SubjectThread = SubjectThread(id: string, place: Place, createdAt: Instant)

  type Threads = map<Place, SubjectThread>

  class SubjectStore {
    var threads: Threads

    ghost predicate Valid()
      reads this
    {
      forall p :: p in threads ==> threads[p].place == p
    }

    constructor ()
      ensures Valid() && threads == map[]
    {
      threads := map[];
    }

    /**
     * Opens the thread at `p`. `others` is what every other caller has done by each of this call's statements:
     * anything but changing or removing a row. `declared` is the spec's check of the row.
     */
    method Open(p: Place, id: string, now: Instant, declared: bool, read: Luck, insert: Luck, reread: Luck,
                others: (nat, Threads) -> Threads)
      returns (answer: Option<SubjectThread>)
      requires Valid() && !insert.GivesUp?
      requires forall k, t {:trigger others(k, t)} ::
                 Extends(t, others(k, t)) && forall q :: q in others(k, t) && q !in t ==> others(k, t)[q].place == q
      modifies this
      ensures Valid() && Extends(old(threads), threads)
      ensures answer.Some? ==> p in threads && answer.value == threads[p]
      ensures p in old(threads) && read.Works? ==> answer == Some(old(threads)[p])
      ensures declared ==>
                var (rows, c) := Carry(old(threads), p, SubjectThread(id, p, now), read, insert, reread, others);
                threads == rows && (c.Answered? || c.Failed?) && answer == if c.Answered? then Some(c.row) else None
    {
      CarryByStatements(threads, p, SubjectThread(id, p, now), read, insert, reread, others);
      threads := others(1, threads);
      if !read.Works? { return None; }
      if p in threads { return Some(threads[p]); }
      if !declared { return None; }
      threads := others(2, threads);
      if insert.Works? && p !in threads {
        threads := threads[p := SubjectThread(id, p, now)];
        return Some(threads[p]);
      }
      threads := others(3, threads);
      if reread.Works? && p in threads { return Some(threads[p]); }
      answer := None;
    }
  }

  function AtItsPlace(): (Place, SubjectThread) -> bool
  {
    (p: Place, t: SubjectThread) => t.place == p
  }

  /**
   * Opening one subject's thread any number of times at once answers one thread, that subject's, the first one
   * inserted.
   */
  lemma OpensConverge(s: Sys<Place, SubjectThread>, events: seq<Event<Place, SubjectThread>>, c: nat, d: nat)
    requires Fits(s, AtItsPlace()) && forall e :: e in events && e.Begin? ==> e.draft.place == e.key
    requires c !in s.calls && c in Run(s, events).calls && Run(s, events).calls[c].Answered?
    requires d !in s.calls && d in Run(s, events).calls && Run(s, events).calls[d].Answered?
    requires Run(s, events).calls[c].key == Run(s, events).calls[d].key
    ensures var s' := Run(s, events);
            var t := s'.calls[c].row;
            t == s'.calls[d].row && t.place == s'.calls[c].key && FirstRow(s, events, t.place) == Some(t)
  {
    CallsConverge(s, events, c, d);
    RunKeepsFit(s, events, AtItsPlace());
  }
}
