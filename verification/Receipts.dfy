/** Acknowledging a notification, and reading back who was sent one, read it and acknowledged it. */
module Receipts {
  import opened Common
  import opened GetOrCreate
  import opened Listings
  import N = Notifications

  type Id = string

  datatype Ack = Ack(id: Id, notification: Id, actor: string, at: Instant)

  /** The acknowledgements, which are unique on the notification. */
  type Acks = map<Id, Ack>

  // ---------------------------------------------------------------- acknowledging

  ghost predicate Sound(rows: map<Id, N.Notification>, acks: Acks)
  {
    forall n :: n in acks ==> n in rows && acks[n].notification == n && acks[n].actor == rows[n].actor
  }

  predicate Own(rows: map<Id, N.Notification>, notification: Id, actor: string)
  {
    actor != "" && notification != "" && notification in rows && rows[notification].actor == actor
  }

  class AckStore {
    var rows: map<Id, N.Notification>
    var acks: Acks

    ghost predicate Valid()
      reads this
    {
      Sound(rows, acks)
    }

    constructor (rows: map<Id, N.Notification>)
      ensures Valid() && this.rows == rows && acks == map[]
    {
      this.rows, acks := rows, map[];
    }

    /** What others' statements may do to the acknowledgements: add sound ones. */
    ghost predicate Polite(others: (nat, Acks) -> Acks)
      reads this
    {
      forall k, a {:trigger others(k, a)} :: Sound(rows, a) ==> Extends(a, others(k, a)) && Sound(rows, others(k, a))
    }

    /**
     * Acknowledges an actor's own notification. `others` is what every other caller has done by each statement.
     * An insert that meets the unique index reads what it met; one that breaks otherwise fails.
     */
    method AcknowledgeNotification(actor: string, notification: Id, id: Id, now: Instant,
                                   declared: bool, ownReads: bool,
                                   read: Luck, insert: Luck, reread: Luck, others: (nat, Acks) -> Acks)
      returns (answer: N.Result<Ack>)
      requires Valid() && !insert.Breaks? && Polite(others)
      modifies this`acks
      ensures Valid() && Extends(old(acks), acks)
      ensures answer.Ok? ==>
                && Own(rows, notification, actor) && notification in acks
                && answer.value == acks[notification] && answer.value.actor == actor
      ensures ownReads && !Own(rows, notification, actor) ==> answer == N.Refused(N.NotFound) && acks == old(acks)
      ensures ownReads && declared && Own(rows, notification, actor) ==>
                var (after, c) :=
                  Carry(old(acks), notification, Ack(id, notification, actor, now), read, insert, reread, others);
                acks == after && (c.Answered? || c.Failed?)
                  && answer == if c.Answered? then N.Ok(c.row) else N.Refused(N.Broken)
    {
      if actor == "" || notification == "" { return N.Refused(N.NotFound); }
      if !ownReads { return N.Refused(N.Broken); }
      if notification !in rows || rows[notification].actor != actor { return N.Refused(N.NotFound); }
      answer := Record(Ack(id, notification, actor, now), declared, read, insert, reread, others);
    }

    /** The statements on the acknowledgements: read, insert, read again. */
    method Record(draft: Ack, declared: bool, read: Luck, insert: Luck, reread: Luck, others: (nat, Acks) -> Acks)
      returns (answer: N.Result<Ack>)
      requires Valid() && !insert.Breaks? && Polite(others) && Own(rows, draft.notification, draft.actor)
      modifies this`acks
      ensures Valid() && Extends(old(acks), acks)
      ensures answer.Ok? ==> draft.notification in acks && answer.value == acks[draft.notification]
      ensures answer.Refused? ==> answer.why.Broken? || answer.why.Undeclared?
      ensures declared ==>
                var (after, c) := Carry(old(acks), draft.notification, draft, read, insert, reread, others);
                acks == after && (c.Answered? || c.Failed?)
                  && answer == if c.Answered? then N.Ok(c.row) else N.Refused(N.Broken)
    {
      var n := draft.notification;
      CarryByStatements(acks, n, draft, read, insert, reread, others);
      acks := others(1, acks);
      if !read.Works? { return N.Refused(N.Broken); }
      if n in acks { return N.Ok(acks[n]); }
      if !declared { return N.Refused(N.Undeclared); }
      acks := others(2, acks);
      if insert.GivesUp? { return N.Refused(N.Broken); }
      if n !in acks {
        acks := acks[n := draft];
        return N.Ok(draft);
      }
      acks := others(3, acks);
      if !reread.Works? { return N.Refused(N.Broken); }
      answer := N.Ok(acks[n]);
    }
  }

  function ByItsActor(rows: map<Id, N.Notification>): (Id, Ack) -> bool
  {
    (n: Id, a: Ack) => a.notification == n && n in rows && a.actor == rows[n].actor
  }

  /**
   * Acknowledging one notification any number of times at once answers one acknowledgement, its own actor's, the first
   * inserted.
   */
  lemma AcknowledgementsConverge(rows: map<Id, N.Notification>, s: Sys<Id, Ack>, events: seq<Event<Id, Ack>>,
                                 c: nat, d: nat)
    requires Fits(s, ByItsActor(rows)) && forall e :: e in events && e.Begin? ==> ByItsActor(rows)(e.key, e.draft)
    requires c !in s.calls && c in Run(s, events).calls && Run(s, events).calls[c].Answered?
    requires d !in s.calls && d in Run(s, events).calls && Run(s, events).calls[d].Answered?
    requires Run(s, events).calls[c].key == Run(s, events).calls[d].key
    ensures var s' := Run(s, events);
            var n, a := s'.calls[c].key, s'.calls[c].row;
            && a == s'.calls[d].row && FirstRow(s, events, n) == Some(a)
            && n in rows && a.notification == n && a.actor == rows[n].actor
  {
    CallsConverge(s, events, c, d);
    RunKeepsFit(s, events, ByItsActor(rows));
  }

  // ---------------------------------------------------------------- receipts

  const DEFAULT_PAGE := 200
  const MAX_PAGE := 1000

  datatype Receipt = Receipt(notification: Id, actor: string, event: string, createdAt: Option<Instant>,
                             readAt: Option<Instant>, acknowledgedAt: Option<Instant>)

  function PageSize(limit: int): nat
  {
    if limit <= 0 then DEFAULT_PAGE else if limit > MAX_PAGE then MAX_PAGE else limit
  }

  predicate Matches(kind: string, subject: string, event: string, n: N.Notification)
  {
    n.subjectKind == kind && n.subject == subject && (event == "" || n.event == event)
  }

  predicate Follows(less: Collation, after: string, n: N.Notification)
  {
    after == "" || less(after, n.id)
  }

  function ById(less: Collation): (N.Notification, N.Notification) -> bool
  {
    (m: N.Notification, n: N.Notification) => less(m.id, n.id)
  }

  function Found(rows: seq<N.Notification>, less: Collation, kind: string, subject: string,
                 event: string, after: string): seq<N.Notification>
  {
    Listing(rows, n => Matches(kind, subject, event, n) && Follows(less, after, n), ById(less))
  }

  /** A notification's receipt: its own columns, and when it was acknowledged if it was. */
  function ReceiptOf(n: N.Notification, acks: Acks): Receipt
  {
    Receipt(n.id, n.actor, n.event, n.createdAt, n.readAt, if n.id in acks then Some(acks[n.id].at) else None)
  }

  /** `found` lists the acknowledgements of what was sent, in some order. */
  ghost predicate Finds(found: seq<Ack>, sent: seq<N.Notification>, acks: Acks)
  {
    && (forall n :: n in acks ==> acks[n].notification == n)
    && (forall a :: a in found ==> a.notification in acks && acks[a.notification] == a)
    && (forall n :: n in sent && n.id in acks ==> acks[n.id] in found)
  }

  /** The times of the acknowledgements of what was sent. `found` is what the store answers, in whatever order. */
  method AcknowledgementTimes(sent: seq<N.Notification>, found: seq<Ack>, ghost acks: Acks)
    returns (times: map<Id, Instant>)
    requires Finds(found, sent, acks)
    ensures forall n :: n in sent ==>
            (n.id in times <==> n.id in acks) && (n.id in times ==> times[n.id] == acks[n.id].at)
  {
    times := map[];
    if |sent| == 0 { return; }
    for k := 0 to |found|
      invariant forall a :: a in found[..k] ==> a.notification in times
      invariant forall n :: n in times ==> n in acks && times[n] == acks[n].at
    {
      assert found[..k + 1] == found[..k] + [found[k]] && found[k] in found;
      times := times[found[k].notification := found[k].at];
    }
    assert found[..|found|] == found;
  }

  /** The receipts of what was sent, one each. */
  method ReceiptsOf(sent: seq<N.Notification>, found: seq<Ack>, ghost acks: Acks) returns (out: seq<Receipt>)
    requires Finds(found, sent, acks)
    ensures |out| == |sent| && forall i :: 0 <= i < |sent| ==> out[i] == ReceiptOf(sent[i], acks)
  {
    var times := AcknowledgementTimes(sent, found, acks);
    out := [];
    for i := 0 to |sent|
      invariant |out| == i && forall j :: 0 <= j < i ==> out[j] == ReceiptOf(sent[j], acks)
    {
      var n := sent[i];
      assert n in sent;
      var at := if n.id in times then Some(times[n.id]) else None;
      out := out + [Receipt(n.id, n.actor, n.event, n.createdAt, n.readAt, at)];
    }
  }

  /** One page of receipts, in id order after the given id. */
  method NotificationReceipts(rows: seq<N.Notification>, less: Collation, found: seq<Ack>, ghost acks: Acks,
                              kind: string, subject: string, event: string, after: string, limit: int)
    returns (out: N.Result<seq<Receipt>>)
    requires Finds(found, Page(Found(rows, less, kind, subject, event, after), PageSize(limit)), acks)
    ensures out.Refused? <==> Blank(kind) || Blank(subject)
    ensures out.Refused? ==> out.why == N.Invalid
    ensures out.Ok? ==>
              var sent := Page(Found(rows, less, kind, subject, event, after), PageSize(limit));
              |out.value| == |sent| && forall i :: 0 <= i < |sent| ==> out.value[i] == ReceiptOf(sent[i], acks)
  {
    if Blank(kind) || Blank(subject) { return N.Refused(N.Invalid); }
    var size := if limit <= 0 then DEFAULT_PAGE else limit;
    if size > MAX_PAGE { size := MAX_PAGE; }
    var receipts := ReceiptsOf(Page(Found(rows, less, kind, subject, event, after), size), found, acks);
    out := N.Ok(receipts);
  }

  // ---------------------------------------------------------------- paging

  ghost predicate Table(rows: seq<N.Notification>, less: Collation)
  {
    && Total(less)
    && (forall i, j :: 0 <= i < j < |rows| ==> rows[i].id != rows[j].id)
    && (forall i :: 0 <= i < |rows| ==> rows[i].id != "")
  }

  /** What a caller is answered who passes the id of the `k`th row it was sent, or none at first. */
  ghost function FoundAfter(rows: seq<N.Notification>, less: Collation, kind: string, subject: string,
                            event: string, k: nat): seq<N.Notification>
  {
    var all := Found(rows, less, kind, subject, event, "");
    if k > |all| then [] else Found(rows, less, kind, subject, event, if k == 0 then "" else all[k - 1].id)
  }

  lemma FoundAfterIsTheRest(rows: seq<N.Notification>, less: Collation, kind: string, subject: string,
                            event: string, k: nat)
    requires Table(rows, less) && k <= |Found(rows, less, kind, subject, event, "")|
    ensures FoundAfter(rows, less, kind, subject, event, k) == Found(rows, less, kind, subject, event, "")[k..]
  {
    var all := Found(rows, less, kind, subject, event, "");
    if k == 0 {
      assert all[0..] == all;
    } else {
      var p := (n: N.Notification) => Matches(kind, subject, event, n) && Follows(less, "", n);
      var cursor := all[k - 1];
      assert all == Listing(rows, p, ById(less));
      assert Orders(ById(less), rows);
      ListingIsTheOnlyOne(rows, p, ById(less), all);
      assert cursor in all;
      var i :| 0 <= i < |rows| && rows[i] == cursor;
      AfterIsTheRest(rows, p, n => Matches(kind, subject, event, n) && Follows(less, cursor.id, n), ById(less), k);
    }
  }

  /** Whatever limit is asked for, paging by the last id ends, and visits each matching notification once, in order. */
  lemma PagingVisitsEachOnce(rows: seq<N.Notification>, less: Collation, kind: string, subject: string,
                             event: string, limit: int)
    requires Table(rows, less)
    ensures var all := Found(rows, less, kind, subject, event, "");
            var after := (k: nat) => FoundAfter(rows, less, kind, subject, event, k);
            && Answers(after, |all|)
            && Flat(Walk(after, |all|, PageSize(limit), 0)) == all
            && (forall page :: page in Walk(after, |all|, PageSize(limit), 0) ==> 0 < |page| <= PageSize(limit))
            && Ascending(all, ById(less)) && forall n :: n in all <==> n in rows && Matches(kind, subject, event, n)
  {
    var all := Found(rows, less, kind, subject, event, "");
    var after := (k: nat) => FoundAfter(rows, less, kind, subject, event, k);
    forall k: nat | k <= |all| ensures after(k) == all[k..] {
      FoundAfterIsTheRest(rows, less, kind, subject, event, k);
    }
    assert Answers(after, |all|);
    WalkFrom(after, all, PageSize(limit), 0);
    WalkFits(after, |all|, PageSize(limit), 0);
    assert Orders(ById(less), rows);
    ListingIsTheOnlyOne(rows, n => Matches(kind, subject, event, n) && Follows(less, "", n), ById(less), all);
  }
}
