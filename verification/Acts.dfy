/** The entries moderation writes in the act log. */
module Acts {
  import opened Common

  type Id = string

  datatype Removal = Removal(id: Id, message: string, structure: string, removedBy: string, roleClass: string,
                             reason: string, removedAt: Option<Instant>)

  datatype Dismissal = Dismissal(id: Id, message: string, structure: string, dismissedBy: string, roleClass: string,
                                 reason: string, dismissedAt: Option<Instant>)

  /** What a dispute's column holds: one of the three it is declared with, or any other text it was given. */
  datatype State = Open | Reinstated | Upheld | Other(text: string)

  datatype Dispute = Dispute(id: Id, removal: Id, raisedBy: string, raisedAt: Option<Instant>, state: State,
                             decidedBy: string, decidedAt: Option<Instant>)

  datatype Actor = Actor(id: string, name: string, structure: string)

  datatype Kind = PostWithheld | PostRestored | RemovalLeftStanding | ReportLeftStanding

  datatype Key = MessageId | Reason | RoleClass | DisputeId | RemovalId | DismissalId

  datatype Entry = Entry(structure: string, kind: Kind, actor: Actor, wall: string, subject: string,
                         detail: map<Key, string>)

  function Act(kind: Kind, structure: string, message: string, wall: string, actor: Actor,
               detail: map<Key, string>): Entry
  {
    Entry(structure, kind, actor.(structure := if actor.structure == "" then structure else actor.structure),
          if wall == "" then structure else wall, message, detail[MessageId := message])
  }

  function WithheldAct(rem: Removal, wall: string, actor: Actor): Entry
  {
    Act(PostWithheld, rem.structure, rem.message, wall, actor, map[Reason := rem.reason, RoleClass := rem.roleClass])
  }

  function DisputeOutcomeAct(rem: Removal, d: Dispute, wall: string, actor: Actor): Entry
  {
    Act(KindOf(d.state), rem.structure, rem.message, wall, actor,
        map[DisputeId := d.id, RemovalId := rem.id, Reason := rem.reason])
  }

  function ReportLeftStandingAct(d: Dismissal, wall: string, actor: Actor): Entry
  {
    Act(ReportLeftStanding, d.structure, d.message, wall, actor,
        map[Reason := d.reason, RoleClass := d.roleClass, DismissalId := d.id])
  }

  /** What the log calls an outcome; anything but a reinstatement is read conservatively. */
  function KindOf(s: State): Kind
  {
    if s.Reinstated? then PostRestored else RemovalLeftStanding
  }

  // ---------------------------------------------------------------- what an entry is about

  predicate Tells(e: Entry, key: Key, value: string)
  {
    key in e.detail && e.detail[key] == value
  }

  /** The entry of this removal. */
  predicate OfRemoval(e: Entry, rem: Removal)
  {
    && e.kind.PostWithheld? && e.subject == rem.message && e.structure == rem.structure
    && Tells(e, Reason, rem.reason) && Tells(e, RoleClass, rem.roleClass)
  }

  predicate OfDismissal(e: Entry, d: Dismissal)
  {
    && e.kind.ReportLeftStanding? && e.subject == d.message && e.structure == d.structure
    && Tells(e, DismissalId, d.id) && Tells(e, Reason, d.reason) && Tells(e, RoleClass, d.roleClass)
  }

  /** An entry of an outcome of the dispute `id`, whatever it came to. */
  predicate OfDispute(e: Entry, id: Id)
  {
    (e.kind.PostRestored? || e.kind.RemovalLeftStanding?) && Tells(e, DisputeId, id)
  }

  /** The entry that names this dispute's outcome and the removal it was about. */
  predicate OfOutcome(e: Entry, rem: Removal, d: Dispute)
  {
    && OfDispute(e, d.id) && e.kind == KindOf(d.state) && e.subject == rem.message && e.structure == rem.structure
    && Tells(e, RemovalId, rem.id) && Tells(e, Reason, rem.reason)
  }

  // ---------------------------------------------------------------- what an entry says

  ghost predicate SaysWhereAndWho(e: Entry, structure: string, message: string, wall: string, actor: Actor)
  {
    && e.structure == structure && e.subject == message && Tells(e, MessageId, message)
    && e.actor.id == actor.id && e.actor.name == actor.name
    && (structure != "" ==> e.wall != "" && e.actor.structure != "")
    && (wall != "" ==> e.wall == wall) && (actor.structure != "" ==> e.actor == actor)
  }

  /** Whoever acted is named, on a wall and from a structure; who removed a post or dismissed its reports never is. */
  lemma EntriesNameTheActorAlone(rem: Removal, dis: Dismissal, d: Dispute, wall: string, actor: Actor, somebody: string)
    ensures SaysWhereAndWho(WithheldAct(rem, wall, actor), rem.structure, rem.message, wall, actor)
    ensures SaysWhereAndWho(DisputeOutcomeAct(rem, d, wall, actor), rem.structure, rem.message, wall, actor)
    ensures SaysWhereAndWho(ReportLeftStandingAct(dis, wall, actor), dis.structure, dis.message, wall, actor)
    ensures WithheldAct(rem.(removedBy := somebody), wall, actor) == WithheldAct(rem, wall, actor)
    ensures DisputeOutcomeAct(rem.(removedBy := somebody), d.(decidedBy := somebody, raisedBy := somebody), wall, actor)
            == DisputeOutcomeAct(rem, d, wall, actor)
    ensures ReportLeftStandingAct(dis.(dismissedBy := somebody), wall, actor) == ReportLeftStandingAct(dis, wall, actor)
    ensures OfRemoval(WithheldAct(rem, wall, actor), rem) && OfDismissal(ReportLeftStandingAct(dis, wall, actor), dis)
    ensures OfOutcome(DisputeOutcomeAct(rem, d, wall, actor), rem, d)
  {}
}
