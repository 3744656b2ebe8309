/**
 * The Complaint schema and its lifecycle. A complaint is submitted Pending;
 * a sarpanch may mark it Viewed and may reply, which makes it Replied.
 * Neither step ever moves the status back.
 */
module ComplaintModel {
  import opened Js
  import opened Http

  datatype Status = Pending | Viewed | Replied

  function StatusName(s: Status): string
  {
    match s
    case Pending => "Pending"
    case Viewed => "Viewed"
    case Replied => "Replied"
  }

  /** The query value `?status=...` names a status exactly when it is one of
      the three enum strings. */
  function StatusOf(name: string): (r: Option<Status>)
    ensures r.Some? ==> StatusName(r.value) == name
    ensures r.None? ==> forall s: Status :: StatusName(s) != name
  {
    if name == "Pending" then Some(Pending)
    else if name == "Viewed" then Some(Viewed)
    else if name == "Replied" then Some(Replied)
    else None
  }

  /** How far along the lifecycle a status is. */
  function Rank(s: Status): nat
  {
    match s
    case Pending => 0
    case Viewed => 1
    case Replied => 2
  }

  const MaxSubjectLength := 200

  datatype Complaint = Complaint(
    villageName: string,
    subject: string,
    details: string,
    status: Status,
    submittedBy: string,
    submittedAt: int,
    reply: Option<string>,
    repliedBy: Option<string>,
    repliedAt: Option<int>,
    viewedAt: Option<int>)

  /** The document `Complaint.create` builds: the trim setters applied, the
      status Pending and the reply fields at their null defaults. */
  function NewComplaint(villageName: string, subject: string, details: string,
                        submittedBy: string, now: int): (c: Complaint)
    ensures c.status == Pending && c.submittedAt == now && c.submittedBy == submittedBy
    ensures c.villageName == Trim(villageName) && c.subject == Trim(subject) && c.details == details
    ensures c.reply.None? && c.repliedBy.None? && c.repliedAt.None? && c.viewedAt.None?
  {
    Complaint(Trim(villageName), Trim(subject), details, Pending, submittedBy, now,
              None, None, None, None)
  }

  /** The rules the schema validators enforce. */
  predicate Conforms(c: Complaint)
  {
    c.villageName != "" && c.subject != "" && Length(c.subject) <= MaxSubjectLength
    && c.details != "" && c.submittedBy != ""
  }

  /** The schema validators, in path order. */
  function Violations(c: Complaint): (vs: seq<Violation>)
    ensures vs == [] <==> Conforms(c)
  {
    Check(c.villageName == "", "villageName", "Village name is required for the complaint")
    + RequiredWithMax("subject", c.subject, MaxSubjectLength, "Complaint subject is required", "Subject cannot be more than 200 characters")
    + Check(c.details == "", "details", "Complaint details are required")
    + Check(c.submittedBy == "", "submittedBy", "Path `submittedBy` is required.")
  }

  /** The fields the lifecycle sets agree with the status. */
  predicate Consistent(c: Complaint)
  {
    match c.status
    case Pending => c.viewedAt.None? && c.reply.None? && c.repliedBy.None? && c.repliedAt.None?
    case Viewed => c.viewedAt.Some? && c.reply.None? && c.repliedBy.None? && c.repliedAt.None?
    case Replied => c.viewedAt.Some? && c.reply.Some? && c.repliedBy.Some? && c.repliedAt.Some?
  }

  /** A stored complaint passes its validators, is in setter normal form and
      is consistent with its status. */
  predicate Stored(c: Complaint)
  {
    Conforms(c) && IsTrimmed(c.villageName) && IsTrimmed(c.subject)
    && (c.reply.Some? ==> IsTrimmed(c.reply.value)) && Consistent(c)
  }

  /** A new complaint that passes its validators is stored as submitted. */
  lemma NewComplaintStored(villageName: string, subject: string, details: string, submittedBy: string, now: int)
    requires Violations(NewComplaint(villageName, subject, details, submittedBy, now)) == []
    ensures Stored(NewComplaint(villageName, subject, details, submittedBy, now))
  {
  }

  /** The assignments of replyToComplaint: reply text (trimmed by the
      setter), status Replied, who replied and when; viewedAt keeps an
      earlier value and is set only when it was null. */
  function ReplyTo(c: Complaint, text: string, sarpanch: string, now: int): (r: Complaint)
    ensures r.status == Replied && r.reply == Some(Trim(text))
    ensures r.repliedBy == Some(sarpanch) && r.repliedAt == Some(now)
    ensures r.viewedAt == (if c.viewedAt.Some? then c.viewedAt else Some(now))
    ensures r.villageName == c.villageName && r.subject == c.subject && r.details == c.details
    ensures r.submittedBy == c.submittedBy && r.submittedAt == c.submittedAt
    ensures Rank(r.status) >= Rank(c.status)
    ensures Consistent(r)
  {
    c.(reply := Some(Trim(text)), status := Replied, repliedBy := Some(sarpanch),
       repliedAt := Some(now), viewedAt := if c.viewedAt.Some? then c.viewedAt else Some(now))
  }

  /** markComplaintAsViewed: only a Pending complaint changes. */
  function MarkViewed(c: Complaint, now: int): (r: Complaint)
    ensures c.status == Pending ==> r == c.(status := Viewed, viewedAt := Some(now))
    ensures c.status != Pending ==> r == c
    ensures Rank(r.status) >= Rank(c.status)
    ensures Consistent(c) ==> Consistent(r)
  {
    if c.status == Pending then c.(status := Viewed, viewedAt := Some(now)) else c
  }

  /** A sarpanch action on one complaint. */
  datatype Action = ReplyAction(text: string, sarpanch: string, at: int) | ViewAction(at: int)

  function Apply(c: Complaint, a: Action): Complaint
  {
    match a
    case ReplyAction(text, sarpanch, at) => ReplyTo(c, text, sarpanch, at)
    case ViewAction(at) => MarkViewed(c, at)
  }

  function Run(c: Complaint, actions: seq<Action>): Complaint
    decreases |actions|
  {
    if actions == [] then c else Run(Apply(c, actions[0]), actions[1..])
  }

  /** Whatever the sarpanch does to a stored complaint, the status never
      moves back, a Replied complaint stays Replied, and once viewedAt is set
      it keeps its value. */
  lemma {:induction false} LifecycleNeverRegresses(c: Complaint, actions: seq<Action>)
    requires Consistent(c)
    ensures Rank(Run(c, actions).status) >= Rank(c.status)
    ensures c.status == Replied ==> Run(c, actions).status == Replied
    ensures c.viewedAt.Some? ==> Run(c, actions).viewedAt == c.viewedAt
    decreases |actions|
  {
    if actions != [] {
      var next := Apply(c, actions[0]);
      StepNeverRegresses(c, actions[0]);
      LifecycleNeverRegresses(next, actions[1..]);
      assert Run(c, actions) == Run(next, actions[1..]);
    }
  }

  lemma StepNeverRegresses(c: Complaint, a: Action)
    requires Consistent(c)
    ensures Consistent(Apply(c, a))
    ensures Rank(Apply(c, a).status) >= Rank(c.status)
    ensures c.status == Replied ==> Apply(c, a).status == Replied
    ensures c.viewedAt.Some? ==> Apply(c, a).viewedAt == c.viewedAt
  {
    match a
    case ReplyAction(text, sarpanch, at) =>
    case ViewAction(at) =>
  }

  /** Every reachable complaint stays consistent with its status. */
  lemma {:induction false} LifecycleKeepsConsistent(c: Complaint, actions: seq<Action>)
    requires Consistent(c)
    ensures Consistent(Run(c, actions))
    decreases |actions|
  {
    if actions != [] {
      var next := Apply(c, actions[0]);
      assert Consistent(next);
      LifecycleKeepsConsistent(next, actions[1..]);
      assert Run(c, actions) == Run(next, actions[1..]);
    }
  }

  /** A replied or viewed complaint is left exactly as it was by a view. */
  lemma ViewIsIdempotent(c: Complaint, t1: int, t2: int)
    ensures MarkViewed(MarkViewed(c, t1), t2) == MarkViewed(c, t1)
  {
  }
}
