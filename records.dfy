/** The records the portal keeps in browser storage. */
module Records {
  import opened Options

  /** The three statuses an administrator can give a grievance. */
  const PENDING := "Pending"
  const IN_PROGRESS := "In Progress"
  const RESOLVED := "Resolved"

  /**
   * A citizen's complaint. `id` is the submission time in milliseconds;
   * `authority` names the department it is addressed to.
   */
  datatype Grievance = Grievance(
    id: int,
    title: string,
    description: string,
    location: string,
    authority: string,
    reporterName: string,
    reporterContact: string,
    photo: string,
    status: string,
    dateReported: string,
    votes: int,
    notes: seq<string>)

  /** The fields a citizen fills in on the submission form. */
  datatype GrievanceForm = GrievanceForm(
    title: string,
    description: string,
    location: string,
    authority: string,
    reporterName: string,
    reporterContact: string,
    photo: string)

  /** The seven fields a submission copies from the form, taken back out of a record. */
  function FormOf(g: Grievance): GrievanceForm {
    GrievanceForm(g.title, g.description, g.location, g.authority, g.reporterName, g.reporterContact, g.photo)
  }

  /** A partial grievance as handed to `updateProblem`: the fields it carries override. */
  datatype Patch = Patch(
    id: Option<int>,
    title: Option<string>,
    description: Option<string>,
    location: Option<string>,
    authority: Option<string>,
    reporterName: Option<string>,
    reporterContact: Option<string>,
    photo: Option<string>,
    status: Option<string>,
    dateReported: Option<string>,
    votes: Option<int>,
    notes: Option<seq<string>>)

  const EMPTY_PATCH := Patch(None, None, None, None, None, None, None, None, None, None, None, None)

  /** The patch an administrator sends to change a status. */
  function StatusPatch(status: string): Patch {
    EMPTY_PATCH.(status := Some(status))
  }

  /** The value of one field after spreading a patch over the record. */
  function Pick<T>(update: Option<T>, current: T): T {
    match update
    case Some(v) => v
    case None => current
  }

  /** `{ ...g, ...u }` */
  function Merge(g: Grievance, u: Patch): Grievance {
    Grievance(
      Pick(u.id, g.id),
      Pick(u.title, g.title),
      Pick(u.description, g.description),
      Pick(u.location, g.location),
      Pick(u.authority, g.authority),
      Pick(u.reporterName, g.reporterName),
      Pick(u.reporterContact, g.reporterContact),
      Pick(u.photo, g.photo),
      Pick(u.status, g.status),
      Pick(u.dateReported, g.dateReported),
      Pick(u.votes, g.votes),
      Pick(u.notes, g.notes))
  }

  /** `{ ...first, ...second }`: the later patch wins field by field. */
  function Then(first: Patch, second: Patch): Patch {
    Patch(
      if second.id.Some? then second.id else first.id,
      if second.title.Some? then second.title else first.title,
      if second.description.Some? then second.description else first.description,
      if second.location.Some? then second.location else first.location,
      if second.authority.Some? then second.authority else first.authority,
      if second.reporterName.Some? then second.reporterName else first.reporterName,
      if second.reporterContact.Some? then second.reporterContact else first.reporterContact,
      if second.photo.Some? then second.photo else first.photo,
      if second.status.Some? then second.status else first.status,
      if second.dateReported.Some? then second.dateReported else first.dateReported,
      if second.votes.Some? then second.votes else first.votes,
      if second.notes.Some? then second.notes else first.notes)
  }

  /** Spreading two patches one after the other is spreading their combination. */
  lemma MergeThen(g: Grievance, first: Patch, second: Patch)
    ensures Merge(Merge(g, first), second) == Merge(g, Then(first, second))
  {
  }

  /** An empty patch leaves the record as it was. */
  lemma MergeEmpty(g: Grievance)
    ensures Merge(g, EMPTY_PATCH) == g
  {
  }

  /** A status patch changes the status and no other field. */
  lemma StatusPatchChangesOnlyStatus(g: Grievance, status: string)
    ensures Merge(g, StatusPatch(status)) == g.(status := status)
  {
  }

  /** Spreading the same patch twice is spreading it once. */
  lemma MergeIdempotent(g: Grievance, u: Patch)
    ensures Merge(Merge(g, u), u) == Merge(g, u)
  {
  }

  /** A registered department account. */
  datatype Admin = Admin(username: string, password: string, department: string, email: string)

  /** What `currentAdmin` holds for the logged-in tab. */
  datatype SessionAdmin = SessionAdmin(
    username: string,
    password: string,
    department: string,
    activeDepartment: string,
    email: string)
}
