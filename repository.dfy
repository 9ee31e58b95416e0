/**
 * The grievance list as user.js and report.js read and rewrite it: lookup of
 * the first record with an id, upvoting, merging an update, submission and
 * the public listing's status/department filter.
 */
module Repository {
  import opened Options
  import opened Seqs
  import opened Records

  /** The filter value that puts no constraint on its field. */
  const ALL := "all"

  /** `problems.findIndex(p => p.id === id)`, with -1 as `None`. */
  function FindIndex(ps: seq<Grievance>, id: int): (r: Option<nat>)
    ensures r.Some? ==> r.value < |ps| && ps[r.value].id == id
    ensures r.Some? ==> forall j :: 0 <= j < r.value ==> ps[j].id != id
    ensures r.None? <==> forall j :: 0 <= j < |ps| ==> ps[j].id != id
  {
    if ps == [] then None
    else if ps[0].id == id then Some(0)
    else match FindIndex(ps[1..], id)
      case None => None
      case Some(k) => Some(k + 1)
  }

  /** The scan `find` and `findIndex` perform over the stored list. */
  method IndexOfId(ps: seq<Grievance>, id: int) returns (r: Option<nat>)
    ensures r == FindIndex(ps, id)
  {
    var i := 0;
    while i < |ps| && ps[i].id != id
      invariant 0 <= i <= |ps|
      invariant forall j :: 0 <= j < i ==> ps[j].id != id
    {
      i := i + 1;
    }
    r := if i < |ps| then Some(i) else None;
  }

  /** The list after `problem.votes++` on the first record with `id`. */
  function Upvoted(ps: seq<Grievance>, id: int): (r: seq<Grievance>)
    ensures |r| == |ps|
    ensures FindIndex(ps, id).None? ==> r == ps
    ensures FindIndex(ps, id).Some? ==>
      var k := FindIndex(ps, id).value;
      && r[k].votes == ps[k].votes + 1
      && r[k].(votes := ps[k].votes) == ps[k]
      && forall j :: 0 <= j < |ps| && j != k ==> r[j] == ps[j]
  {
    match FindIndex(ps, id)
    case None => ps
    case Some(k) => ps[k := ps[k].(votes := ps[k].votes + 1)]
  }

  /** The list after `problems[index] = { ...problems[index], ...updates }` for the first record with `id`. */
  function Updated(ps: seq<Grievance>, id: int, u: Patch): (r: seq<Grievance>)
    ensures |r| == |ps|
    ensures FindIndex(ps, id).None? ==> r == ps
    ensures FindIndex(ps, id).Some? ==>
      var k := FindIndex(ps, id).value;
      && r[k] == Merge(ps[k], u)
      && forall j :: 0 <= j < |ps| && j != k ==> r[j] == ps[j]
  {
    match FindIndex(ps, id)
    case None => ps
    case Some(k) => ps[k := Merge(ps[k], u)]
  }

  /** The sequence of ids, which is all that `FindIndex` looks at. */
  function Ids(ps: seq<Grievance>): (r: seq<int>)
    ensures |r| == |ps| && forall i :: 0 <= i < |ps| ==> r[i] == ps[i].id
  {
    seq(|ps|, i requires 0 <= i < |ps| => ps[i].id)
  }

  /** Lists with the same ids answer every id lookup alike. */
  lemma FindIndexByIds(ps: seq<Grievance>, qs: seq<Grievance>, id: int)
    requires Ids(ps) == Ids(qs)
    ensures FindIndex(ps, id) == FindIndex(qs, id)
  {
    assert |ps| == |Ids(ps)| == |qs|;
    forall j | 0 <= j < |ps| ensures ps[j].id == qs[j].id {
      assert Ids(ps)[j] == Ids(qs)[j];
    }
  }

  /** Upvoting changes no id, so a later upvote of the same id finds the same record. */
  lemma UpvoteKeepsIds(ps: seq<Grievance>, id: int, other: int)
    ensures Ids(Upvoted(ps, id)) == Ids(ps)
    ensures FindIndex(Upvoted(ps, id), other) == FindIndex(ps, other)
  {
    var r := Upvoted(ps, id);
    assert Ids(r) == Ids(ps) by {
      forall i | 0 <= i < |ps| ensures Ids(r)[i] == Ids(ps)[i] {
      }
    }
    FindIndexByIds(r, ps, other);
  }

  /** The sum of all votes. */
  function TotalVotes(ps: seq<Grievance>): int {
    if ps == [] then 0 else ps[0].votes + TotalVotes(ps[1..])
  }

  lemma {:induction false} TotalVotesBump(ps: seq<Grievance>, k: nat)
    requires k < |ps|
    ensures TotalVotes(ps[k := ps[k].(votes := ps[k].votes + 1)]) == TotalVotes(ps) + 1
  {
    var r := ps[k := ps[k].(votes := ps[k].votes + 1)];
    if k > 0 {
      assert r[1..] == ps[1..][k - 1 := ps[k].(votes := ps[k].votes + 1)];
      TotalVotesBump(ps[1..], k - 1);
    } else {
      assert r[1..] == ps[1..];
    }
  }

  /** One upvote adds exactly one vote to the list, or none when the id is absent. */
  lemma UpvoteAddsOneVote(ps: seq<Grievance>, id: int)
    ensures TotalVotes(Upvoted(ps, id)) == TotalVotes(ps) + (if FindIndex(ps, id).Some? then 1 else 0)
  {
    if FindIndex(ps, id).Some? {
      TotalVotesBump(ps, FindIndex(ps, id).value);
    }
  }

  /** Two updates of the same record are one update by the combined patch, when the first keeps the id. */
  lemma UpdateThenUpdate(ps: seq<Grievance>, id: int, first: Patch, second: Patch)
    requires first.id.None?
    ensures Updated(Updated(ps, id, first), id, second) == Updated(ps, id, Then(first, second))
  {
    var once := Updated(ps, id, first);
    assert Ids(once) == Ids(ps) by {
      forall i | 0 <= i < |ps| ensures Ids(once)[i] == Ids(ps)[i] {
      }
    }
    FindIndexByIds(once, ps, id);
    if FindIndex(ps, id).Some? {
      MergeThen(ps[FindIndex(ps, id).value], first, second);
    }
  }

  /** The record `submitGrievance` builds from the form, the clock and the date string. */
  function NewGrievance(now: int, form: GrievanceForm, date: string): (g: Grievance)
    ensures g.status == PENDING && g.votes == 0 && g.notes == []
    ensures g.id == now && g.dateReported == date
    ensures FormOf(g) == form
  {
    Grievance(now, form.title, form.description, form.location, form.authority,
              form.reporterName, form.reporterContact, form.photo, PENDING, date, 0, [])
  }

  /** `p => p.status === status` */
  function WithStatus(status: string): Grievance -> bool {
    (p: Grievance) => p.status == status
  }

  /** `p => p.authority === authority` */
  function WithAuthority(authority: string): Grievance -> bool {
    (p: Grievance) => p.authority == authority
  }

  /** Whether a record passes the listing's two drop-downs. */
  predicate Shown(p: Grievance, statusValue: string, authorityValue: string) {
    && (statusValue == ALL || p.status == statusValue)
    && (authorityValue == ALL || p.authority == authorityValue)
  }

  /** `Shown` as the predicate handed to a filter. */
  function ShownBy(statusValue: string, authorityValue: string): Grievance -> bool {
    (p: Grievance) => Shown(p, statusValue, authorityValue)
  }

  /** The list `renderProblems` displays: a status filter, then an authority filter, each skipped on "all". */
  function Visible(ps: seq<Grievance>, statusValue: string, authorityValue: string): seq<Grievance> {
    var byStatus := if statusValue != ALL then Filter(ps, WithStatus(statusValue)) else ps;
    if authorityValue != ALL then Filter(byStatus, WithAuthority(authorityValue)) else byStatus
  }

  /** The two filters in a row select, in store order, exactly the records `Shown` accepts. */
  lemma VisibleSelectsShown(ps: seq<Grievance>, statusValue: string, authorityValue: string)
    ensures Visible(ps, statusValue, authorityValue) == Filter(ps, ShownBy(statusValue, authorityValue))
  {
    var shown := ShownBy(statusValue, authorityValue);
    var byStatus := WithStatus(statusValue);
    var byAuthority := WithAuthority(authorityValue);
    if statusValue != ALL && authorityValue != ALL {
      FilterFilter(ps, byStatus, byAuthority, shown);
    } else if statusValue != ALL {
      FilterAgree(ps, byStatus, shown);
    } else if authorityValue != ALL {
      FilterAgree(ps, byAuthority, shown);
    } else {
      FilterKeepsAll(ps, shown);
    }
  }

  /** With both drop-downs on "all" the whole list is shown. */
  lemma VisibleAllIsEverything(ps: seq<Grievance>)
    ensures Visible(ps, ALL, ALL) == ps
  {
  }

  /** A record is listed iff it is stored and passes both drop-downs; appending keeps the earlier listing as a prefix. */
  lemma VisibleMembership(ps: seq<Grievance>, g: Grievance, statusValue: string, authorityValue: string)
    ensures g in Visible(ps, statusValue, authorityValue) <==> g in ps && Shown(g, statusValue, authorityValue)
    ensures Visible(ps + [g], statusValue, authorityValue)
         == Visible(ps, statusValue, authorityValue) + (if Shown(g, statusValue, authorityValue) then [g] else [])
  {
    var shown := ShownBy(statusValue, authorityValue);
    VisibleSelectsShown(ps, statusValue, authorityValue);
    VisibleSelectsShown(ps + [g], statusValue, authorityValue);
    FilterAppend(ps, [g], shown);
  }

  /** A record found at `k` is found there again after it is upvoted, with one more vote. */
  lemma UpvoteFoundAgain(ps: seq<Grievance>, id: int, k: nat)
    requires FindIndex(ps, id) == Some(k)
    ensures FindIndex(Upvoted(ps, id), id) == Some(k)
    ensures Upvoted(ps, id)[k].votes == ps[k].votes + 1
  {
    UpvoteKeepsIds(ps, id, id);
  }

  /** A fresh id appended at the end is found at the end. */
  lemma FindAppended(ps: seq<Grievance>, g: Grievance)
    requires FindIndex(ps, g.id).None?
    ensures FindIndex(ps + [g], g.id) == Some(|ps|)
  {
    var qs := ps + [g];
    assert qs[|ps|].id == g.id;
    assert forall j :: 0 <= j < |ps| ==> qs[j].id == ps[j].id;
  }

  /**
   * Submit a grievance, upvote it twice and resolve it: it is listed as
   * pending with no votes, then has two votes, then shows under "Resolved".
   */
  lemma SubmitUpvoteResolve(ps: seq<Grievance>, now: int, form: GrievanceForm, date: string)
    requires FindIndex(ps, now).None?
    ensures var g := NewGrievance(now, form, date);
            var submitted := ps + [g];
            var upvoted := Upvoted(Upvoted(submitted, now), now);
            var resolved := Updated(upvoted, now, StatusPatch(RESOLVED));
            && g in Visible(submitted, ALL, ALL)
            && g.status == PENDING && g.votes == 0
            && upvoted[|ps|].votes == 2
            && resolved[|ps|] in Visible(resolved, RESOLVED, ALL)
  {
    var g := NewGrievance(now, form, date);
    var k := |ps|;
    var submitted := ps + [g];
    VisibleAllIsEverything(submitted);
    FindAppended(ps, g);
    var once := Upvoted(submitted, now);
    UpvoteFoundAgain(submitted, now, k);
    var upvoted := Upvoted(once, now);
    UpvoteFoundAgain(once, now, k);
    var resolved := Updated(upvoted, now, StatusPatch(RESOLVED));
    assert resolved[k].status == RESOLVED;
    VisibleMembership(resolved, resolved[k], RESOLVED, ALL);
  }
}
