/**
 * The browser storage the portal reads and rewrites: `problems` and
 * `admins` in local storage, `currentAdmin` in session storage. Every
 * operation reads the stored value, changes its own copy and writes the
 * whole value back, as report.js, user.js and login.js do.
 */
module Portal {
  import opened Options
  import opened Seqs
  import opened Records
  import opened Repository
  import opened Auth
  import opened Reporting
  import opened Csv

  class Store {
    /** `localStorage['problems']`, `None` while the key is absent. */
    var problems: Option<seq<Grievance>>
    /** `localStorage['admins']`, `None` while the key is absent. */
    var admins: Option<seq<Admin>>
    /** `sessionStorage['currentAdmin']`, `None` while nobody is logged in. */
    var currentAdmin: Option<SessionAdmin>

    /** A store holding whatever the browser already kept under the three keys. */
    constructor (problems: Option<seq<Grievance>>, admins: Option<seq<Admin>>, currentAdmin: Option<SessionAdmin>)
      ensures this.problems == problems && this.admins == admins && this.currentAdmin == currentAdmin
    {
      this.problems := problems;
      this.admins := admins;
      this.currentAdmin := currentAdmin;
    }

    /** `getProblems`: an absent key reads as the empty list. */
    function GetProblems(): (ps: seq<Grievance>)
      reads this
      ensures problems.None? ==> ps == []
      ensures problems.Some? ==> ps == problems.value
    {
      match problems
      case None => []
      case Some(ps) => ps
    }

    /** `saveProblems` */
    method SaveProblems(ps: seq<Grievance>)
      modifies this`problems
      ensures problems == Some(ps) && GetProblems() == ps
    {
      problems := Some(ps);
    }

    /** `addProblem`: one more record at the end, the earlier ones untouched. */
    method AddProblem(problem: Grievance)
      modifies this`problems
      ensures problems.Some?
      ensures GetProblems() == old(GetProblems()) + [problem]
    {
      var ps := GetProblems();
      ps := ps + [problem];
      SaveProblems(ps);
    }

    /** `updateProblem`: merge `updates` into the first record with `id`; nothing is written when there is none. */
    method UpdateProblem(id: int, updates: Patch)
      modifies this`problems
      ensures FindIndex(old(GetProblems()), id).None? ==> problems == old(problems)
      ensures FindIndex(old(GetProblems()), id).Some? ==> problems == Some(Updated(old(GetProblems()), id, updates))
    {
      var ps := GetProblems();
      var index := IndexOfId(ps, id);
      if index.Some? {
        var k := index.value;
        ps := ps[k := Merge(ps[k], updates)];
        SaveProblems(ps);
      }
    }

    /** `upvoteProblem`: one more vote on the first record with `id`; nothing is written when there is none. */
    method UpvoteProblem(id: int)
      modifies this`problems
      ensures FindIndex(old(GetProblems()), id).None? ==> problems == old(problems)
      ensures FindIndex(old(GetProblems()), id).Some? ==> problems == Some(Upvoted(old(GetProblems()), id))
    {
      var ps := GetProblems();
      var found := IndexOfId(ps, id);
      if found.Some? {
        var k := found.value;
        ps := ps[k := ps[k].(votes := ps[k].votes + 1)];
        problems := Some(ps);
      }
    }

    /**
     * `submitGrievance`: the form's record, stamped with the clock reading
     * `now` and the date string `date`, appended to the stored list.
     */
    method SubmitGrievance(now: int, form: GrievanceForm, date: string)
      modifies this`problems
      ensures GetProblems() == old(GetProblems()) + [NewGrievance(now, form, date)]
    {
      var problem := NewGrievance(now, form, date);
      var ps := GetProblems();
      ps := ps + [problem];
      problems := Some(ps);
    }

    /** `clearAllData`: the key is removed only when both confirmation dialogs were accepted. */
    method ClearAllData(confirmed: bool, confirmedAgain: bool)
      modifies this`problems
      ensures problems == if confirmed && confirmedAgain then None else old(problems)
      ensures confirmed && confirmedAgain ==> GetProblems() == []
    {
      if confirmed {
        if confirmedAgain {
          problems := None;
        }
      }
    }

    /** `getAdmins`: the stored list, or the default admin alone while nothing is stored. */
    function GetAdmins(): (r: seq<Admin>)
      reads this
      ensures admins.None? ==> r == [DEFAULT_ADMIN]
      ensures admins.Some? ==> r == admins.value
    {
      match admins
      case None => [DEFAULT_ADMIN]
      case Some(list) => list
    }

    /** `addAdmin`: the list `getAdmins` returned, default admin included, plus `admin`, is written back. */
    method AddAdmin(admin: Admin)
      modifies this`admins
      ensures admins == Some(old(GetAdmins()) + [admin])
    {
      var list := GetAdmins();
      list := list + [admin];
      admins := Some(list);
    }

    /** `getCurrentAdmin` */
    function GetCurrentAdmin(): Option<SessionAdmin>
      reads this
    {
      currentAdmin
    }

    /** `handleLogin`: on success the session is written; on any rejection it is left as it was. */
    method Login(rawUsername: string, rawPassword: string, department: string) returns (result: LoginResult)
      modifies this`currentAdmin
      ensures result == Authenticate(GetAdmins(), rawUsername, rawPassword, department)
      ensures currentAdmin == if result.LoggedIn? then Some(result.session) else old(currentAdmin)
    {
      result := Authenticate(GetAdmins(), rawUsername, rawPassword, department);
      match result
      case LoggedIn(session) =>
        currentAdmin := Some(session);
      case LoginRejected(_) =>
    }

    /** `handleRegister`: on success exactly one admin is appended; on any rejection nothing is written. */
    method Register(rawUsername: string, rawPassword: string, rawConfirm: string, rawEmail: string, department: string)
      returns (result: RegisterResult)
      modifies this`admins
      ensures result == Registration(old(GetAdmins()), rawUsername, rawPassword, rawConfirm, rawEmail, department)
      ensures result.Registered? ==> admins == Some(old(GetAdmins()) + [result.admin])
      ensures result.RegisterRejected? ==> admins == old(admins)
    {
      result := Registration(GetAdmins(), rawUsername, rawPassword, rawConfirm, rawEmail, department);
      if result.Registered? {
        AddAdmin(result.admin);
      }
    }

    /** `logout`: the session is removed once the dialog is confirmed. */
    method Logout(confirmed: bool)
      modifies this`currentAdmin
      ensures currentAdmin == if confirmed then None else old(currentAdmin)
    {
      if confirmed {
        currentAdmin := None;
      }
    }

    /** `updateStats`: the four figures on the public page. */
    function Stats(): (c: Counts)
      reads this
      ensures c == Tally(GetProblems())
      ensures c.total == |GetProblems()|
      ensures c.pending + c.inProgress + c.resolved <= c.total
    {
      StatusCountsBound(GetProblems());
      Tally(GetProblems())
    }

    /**
     * `generateReport`: the status counts, and the per-department counters
     * built by one pass over the stored list. `generatedOn` is the clock's
     * rendering of the current time.
     */
    method GenerateReport(generatedOn: string) returns (report: Report)
      ensures report.generatedOn == generatedOn
      ensures report.totals == Tally(GetProblems())
      ensures report.byDepartment == ByDepartment(GetProblems())
    {
      var ps := GetProblems();
      var byDepartment: map<string, Counts> := map[];
      var i := 0;
      while i < |ps|
        invariant 0 <= i <= |ps|
        invariant byDepartment == ByDepartment(ps[..i])
      {
        var p := ps[i];
        ghost var before := byDepartment;
        if p.authority !in byDepartment {
          byDepartment := byDepartment[p.authority := ZERO];
        }
        var c := byDepartment[p.authority];
        c := c.(total := c.total + 1);
        if p.status == PENDING {
          c := c.(pending := c.pending + 1);
        }
        if p.status == IN_PROGRESS {
          c := c.(inProgress := c.inProgress + 1);
        }
        if p.status == RESOLVED {
          c := c.(resolved := c.resolved + 1);
        }
        byDepartment := byDepartment[p.authority := c];
        assert byDepartment == BumpDepartment(before, p);
        assert ps[..i + 1][..i] == ps[..i] && ps[..i + 1][i] == p;
        i := i + 1;
      }
      assert ps[..|ps|] == ps;
      report := Report(generatedOn, Tally(ps), byDepartment);
    }

    /** The text `exportToCSV` puts in the downloaded file. */
    function CsvExport(): (text: string)
      reads this
      ensures text == Content(GetProblems())
      ensures var ps := GetProblems();
        (forall i :: 0 <= i < |ps| ==> Exportable(ps[i])) ==>
          var table := ParseTable(text);
          && |table| == |ps| + 1
          && table[0] == Some(HEADERS)
          && forall i :: 0 <= i < |ps| ==> table[i + 1] == Some(ExportedFields(ps[i]))
    {
      var ps := GetProblems();
      if forall i :: 0 <= i < |ps| ==> Exportable(ps[i]) then
        ExportReadsBack(ps);
        Content(ps)
      else
        Content(ps)
    }

    /** The records `renderProblems` lists for the two drop-down values. */
    function Listing(statusValue: string, authorityValue: string): (r: seq<Grievance>)
      reads this
      ensures r == Filter(GetProblems(), ShownBy(statusValue, authorityValue))
      ensures forall g :: g in r <==> g in GetProblems() && Shown(g, statusValue, authorityValue)
    {
      var ps := GetProblems();
      VisibleSelectsShown(ps, statusValue, authorityValue);
      Visible(ps, statusValue, authorityValue)
    }
  }

  /** A grievance submitted on a fresh browser, upvoted, then cleared on the second confirmation. */
  method GrievanceWalkthrough(now: int, form: GrievanceForm, date: string)
  {
    var store := new Store(None, None, None);
    store.SubmitGrievance(now, form, date);
    assert store.GetProblems() == [NewGrievance(now, form, date)];
    FindAppended([], NewGrievance(now, form, date));
    store.UpvoteProblem(now);
    assert store.GetProblems()[0].votes == 1;

    store.ClearAllData(true, false);
    assert |store.GetProblems()| == 1;
    store.ClearAllData(true, true);
    assert store.GetProblems() == [];
  }
}
