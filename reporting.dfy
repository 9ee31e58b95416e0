/**
 * The statistics of report.js: the number of grievances in each status
 * (`updateStats`, `generateReport`) and the per-department counters that
 * `generateReport` builds record by record.
 */
module Reporting {
  import opened Seqs
  import opened Records
  import opened Repository

  /** One row of counters: everything, then each of the three statuses. */
  datatype Counts = Counts(total: nat, pending: nat, inProgress: nat, resolved: nat)

  const ZERO := Counts(0, 0, 0, 0)

  /** What `generateReport` returns; `totals` holds totalGrievances, pending, inProgress and resolved. */
  datatype Report = Report(generatedOn: string, totals: Counts, byDepartment: map<string, Counts>)

  /** `problems.filter(p => p.status === status).length` */
  function CountStatus(ps: seq<Grievance>, status: string): (n: nat)
    ensures n <= |ps|
    ensures n == 0 <==> forall i :: 0 <= i < |ps| ==> ps[i].status != status
  {
    var keep := WithStatus(status);
    var r := Filter(ps, keep);
    assert forall g :: keep(g) <==> g.status == status;
    assert r != [] ==> r[0] in ps && r[0].status == status;
    assert forall i :: 0 <= i < |ps| && ps[i].status == status ==> ps[i] in r;
    |r|
  }

  /** The four figures for a list of grievances. */
  function Tally(ps: seq<Grievance>): Counts {
    Counts(|ps|, CountStatus(ps, PENDING), CountStatus(ps, IN_PROGRESS), CountStatus(ps, RESOLVED))
  }

  /** The counters a report shows, as one type. */
  datatype Column = Total | Pending | InProgress | Resolved

  function Get(c: Counts, col: Column): nat {
    match col
    case Total => c.total
    case Pending => c.pending
    case InProgress => c.inProgress
    case Resolved => c.resolved
  }

  /** How much one record with `status` adds to a column. */
  function Delta(col: Column, status: string): nat {
    match col
    case Total => 1
    case Pending => if status == PENDING then 1 else 0
    case InProgress => if status == IN_PROGRESS then 1 else 0
    case Resolved => if status == RESOLVED then 1 else 0
  }

  /** The increments `generateReport` applies to a department's counters for one record. */
  function Bump(c: Counts, status: string): (r: Counts)
    ensures forall col :: Get(r, col) == Get(c, col) + Delta(col, status)
  {
    var c := c.(total := c.total + 1);
    var c := if status == PENDING then c.(pending := c.pending + 1) else c;
    var c := if status == IN_PROGRESS then c.(inProgress := c.inProgress + 1) else c;
    if status == RESOLVED then c.(resolved := c.resolved + 1) else c
  }

  /** Counting a list with one more record is counting the list and bumping by that record. */
  lemma TallySnoc(ps: seq<Grievance>, p: Grievance)
    ensures Tally(ps + [p]) == Bump(Tally(ps), p.status)
  {
    FilterAppend(ps, [p], WithStatus(PENDING));
    FilterAppend(ps, [p], WithStatus(IN_PROGRESS));
    FilterAppend(ps, [p], WithStatus(RESOLVED));
  }

  predicate KnownStatus(status: string) {
    status == PENDING || status == IN_PROGRESS || status == RESOLVED
  }

  /**
   * The three status counts never exceed the total, and they add up to it
   * exactly when every record has one of the three statuses.
   */
  lemma {:induction false} StatusCountsBound(ps: seq<Grievance>)
    ensures Tally(ps).pending + Tally(ps).inProgress + Tally(ps).resolved <= Tally(ps).total
    ensures Tally(ps).pending + Tally(ps).inProgress + Tally(ps).resolved == Tally(ps).total
            <==> forall i :: 0 <= i < |ps| ==> KnownStatus(ps[i].status)
  {
    if ps != [] {
      var prefix, p := ps[..|ps| - 1], ps[|ps| - 1];
      assert ps == prefix + [p];
      StatusCountsBound(prefix);
      TallySnoc(prefix, p);
      var c := Tally(prefix);
      assert Get(Tally(ps), Total) == c.total + 1;
      assert Get(Tally(ps), Pending) == c.pending + Delta(Pending, p.status);
      assert Get(Tally(ps), InProgress) == c.inProgress + Delta(InProgress, p.status);
      assert Get(Tally(ps), Resolved) == c.resolved + Delta(Resolved, p.status);
      assert forall i :: 0 <= i < |prefix| ==> prefix[i] == ps[i];
    }
  }

  /** The counters of `p.authority` after one iteration of the `forEach`. */
  function BumpDepartment(m: map<string, Counts>, p: Grievance): map<string, Counts> {
    var c := if p.authority in m then m[p.authority] else ZERO;
    m[p.authority := Bump(c, p.status)]
  }

  /** The `byDepartment` object after the `forEach` over `ps`. */
  function ByDepartment(ps: seq<Grievance>): map<string, Counts> {
    if ps == [] then map[] else BumpDepartment(ByDepartment(ps[..|ps| - 1]), ps[|ps| - 1])
  }

  /** The departments that occur in `ps`. */
  function Authorities(ps: seq<Grievance>): set<string> {
    set i | 0 <= i < |ps| :: ps[i].authority
  }

  /** The keys of `byDepartment` in the order the loop creates them. */
  function Departments(ps: seq<Grievance>): (ds: seq<string>)
    ensures forall i, j :: 0 <= i < j < |ds| ==> ds[i] != ds[j]
  {
    if ps == [] then []
    else
      var ds := Departments(ps[..|ps| - 1]);
      var a := ps[|ps| - 1].authority;
      if a in ds then ds else ds + [a]
  }

  /** `byDepartment` has a key for every department that occurs, and no other. */
  lemma {:induction false} ByDepartmentKeys(ps: seq<Grievance>)
    ensures ByDepartment(ps).Keys == Authorities(ps)
    ensures forall d :: d in Departments(ps) <==> d in ByDepartment(ps)
  {
    if ps != [] {
      var prefix := ps[..|ps| - 1];
      ByDepartmentKeys(prefix);
      assert forall i :: 0 <= i < |prefix| ==> prefix[i] == ps[i];
      assert Authorities(ps) == Authorities(prefix) + {ps[|ps| - 1].authority};
    }
  }

  /** Each department's counters are the figures of that department's grievances alone. */
  lemma {:induction false} ByDepartmentEntry(ps: seq<Grievance>, d: string)
    requires d in ByDepartment(ps)
    ensures ByDepartment(ps)[d] == Tally(Filter(ps, WithAuthority(d)))
  {
    var prefix, p := ps[..|ps| - 1], ps[|ps| - 1];
    assert ps == prefix + [p];
    FilterAppend(prefix, [p], WithAuthority(d));
    var mine := Filter(prefix, WithAuthority(d));
    var m := ByDepartment(prefix);
    if d == p.authority {
      assert Filter(ps, WithAuthority(d)) == mine + [p];
      TallySnoc(mine, p);
      if d in m {
        ByDepartmentEntry(prefix, d);
        assert ByDepartment(ps)[d] == Bump(m[d], p.status);
      } else {
        ByDepartmentKeys(prefix);
        assert mine == [];
        assert ByDepartment(ps)[d] == Bump(ZERO, p.status);
      }
    } else {
      assert Filter(ps, WithAuthority(d)) == mine;
      assert ByDepartment(ps)[d] == m[d];
      ByDepartmentEntry(prefix, d);
    }
  }

  /** A department's contribution to a column: zero when it has no counters. */
  function Entry(m: map<string, Counts>, d: string, col: Column): nat {
    if d in m then Get(m[d], col) else 0
  }

  /** A column summed over the departments `ds`. */
  function ColumnSum(m: map<string, Counts>, ds: seq<string>, col: Column): nat {
    if ds == [] then 0 else ColumnSum(m, ds[..|ds| - 1], col) + Entry(m, ds[|ds| - 1], col)
  }

  lemma {:induction false} ColumnSumFrame(m: map<string, Counts>, n: map<string, Counts>, ds: seq<string>, col: Column)
    requires forall i :: 0 <= i < |ds| ==> Entry(m, ds[i], col) == Entry(n, ds[i], col)
    ensures ColumnSum(m, ds, col) == ColumnSum(n, ds, col)
  {
    if ds != [] {
      ColumnSumFrame(m, n, ds[..|ds| - 1], col);
    }
  }

  lemma {:induction false} ColumnSumUpdate(m: map<string, Counts>, ds: seq<string>, d: string, v: Counts, col: Column)
    requires d in ds
    requires forall i, j :: 0 <= i < j < |ds| ==> ds[i] != ds[j]
    ensures ColumnSum(m[d := v], ds, col) == ColumnSum(m, ds, col) - Entry(m, d, col) + Get(v, col)
    ensures ColumnSum(m, ds, col) >= Entry(m, d, col)
  {
    var prefix, last := ds[..|ds| - 1], ds[|ds| - 1];
    if last == d {
      assert d !in prefix;
      ColumnSumFrame(m[d := v], m, prefix, col);
    } else {
      ColumnSumUpdate(m, prefix, d, v, col);
    }
  }

  /** One iteration of the `forEach` adds the record's share to the column summed over the departments. */
  lemma ColumnSumBump(m: map<string, Counts>, ds: seq<string>, p: Grievance, col: Column)
    requires forall i, j :: 0 <= i < j < |ds| ==> ds[i] != ds[j]
    requires forall d :: d in ds <==> d in m
    ensures var ds' := if p.authority in ds then ds else ds + [p.authority];
            ColumnSum(BumpDepartment(m, p), ds', col) == ColumnSum(m, ds, col) + Delta(col, p.status)
  {
    var a := p.authority;
    var c := if a in m then m[a] else ZERO;
    var bumped := BumpDepartment(m, p);
    assert bumped == m[a := Bump(c, p.status)];
    if a in ds {
      assert Entry(m, a, col) == Get(c, col);
      ColumnSumUpdate(m, ds, a, Bump(c, p.status), col);
    } else {
      assert Entry(bumped, a, col) == Delta(col, p.status);
      ColumnSumFrame(bumped, m, ds, col);
      assert (ds + [a])[..|ds|] == ds;
    }
  }

  /**
   * Summed over the departments, each column of `byDepartment` gives the
   * global figure: the totals add up to `totalGrievances`, the pending
   * counts to `pending`, and so on.
   */
  lemma {:induction false} DepartmentColumnsAddUp(ps: seq<Grievance>, col: Column)
    ensures ColumnSum(ByDepartment(ps), Departments(ps), col) == Get(Tally(ps), col)
  {
    if ps != [] {
      var prefix, p := ps[..|ps| - 1], ps[|ps| - 1];
      assert ps == prefix + [p];
      DepartmentColumnsAddUp(prefix, col);
      TallySnoc(prefix, p);
      ByDepartmentKeys(prefix);
      ColumnSumBump(ByDepartment(prefix), Departments(prefix), p, col);
    }
  }
}
