/** The LeaveRepository queries, over a snapshot of every stored leave keyed by
    leave id. */
module LeaveQueries {
  import opened Common
  import opened Entities

  /** The columns of a leave the queries look at. */
  datatype LeaveRow = LeaveRow(employeeId: Option<nat>, status: LeaveStatus, startDate: Date, endDate: Date)

  type LeaveRows = map<nat, LeaveRow>

  /** Day `d` lies in the closed range from `first` to `last`. */
  predicate Covers(first: Date, last: Date, d: Date)
  {
    first <= d <= last
  }

  /** The overlap test of the query, inclusive at both ends. */
  predicate Overlaps(row: LeaveRow, startDate: Date, endDate: Date)
  {
    row.startDate <= endDate && row.endDate >= startDate
  }

  /** `findOverlappingApprovedLeaves`: approved leaves of any employee that overlap
      the range. */
  function FindOverlappingApprovedLeaves(t: LeaveRows, startDate: Date, endDate: Date): set<nat>
  {
    set k | k in t && t[k].status == APPROVED && Overlaps(t[k], startDate, endDate)
  }

  /** `findByStatus`. */
  function FindByStatus(t: LeaveRows, status: LeaveStatus): set<nat>
  {
    set k | k in t && t[k].status == status
  }

  /** `findByEmployeeEmployeeId`. */
  function FindByEmployee(t: LeaveRows, employeeId: nat): set<nat>
  {
    set k | k in t && t[k].employeeId == Some(employeeId)
  }

  /** `findByEmployeeEmployeeIdAndStatus`. */
  function FindByEmployeeAndStatus(t: LeaveRows, employeeId: nat, status: LeaveStatus): set<nat>
  {
    set k | k in t && t[k].employeeId == Some(employeeId) && t[k].status == status
  }

  /** `countPendingLeaves`. */
  function CountPendingLeaves(t: LeaveRows): nat
  {
    |FindByStatus(t, PENDING)|
  }

  /** For well-formed ranges the inclusive test holds exactly when the two leaves
      share at least one day; touching end points count. */
  lemma OverlapsIffSharedDay(row: LeaveRow, startDate: Date, endDate: Date)
    requires row.startDate <= row.endDate && startDate <= endDate
    ensures Overlaps(row, startDate, endDate) <==>
              exists d :: Covers(startDate, endDate, d) && Covers(row.startDate, row.endDate, d)
  {
    if Overlaps(row, startDate, endDate) {
      var d := if startDate <= row.startDate then row.startDate else startDate;
      assert Covers(startDate, endDate, d) && Covers(row.startDate, row.endDate, d);
    }
  }

  /** Who a leave belongs to plays no part in the overlap query. */
  lemma OverlapIgnoresEmployee(t: LeaveRows, k: nat, employeeId: Option<nat>, startDate: Date, endDate: Date)
    requires k in t
    ensures FindOverlappingApprovedLeaves(t[k := t[k].(employeeId := employeeId)], startDate, endDate)
         == FindOverlappingApprovedLeaves(t, startDate, endDate)
  {
    var t' := t[k := t[k].(employeeId := employeeId)];
    assert forall j :: j in t' ==> j in t && t'[j].status == t[j].status && Overlaps(t'[j], startDate, endDate) == Overlaps(t[j], startDate, endDate);
  }

  /** The combined filter is the intersection of the two single filters. */
  lemma EmployeeAndStatusIsIntersection(t: LeaveRows, employeeId: nat, status: LeaveStatus)
    ensures FindByEmployeeAndStatus(t, employeeId, status) == FindByEmployee(t, employeeId) * FindByStatus(t, status)
  {
  }

  lemma CardinalityOfDisjointUnion<T>(a: set<T>, b: set<T>)
    requires a * b == {}
    ensures |a + b| == |a| + |b|
  {
    if a != {} {
      var x :| x in a;
      assert (a - {x}) * b == {};
      CardinalityOfDisjointUnion(a - {x}, b);
      assert a + b == (a - {x}) + b + {x};
      assert x !in (a - {x}) + b;
    } else {
      assert a + b == b;
    }
  }

  /** Every leave has exactly one of the four statuses, so the four status filters
      split the table; in particular the pending count never exceeds the number of
      leaves. */
  lemma StatusFiltersPartition(t: LeaveRows)
    ensures |FindByStatus(t, PENDING)| + |FindByStatus(t, APPROVED)| +
            |FindByStatus(t, REJECTED)| + |FindByStatus(t, CANCELLED)| == |t|
    ensures CountPendingLeaves(t) <= |t|
  {
    var p, a, r, c := FindByStatus(t, PENDING), FindByStatus(t, APPROVED),
                      FindByStatus(t, REJECTED), FindByStatus(t, CANCELLED);
    CardinalityOfDisjointUnion(p, a);
    CardinalityOfDisjointUnion(p + a, r);
    CardinalityOfDisjointUnion(p + a + r, c);
    assert p + a + r + c == t.Keys;
  }
}
