/**
 * The row logic of the four CSV tool actions, over tables that have already
 * been read: merging a failure report into a sessions table, counting the
 * status values, finding the rows whose status is "-", and flagging the
 * "real" rows of every person who also has an attack or virtual camera row.
 */
module CsvTool {
  import opened Rows

  /** A read CSV file: its header and its data rows. */
  datatype Table = Table(columns: seq<string>, rows: seq<Row>)

  /** A lookup of a column the table does not have (pandas raises KeyError). */
  datatype ToolError = MissingColumn(name: string)

  const REPORT_SESSION_ID := "Session ID"
  const REPORT_RESULT := "Result"
  const REPORT_REASON := "Reason"
  const FAIL := "fail"
  const DASH := "-"
  const ATTACK_REASON := "attacks from this person_id"
  const VIRTUAL_CAMERA_REASON := "virtualcamera attacks from this person_id"

  // ---------------------------------------------------------------------
  // 1. Update session status from a report
  // ---------------------------------------------------------------------

  /** Report row `j` says the download of session `sessionId` failed. */
  predicate FailsFor(report: seq<Row>, j: nat, sessionId: string)
    requires j < |report|
  {
    Get(report[j], REPORT_RESULT, "") == FAIL && Get(report[j], REPORT_SESSION_ID, "") == sessionId
  }

  /** Report row `j` is the last one that says session `sessionId` failed. */
  predicate LastFailure(report: seq<Row>, j: nat, sessionId: string)
  {
    j < |report| && FailsFor(report, j, sessionId)
    && forall k :: j < k < |report| ==> !FailsFor(report, k, sessionId)
  }

  /** A session that has a failing report row has a last one. */
  lemma {:induction false} LastFailureExists(report: seq<Row>, j: nat, sessionId: string)
    requires j < |report| && FailsFor(report, j, sessionId)
    ensures exists k: nat :: LastFailure(report, k, sessionId)
    decreases |report| - j
  {
    if !LastFailure(report, j, sessionId) {
      var k :| j < k < |report| && FailsFor(report, k, sessionId);
      LastFailureExists(report, k, sessionId);
    }
  }

  /** `dict(zip(failed["Session ID"], failed["Reason"]))`: a later failing row overwrites an earlier one. */
  function FailureMap(report: seq<Row>): map<string, string>
  {
    if report == [] then map[]
    else
      var n := |report| - 1;
      var m := FailureMap(report[..n]);
      if Get(report[n], REPORT_RESULT, "") == FAIL
      then m[Get(report[n], REPORT_SESSION_ID, "") := Get(report[n], REPORT_REASON, "")]
      else m
  }

  /** The failure map holds exactly the sessions with a failing report row. */
  lemma {:induction false} FailureMapKeys(report: seq<Row>, sid: string)
    ensures sid in FailureMap(report) <==> exists j: nat :: j < |report| && FailsFor(report, j, sid)
  {
    if report != [] {
      var n := |report| - 1;
      var prefix := report[..n];
      FailureMapKeys(prefix, sid);
      if !FailsFor(report, n, sid) {
        if sid in FailureMap(prefix) {
          var j: nat :| j < n && FailsFor(prefix, j, sid);
          assert prefix[j] == report[j];
          assert FailsFor(report, j, sid);
        }
        if exists j: nat :: j < |report| && FailsFor(report, j, sid) {
          var j: nat :| j < |report| && FailsFor(report, j, sid);
          assert j < n && prefix[j] == report[j];
          assert FailsFor(prefix, j, sid);
        }
      }
    }
  }

  /** A failed session is mapped to the reason of its last failing report row. */
  lemma {:induction false} FailureMapHoldsLastReason(report: seq<Row>, j: nat, sid: string)
    requires LastFailure(report, j, sid)
    ensures sid in FailureMap(report) && FailureMap(report)[sid] == Get(report[j], REPORT_REASON, "")
  {
    var n := |report| - 1;
    var prefix := report[..n];
    if j < n {
      assert prefix[j] == report[j];
      forall k | j < k < n ensures !FailsFor(prefix, k, sid) {
        assert prefix[k] == report[k];
        assert !FailsFor(report, k, sid);
      }
      FailureMapHoldsLastReason(prefix, j, sid);
      assert !FailsFor(report, n, sid);
    }
  }

  /**
   * The row the merge writes for a sessions row: a failed session gets the
   * download error status and the failure's reason, any other keeps its
   * status and reason ("" when the cell is absent).
   */
  function MergedRow(failures: map<string, string>, row: Row): Row
  {
    var sid := Get(row, SESSION_ID, "");
    if sid in failures then WithStatus(row, DOWNLOAD_ERROR, failures[sid])
    else WithStatus(row, Get(row, STATUS, ""), Get(row, REASON, ""))
  }

  /** What the merge promises of the output row `out` for the input row `row`. */
  ghost predicate MergedFrom(report: seq<Row>, row: Row, out: Row)
  {
    var sid := Get(row, SESSION_ID, "");
    out.Keys == row.Keys + {STATUS, REASON}
    && (forall j: nat :: LastFailure(report, j, sid) ==>
          out[STATUS] == DOWNLOAD_ERROR && out[REASON] == Get(report[j], REPORT_REASON, ""))
    && ((forall j :: 0 <= j < |report| ==> !FailsFor(report, j, sid)) ==>
          out[STATUS] == Get(row, STATUS, "") && out[REASON] == Get(row, REASON, ""))
    && forall k :: k in row && k != STATUS && k != REASON ==> out[k] == row[k]
  }

  /** The row the merge writes keeps the promise of `MergedFrom`. */
  lemma MergedRowIsMergedFrom(report: seq<Row>, row: Row)
    ensures MergedFrom(report, row, MergedRow(FailureMap(report), row))
  {
    var sid := Get(row, SESSION_ID, "");
    FailureMapKeys(report, sid);
    forall j: nat | LastFailure(report, j, sid)
      ensures sid in FailureMap(report) && FailureMap(report)[sid] == Get(report[j], REPORT_REASON, "")
    {
      FailureMapHoldsLastReason(report, j, sid);
    }
  }

  /** `df[c] = ...` on a column the frame lacks appends it. */
  function WithColumn(columns: seq<string>, c: string): (r: seq<string>)
    ensures |r| == |columns| + (if c in columns then 0 else 1)
    ensures r[..|columns|] == columns && c in r
  {
    if c in columns then columns else columns + [c]
  }

  /**
   * `update_session_status`: fails on a missing column; otherwise keeps every
   * sessions row, in order, with the failed sessions marked as download
   * errors.
   */
  function MergeFailureReport(report: Table, sessions: Table): (r: Result<Table, ToolError>)
    ensures r.Err? <==>
      REPORT_RESULT !in report.columns || REPORT_SESSION_ID !in report.columns
      || REPORT_REASON !in report.columns || SESSION_ID !in sessions.columns
    ensures r.Err? ==>
      (r.error.name in [REPORT_RESULT, REPORT_SESSION_ID, REPORT_REASON] && r.error.name !in report.columns)
      || (r.error.name == SESSION_ID && SESSION_ID !in sessions.columns)
    ensures r.Ok? ==>
      |r.value.rows| == |sessions.rows|
      && r.value.columns == WithColumn(WithColumn(sessions.columns, STATUS), REASON)
      && forall i :: 0 <= i < |sessions.rows| ==> MergedFrom(report.rows, sessions.rows[i], r.value.rows[i])
  {
    if REPORT_RESULT !in report.columns then Err(MissingColumn(REPORT_RESULT))
    else if REPORT_SESSION_ID !in report.columns then Err(MissingColumn(REPORT_SESSION_ID))
    else if REPORT_REASON !in report.columns then Err(MissingColumn(REPORT_REASON))
    else if SESSION_ID !in sessions.columns then Err(MissingColumn(SESSION_ID))
    else
      var failures := FailureMap(report.rows);
      var rows := seq(|sessions.rows|, i requires 0 <= i < |sessions.rows| => MergedRow(failures, sessions.rows[i]));
      assert forall i :: 0 <= i < |sessions.rows| ==> MergedFrom(report.rows, sessions.rows[i], rows[i]) by {
        forall i | 0 <= i < |sessions.rows| {
          MergedRowIsMergedFrom(report.rows, sessions.rows[i]);
        }
      }
      Ok(Table(WithColumn(WithColumn(sessions.columns, STATUS), REASON), rows))
  }

  // ---------------------------------------------------------------------
  // 2. Count statuses
  // ---------------------------------------------------------------------

  /** One line of `value_counts`: a status value and how many rows have it. */
  datatype Bucket = Bucket(value: string, count: nat)

  /** The values that have a bucket. */
  function Values(b: seq<Bucket>): (vs: set<string>)
    ensures forall k :: 0 <= k < |b| ==> b[k].value in vs
  {
    if b == [] then {} else {b[0].value} + Values(b[1..])
  }

  predicate DistinctValues(b: seq<Bucket>)
  {
    forall j, k :: 0 <= j < k < |b| ==> b[j].value != b[k].value
  }

  /** The sum of the counts. */
  function Total(b: seq<Bucket>): nat
  {
    if b == [] then 0 else b[0].count + Total(b[1..])
  }

  /** The count `b` holds for `v`, 0 when it has no bucket for it. */
  function CountOf(b: seq<Bucket>, v: string): nat
  {
    if b == [] then 0 else (if b[0].value == v then b[0].count else 0) + CountOf(b[1..], v)
  }

  /** Counts one more occurrence of `v`: its bucket grows by one, or a new one is appended. */
  function Bump(b: seq<Bucket>, v: string): seq<Bucket>
  {
    if b == [] then [Bucket(v, 1)]
    else if b[0].value == v then [Bucket(v, b[0].count + 1)] + b[1..]
    else [b[0]] + Bump(b[1..], v)
  }

  lemma {:induction false} BumpCounts(b: seq<Bucket>, v: string)
    ensures forall w :: CountOf(Bump(b, v), w) == CountOf(b, w) + (if w == v then 1 else 0)
    ensures Total(Bump(b, v)) == Total(b) + 1
  {
    var r := Bump(b, v);
    if b == [] {
      assert r[1..] == [];
    } else if b[0].value == v {
      assert r[1..] == b[1..];
    } else {
      BumpCounts(b[1..], v);
      assert r[1..] == Bump(b[1..], v);
    }
  }

  lemma {:induction false} BumpValues(b: seq<Bucket>, v: string)
    ensures Values(Bump(b, v)) == Values(b) + {v}
  {
    if b != [] && b[0].value != v {
      BumpValues(b[1..], v);
      assert Bump(b, v)[1..] == Bump(b[1..], v);
    } else if b != [] {
      assert Bump(b, v)[1..] == b[1..];
    }
  }

  lemma {:induction false} BumpPositive(b: seq<Bucket>, v: string)
    requires forall k :: 0 <= k < |b| ==> b[k].count > 0
    ensures forall k :: 0 <= k < |Bump(b, v)| ==> Bump(b, v)[k].count > 0
  {
    if b != [] && b[0].value != v {
      BumpPositive(b[1..], v);
      assert Bump(b, v) == [b[0]] + Bump(b[1..], v);
    }
  }

  lemma {:induction false} BumpKeepsDistinct(b: seq<Bucket>, v: string)
    requires DistinctValues(b)
    ensures DistinctValues(Bump(b, v))
  {
    if b != [] && b[0].value != v {
      var rest := Bump(b[1..], v);
      BumpKeepsDistinct(b[1..], v);
      BumpValues(b[1..], v);
      assert b[0].value !in Values(b[1..]) by {
        NotInValues(b[1..], b[0].value);
      }
      forall k | 0 <= k < |rest| ensures rest[k].value != b[0].value {
        assert rest[k].value in Values(rest);
      }
    }
  }

  lemma {:induction false} NotInValues(b: seq<Bucket>, v: string)
    requires forall k :: 0 <= k < |b| ==> b[k].value != v
    ensures v !in Values(b)
  {
    if b != [] {
      NotInValues(b[1..], v);
    }
  }

  lemma {:induction false} NoBucketCountsZero(b: seq<Bucket>, v: string)
    requires forall k :: 0 <= k < |b| ==> b[k].value != v
    ensures CountOf(b, v) == 0
  {
    if b != [] {
      NoBucketCountsZero(b[1..], v);
    }
  }

  /**
   * `value_counts(dropna=False)` of a column: one bucket per distinct value
   * (the empty cell included), holding the number of times it occurs.
   */
  function Tally(column: seq<string>): (r: seq<Bucket>)
    ensures DistinctValues(r)
    ensures forall v :: CountOf(r, v) == multiset(column)[v]
    ensures forall v :: v in Values(r) <==> v in column
    ensures forall k :: 0 <= k < |r| ==> r[k].count > 0
    ensures Total(r) == |column|
  {
    if column == [] then []
    else
      var n := |column| - 1;
      var before := Tally(column[..n]);
      assert column == column[..n] + [column[n]];
      BumpCounts(before, column[n]);
      BumpValues(before, column[n]);
      BumpPositive(before, column[n]);
      BumpKeepsDistinct(before, column[n]);
      Bump(before, column[n])
  }

  /** With distinct values, a bucket's count is the count for its value. */
  lemma {:induction false} BucketCountIsCountOf(b: seq<Bucket>, k: nat)
    requires DistinctValues(b) && k < |b|
    ensures CountOf(b, b[k].value) == b[k].count
  {
    if k == 0 {
      NoBucketCountsZero(b[1..], b[0].value);
    } else {
      BucketCountIsCountOf(b[1..], k - 1);
    }
  }

  /** The `status` column, with `""` for a row without one. */
  function StatusColumn(rows: seq<Row>): seq<string>
  {
    seq(|rows|, i requires 0 <= i < |rows| => Get(rows[i], STATUS, ""))
  }

  /**
   * `count_status_values`: without a status column, the missing-column
   * message; otherwise one bucket per distinct status, each with the number
   * of rows that have it, adding up to the number of rows.
   */
  function CountStatuses(t: Table): (r: Result<seq<Bucket>, ToolError>)
    ensures r.Err? <==> STATUS !in t.columns
    ensures r.Err? ==> r.error == MissingColumn(STATUS)
    ensures r.Ok? ==>
      DistinctValues(r.value) && Total(r.value) == |t.rows|
      && (forall k :: 0 <= k < |r.value| ==>
            r.value[k].count == multiset(StatusColumn(t.rows))[r.value[k].value] > 0)
      && forall i :: 0 <= i < |t.rows| ==> Get(t.rows[i], STATUS, "") in Values(r.value)
  {
    if STATUS !in t.columns then Err(MissingColumn(STATUS))
    else
      var column := StatusColumn(t.rows);
      var b := Tally(column);
      assert forall k :: 0 <= k < |b| ==> b[k].count == multiset(column)[b[k].value] by {
        forall k | 0 <= k < |b| ensures b[k].count == multiset(column)[b[k].value] {
          BucketCountIsCountOf(b, k);
        }
      }
      assert forall i :: 0 <= i < |t.rows| ==> column[i] == Get(t.rows[i], STATUS, "") && column[i] in column;
      Ok(b)
  }

  // ---------------------------------------------------------------------
  // 3. Find sessions where status == '-'
  // ---------------------------------------------------------------------

  predicate IsDash(row: Row)
  {
    Strip(Get(row, STATUS, "")) == DASH
  }

  /**
   * `find_empty_status_rows`: the record numbers as the CSV reader counts
   * them (the header is number 1, so data row `i` is number `i + 2`) of the rows whose stripped status is
   * "-", in increasing order.
   */
  method FindDashRows(rows: seq<Row>) returns (lines: seq<int>)
    ensures forall p :: p in lines <==> 2 <= p <= |rows| + 1 && IsDash(rows[p - 2])
    ensures forall j, k :: 0 <= j < k < |lines| ==> lines[j] < lines[k]
  {
    lines := [];
    for i := 0 to |rows|
      invariant forall p :: p in lines <==> 2 <= p < i + 2 && IsDash(rows[p - 2])
      invariant forall k :: 0 <= k < |lines| ==> lines[k] < i + 2
      invariant forall j, k :: 0 <= j < k < |lines| ==> lines[j] < lines[k]
    {
      if IsDash(rows[i]) {
        lines := lines + [i + 2];
      }
    }
  }

  // ---------------------------------------------------------------------
  // 4. Flag 'real' rows of persons with attack or virtual camera rows
  // ---------------------------------------------------------------------

  function PersonOf(row: Row): string
  {
    Get(row, PERSON_ID, "")
  }

  /** `df["status"].isin(["attack", "virtual_camera"])`. */
  predicate IsSuspicious(row: Row)
  {
    Get(row, STATUS, "") == ATTACK || Get(row, STATUS, "") == VIRTUAL_CAMERA
  }

  predicate HasSuspicious(rows: seq<Row>)
  {
    exists i :: 0 <= i < |rows| && IsSuspicious(rows[i])
  }

  /** Some row of person `pid` has the status `status`. */
  predicate PersonHas(rows: seq<Row>, pid: string, status: string)
  {
    exists i :: 0 <= i < |rows| && Get(rows[i], STATUS, "") == status && PersonOf(rows[i]) == pid
  }

  /**
   * The reason a person's "real" rows are flagged with, whatever the order
   * of the rows: an attack row outweighs a virtual camera row; a person with
   * neither is not flagged.
   */
  function ConflictReason(rows: seq<Row>, pid: string): Option<string>
  {
    if PersonHas(rows, pid, ATTACK) then Some(ATTACK_REASON)
    else if PersonHas(rows, pid, VIRTUAL_CAMERA) then Some(VIRTUAL_CAMERA_REASON)
    else None
  }

  /** Rows holding the same rows in another order give every person the same reason. */
  lemma ConflictReasonIgnoresOrder(rows: seq<Row>, shuffled: seq<Row>, pid: string)
    requires multiset(rows) == multiset(shuffled)
    ensures ConflictReason(shuffled, pid) == ConflictReason(rows, pid)
  {
    forall status, a: seq<Row>, b: seq<Row> | multiset(a) == multiset(b) && PersonHas(a, pid, status)
      ensures PersonHas(b, pid, status)
    {
      var i :| 0 <= i < |a| && Get(a[i], STATUS, "") == status && PersonOf(a[i]) == pid;
      assert a[i] in multiset(b);
      var j :| 0 <= j < |b| && b[j] == a[i];
    }
  }

  lemma PersonHasExtend(rows: seq<Row>, row: Row, pid: string, status: string)
    ensures PersonHas(rows + [row], pid, status)
        <==> PersonHas(rows, pid, status) || (Get(row, STATUS, "") == status && PersonOf(row) == pid)
  {
    var s := rows + [row];
    if PersonHas(rows, pid, status) {
      var i :| 0 <= i < |rows| && Get(rows[i], STATUS, "") == status && PersonOf(rows[i]) == pid;
      assert s[i] == rows[i];
    }
    if PersonHas(s, pid, status) {
      var i :| 0 <= i < |s| && Get(s[i], STATUS, "") == status && PersonOf(s[i]) == pid;
      if i < |rows| { assert s[i] == rows[i]; }
    }
    if Get(row, STATUS, "") == status && PersonOf(row) == pid {
      assert s[|rows|] == row;
    }
  }

  /** A map that holds exactly the flagged persons, with their reasons. */
  ghost predicate IsConflictMap(rows: seq<Row>, m: map<string, string>)
  {
    forall pid ::
      (pid in m <==> ConflictReason(rows, pid).Some?)
      && (pid in m ==> m[pid] == ConflictReason(rows, pid).value)
  }

  /**
   * The first loop of `flag_persons_with_conflicts`: builds `person_to_reason`
   * from the suspicious rows.  Reading a person of a suspicious row fails
   * when there is no person_id column.
   */
  method BuildConflictMap(columns: seq<string>, rows: seq<Row>) returns (r: Result<map<string, string>, ToolError>)
    ensures r.Err? <==> PERSON_ID !in columns && HasSuspicious(rows)
    ensures r.Err? ==> r.error == MissingColumn(PERSON_ID)
    ensures r.Ok? ==> IsConflictMap(rows, r.value)
  {
    var personToReason: map<string, string> := map[];
    for i := 0 to |rows|
      invariant IsConflictMap(rows[..i], personToReason)
      invariant PERSON_ID !in columns ==> !HasSuspicious(rows[..i])
    {
      var row := rows[i];
      assert rows[..i + 1] == rows[..i] + [row];
      forall pid, status {
        PersonHasExtend(rows[..i], row, pid, status);
      }
      if IsSuspicious(row) {
        if PERSON_ID !in columns {
          assert IsSuspicious(rows[i]);
          return Err(MissingColumn(PERSON_ID));
        }
        var pid := PersonOf(row);
        if Get(row, STATUS, "") == ATTACK {
          personToReason := personToReason[pid := ATTACK_REASON];
        } else if pid !in personToReason {
          personToReason := personToReason[pid := VIRTUAL_CAMERA_REASON];
        }
      }
      assert !IsSuspicious(row) ==> (HasSuspicious(rows[..i + 1]) ==> HasSuspicious(rows[..i])) by {
        if !IsSuspicious(row) && HasSuspicious(rows[..i + 1]) {
          var k :| 0 <= k < i + 1 && IsSuspicious(rows[..i + 1][k]);
          assert k < i;
          assert rows[..i + 1][k] == rows[..i][k];
        }
      }
    }
    assert rows[..|rows|] == rows;
    r := Ok(personToReason);
  }

  /** A "real" row of a flagged person. */
  predicate Flagged(rows: seq<Row>, row: Row)
  {
    Get(row, STATUS, "") == REAL && ConflictReason(rows, PersonOf(row)).Some?
  }

  function PropagatedRow(rows: seq<Row>, row: Row): Row
  {
    if Flagged(rows, row) then WithStatus(row, NEED_REVISION, ConflictReason(rows, PersonOf(row)).value)
    else row
  }

  /** The table after the second loop: every flagged row marked need_revision. */
  function Propagated(rows: seq<Row>): (r: seq<Row>)
    ensures |r| == |rows|
  {
    seq(|rows|, i requires 0 <= i < |rows| => PropagatedRow(rows, rows[i]))
  }

  /** The number of flagged rows among the first `n`. */
  function FlaggedCount(rows: seq<Row>, n: nat): nat
    requires n <= |rows|
  {
    if n == 0 then 0 else FlaggedCount(rows, n - 1) + (if Flagged(rows, rows[n - 1]) then 1 else 0)
  }

  /** The second loop's test: a "real" row whose person the first loop mapped to a reason. */
  predicate Rewrites(personToReason: map<string, string>, row: Row)
  {
    Get(row, STATUS, "") == REAL && PersonOf(row) in personToReason
  }

  /** What the second loop does to one row, given the map the first loop built. */
  function RewrittenRow(personToReason: map<string, string>, row: Row): Row
  {
    if Rewrites(personToReason, row)
    then WithStatus(row, NEED_REVISION, personToReason[PersonOf(row)])
    else row
  }

  /** The number of rows among the first `n` that the second loop rewrites. */
  function RewriteCount(personToReason: map<string, string>, rows: seq<Row>, n: nat): nat
    requires n <= |rows|
  {
    if n == 0 then 0
    else RewriteCount(personToReason, rows, n - 1) + (if Rewrites(personToReason, rows[n - 1]) then 1 else 0)
  }

  /** With a conflict map, the loop's test and rewrite of every row are the propagation's. */
  lemma ConflictMapRewrites(rows: seq<Row>, m: map<string, string>)
    requires IsConflictMap(rows, m)
    ensures forall row :: Rewrites(m, row) == Flagged(rows, row)
    ensures forall row :: RewrittenRow(m, row) == PropagatedRow(rows, row)
  {
  }

  /** With a conflict map, the loop's count is the number of flagged rows. */
  lemma {:induction false} RewriteCountIsFlaggedCount(rows: seq<Row>, m: map<string, string>, n: nat)
    requires n <= |rows| && forall row :: Rewrites(m, row) == Flagged(rows, row)
    ensures RewriteCount(m, rows, n) == FlaggedCount(rows, n)
  {
    if n > 0 {
      RewriteCountIsFlaggedCount(rows, m, n - 1);
    }
  }

  /**
   * The second loop of `flag_persons_with_conflicts`: rewrites, in place,
   * every "real" row whose person has a reason, and counts the rewrites.
   */
  method RewriteFlagged(rows: array<Row>, personToReason: map<string, string>) returns (updatedRows: nat)
    modifies rows
    ensures forall k :: 0 <= k < rows.Length ==> rows[k] == RewrittenRow(personToReason, old(rows[k]))
    ensures updatedRows == RewriteCount(personToReason, old(rows[..]), rows.Length)
  {
    ghost var original := rows[..];
    updatedRows := 0;
    for i := 0 to rows.Length
      invariant forall k :: 0 <= k < i ==> rows[k] == RewrittenRow(personToReason, original[k])
      invariant forall k :: i <= k < rows.Length ==> rows[k] == original[k]
      invariant updatedRows == RewriteCount(personToReason, original, i)
    {
      var row := rows[i];
      var pid := PersonOf(row);
      if Get(row, STATUS, "") == REAL && pid in personToReason {
        rows[i] := WithStatus(row, NEED_REVISION, personToReason[pid]);
        updatedRows := updatedRows + 1;
      }
    }
  }

  /**
   * `flag_persons_with_conflicts` up to the save dialog: fails on a missing
   * status column or a missing person_id column; otherwise rewrites the
   * flagged rows in place and returns how many it rewrote. Writing
   * `reason_for_status` with `df.at` appends that column to the header of
   * the saved table when at least one row was rewritten.
   */
  method FlagPersonsWithConflicts(columns: seq<string>, rows: array<Row>)
    returns (r: Result<nat, ToolError>, header: seq<string>)
    modifies rows
    ensures STATUS !in columns ==> r == Err(MissingColumn(STATUS))
    ensures STATUS in columns ==>
      (r.Err? <==> PERSON_ID !in columns && HasSuspicious(old(rows[..])))
    ensures STATUS in columns && r.Err? ==> r.error == MissingColumn(PERSON_ID)
    ensures r.Err? ==> rows[..] == old(rows[..])
    ensures r.Ok? ==>
      rows[..] == Propagated(old(rows[..])) && r.value == FlaggedCount(old(rows[..]), rows.Length)
    ensures header == if r.Ok? && r.value > 0 then WithColumn(columns, REASON) else columns
  {
    header := columns;
    if STATUS !in columns {
      return Err(MissingColumn(STATUS)), header;
    }
    ghost var original := rows[..];
    var built := BuildConflictMap(columns, rows[..]);
    if built.Err? {
      return Err(built.error), header;
    }
    var updatedRows := RewriteFlagged(rows, built.value);
    ConflictMapRewrites(original, built.value);
    RewriteCountIsFlaggedCount(original, built.value, |original|);
    assert rows[..] == Propagated(original);
    r := Ok(updatedRows);
    if updatedRows > 0 {
      header := WithColumn(columns, REASON);
    }
  }

  /**
   * A rewritten row is one that changed: the propagation changes exactly the
   * flagged rows, sets their status and reason, and leaves every other
   * column of them as it was.
   */
  lemma PropagationChangesExactlyFlagged(rows: seq<Row>, i: nat)
    requires i < |rows|
    ensures var out := Propagated(rows)[i];
      (out != rows[i] <==> Flagged(rows, rows[i]))
      && (Flagged(rows, rows[i]) ==>
            out[STATUS] == NEED_REVISION && out[REASON] == ConflictReason(rows, PersonOf(rows[i])).value
            && forall k :: k in rows[i] && k != STATUS && k != REASON ==> out[k] == rows[i][k])
  {
  }

  /** The number of positions below `n` where two tables differ. */
  function ChangedCount(a: seq<Row>, b: seq<Row>, n: nat): nat
    requires n <= |a| && n <= |b|
  {
    if n == 0 then 0 else ChangedCount(a, b, n - 1) + (if a[n - 1] != b[n - 1] then 1 else 0)
  }

  /** Any table that differs from `rows` exactly at the flagged rows differs at `FlaggedCount` positions. */
  lemma {:induction false} FlaggedCountCountsChanges(rows: seq<Row>, out: seq<Row>, n: nat)
    requires n <= |rows| && n <= |out|
    requires forall i :: 0 <= i < n ==> (out[i] != rows[i] <==> Flagged(rows, rows[i]))
    ensures FlaggedCount(rows, n) == ChangedCount(rows, out, n)
  {
    if n > 0 {
      FlaggedCountCountsChanges(rows, out, n - 1);
    }
  }

  /** `updated_rows` is the number of rows the propagation changed. */
  lemma FlaggedCountIsChangedRows(rows: seq<Row>)
    ensures FlaggedCount(rows, |rows|) == ChangedCount(rows, Propagated(rows), |rows|)
  {
    forall i | 0 <= i < |rows| ensures Propagated(rows)[i] != rows[i] <==> Flagged(rows, rows[i]) {
      PropagationChangesExactlyFlagged(rows, i);
    }
    FlaggedCountCountsChanges(rows, Propagated(rows), |rows|);
  }

  /**
   * Attack and virtual camera rows are never rewritten and no row becomes
   * one, so the propagation leaves every person's conflict reason as it was.
   */
  lemma PropagationKeepsConflicts(rows: seq<Row>, pid: string)
    ensures ConflictReason(Propagated(rows), pid) == ConflictReason(rows, pid)
  {
    var out := Propagated(rows);
    forall status | status == ATTACK || status == VIRTUAL_CAMERA
      ensures PersonHas(out, pid, status) <==> PersonHas(rows, pid, status)
    {
      if PersonHas(rows, pid, status) {
        var i :| 0 <= i < |rows| && Get(rows[i], STATUS, "") == status && PersonOf(rows[i]) == pid;
        assert out[i] == rows[i];
      }
      if PersonHas(out, pid, status) {
        var i :| 0 <= i < |out| && Get(out[i], STATUS, "") == status && PersonOf(out[i]) == pid;
        assert out[i] == rows[i];
      }
    }
  }

  /** Running the propagation a second time changes nothing and counts 0. */
  lemma PropagationIsIdempotent(rows: seq<Row>)
    ensures Propagated(Propagated(rows)) == Propagated(rows)
    ensures FlaggedCount(Propagated(rows), |rows|) == 0
  {
    var out := Propagated(rows);
    forall i | 0 <= i < |out| ensures !Flagged(out, out[i]) {
      PropagationKeepsConflicts(rows, PersonOf(out[i]));
    }
    assert Propagated(out) == out;
    NothingFlaggedCountsZero(out, |out|);
  }

  lemma {:induction false} NothingFlaggedCountsZero(rows: seq<Row>, n: nat)
    requires n <= |rows| && forall i :: 0 <= i < n ==> !Flagged(rows, rows[i])
    ensures FlaggedCount(rows, n) == 0
  {
    if n > 0 {
      NothingFlaggedCountsZero(rows, n - 1);
    }
  }
}
