/**
 * The translation history: the `history` table of the SQLite file, the self-test `setup_db` runs on it,
 * and the save, load and clear operations with the dialogs and placeholder lines they produce.
 * The database engine is replaced by a value of the table; each call's failure is a parameter.
 */
module History {
  import opened Wrappers
  import opened PyStr
  import opened Truncation
  import opened Languages
  import opened Timestamp

  /** One row: `(id, timestamp, source_text, source_lang, translated_text, target_lang)`. */
  datatype Row = Row(id: int, timestamp: string, sourceText: string, sourceLang: string,
                     translatedText: string, targetLang: string)

  predicate IdsIncreasing(rows: seq<Row>) {
    forall i, j :: 0 <= i < j < |rows| ==> rows[i].id < rows[j].id
  }

  predicate IdsWithin(rows: seq<Row>, lastId: int) {
    forall i :: 0 <= i < |rows| ==> 1 <= rows[i].id <= lastId
  }

  /**
   * The database file: whether the `history` table exists, its rows in insertion order, and the
   * largest id AUTOINCREMENT has handed out (its `sqlite_sequence` entry).
   */
  datatype Table = Table(present: bool, rows: seq<Row>, lastId: int)

  /** Ids are handed out in increasing order and never above the counter; no table, no rows. */
  predicate TableValid(t: Table) {
    0 <= t.lastId && IdsIncreasing(t.rows) && IdsWithin(t.rows, t.lastId)
    && (!t.present ==> t.rows == [] && t.lastId == 0)
  }

  /** `CREATE TABLE IF NOT EXISTS history (...)`: an existing table is kept as it is. */
  function Created(t: Table): (u: Table)
    requires TableValid(t)
    ensures TableValid(u) && u.present && u.rows == t.rows && u.lastId == t.lastId
    ensures t.present ==> u == t
  {
    t.(present := true)
  }

  /** `INSERT INTO history ... VALUES (?, ?, ?, ?, ?)`: the row is appended under the next id. */
  function Inserted(t: Table, timestamp: string, sourceText: string, sourceLang: string,
                    translatedText: string, targetLang: string): (u: Table)
    requires TableValid(t) && t.present
    ensures TableValid(u) && u.present
    ensures |u.rows| == |t.rows| + 1 && u.rows[..|t.rows|] == t.rows
    ensures u.rows[|t.rows|] == Row(u.lastId, timestamp, sourceText, sourceLang, translatedText, targetLang)
    ensures u.lastId == t.lastId + 1
    ensures forall i :: 0 <= i < |t.rows| ==> t.rows[i].id < u.lastId
  {
    var id := t.lastId + 1;
    t.(rows := t.rows + [Row(id, timestamp, sourceText, sourceLang, translatedText, targetLang)], lastId := id)
  }

  /** The rows `DELETE FROM history WHERE source_text = 'TEST'` leaves, in their order. */
  function WithoutTestRows(rows: seq<Row>): (r: seq<Row>)
    ensures forall x :: x in r <==> x in rows && x.sourceText != "TEST"
    ensures |r| <= |rows|
  {
    if rows == [] then []
    else if rows[0].sourceText == "TEST" then WithoutTestRows(rows[1..])
    else [rows[0]] + WithoutTestRows(rows[1..])
  }

  /** Deleting rows keeps the ids of the others increasing and within the sequence counter. */
  lemma WithoutTestKeepsOrder(rows: seq<Row>, lastId: int)
    requires IdsIncreasing(rows) && IdsWithin(rows, lastId)
    ensures IdsIncreasing(WithoutTestRows(rows)) && IdsWithin(WithoutTestRows(rows), lastId)
  {
    WithoutTestKeepsIncreasing(rows);
    var r := WithoutTestRows(rows);
    forall i | 0 <= i < |r| ensures 1 <= r[i].id <= lastId {
      assert r[i] in rows;
    }
  }

  lemma {:induction false} WithoutTestKeepsIncreasing(rows: seq<Row>)
    requires IdsIncreasing(rows)
    ensures IdsIncreasing(WithoutTestRows(rows))
  {
    if rows != [] {
      var tail := WithoutTestRows(rows[1..]);
      WithoutTestKeepsIncreasing(rows[1..]);
      if rows[0].sourceText != "TEST" {
        forall j | 0 <= j < |tail| ensures rows[0].id < tail[j].id {
          assert tail[j] in rows[1..];
        }
      }
    }
  }

  /** Rows other than 'TEST' rows are all kept, so a table without any is left exactly as it was. */
  lemma {:induction false} WithoutTestKeepsOthers(rows: seq<Row>)
    requires forall i :: 0 <= i < |rows| ==> rows[i].sourceText != "TEST"
    ensures WithoutTestRows(rows) == rows
  {
    if rows != [] {
      WithoutTestKeepsOthers(rows[1..]);
      assert rows == [rows[0]] + rows[1..];
    }
  }

  /** A 'TEST' row appended at the end leaves no trace once the 'TEST' rows are deleted. */
  lemma {:induction false} WithoutTestOfAppendedTest(rows: seq<Row>, test: Row)
    requires test.sourceText == "TEST"
    ensures WithoutTestRows(rows + [test]) == WithoutTestRows(rows)
  {
    if rows == [] {
      assert [] + [test] == [test];
      assert [test][1..] == [];
    } else {
      assert (rows + [test])[0] == rows[0];
      assert (rows + [test])[1..] == rows[1..] + [test];
      WithoutTestOfAppendedTest(rows[1..], test);
    }
  }

  /** The delete statement itself: only the rows change. */
  function DeletedTestRows(t: Table): (u: Table)
    requires TableValid(t)
    ensures TableValid(u) && u.present == t.present && u.lastId == t.lastId
    ensures u.rows == WithoutTestRows(t.rows)
  {
    WithoutTestKeepsOrder(t.rows, t.lastId);
    t.(rows := WithoutTestRows(t.rows))
  }

  /** The self-test of `setup_db`: create the table, insert a 'TEST' row, delete every 'TEST' row. */
  function SelfTested(t: Table): (u: Table)
    requires TableValid(t)
    ensures TableValid(u)
  {
    DeletedTestRows(Inserted(Created(t), "TEST", "TEST", "en", "TEST", "en"))
  }

  /**
   * What the self-test does to the data: the 'TEST' rows that were already there are gone, every
   * other row stays in place, and one AUTOINCREMENT id has been used up.
   */
  lemma SelfTestEffect(t: Table)
    requires TableValid(t)
    ensures SelfTested(t).present
    ensures SelfTested(t).rows == WithoutTestRows(t.rows)
    ensures SelfTested(t).lastId == t.lastId + 1
  {
    var c := Created(t);
    var i := Inserted(c, "TEST", "TEST", "en", "TEST", "en");
    assert i.rows == c.rows + [i.rows[|c.rows|]];
    WithoutTestOfAppendedTest(c.rows, i.rows[|c.rows|]);
  }

  /**
   * Two self-tests in a row, as at start-up: the second deletes nothing more, but both use up an id,
   * so the first row saved afterwards gets `lastId + 3`.
   */
  lemma TwoSelfTests(t: Table)
    requires TableValid(t)
    ensures SelfTested(SelfTested(t)).rows == WithoutTestRows(t.rows)
    ensures SelfTested(SelfTested(t)).lastId == t.lastId + 2
  {
    var u := SelfTested(t);
    SelfTestEffect(t);
    SelfTestEffect(u);
    var r := WithoutTestRows(t.rows);
    forall i | 0 <= i < |r| ensures r[i].sourceText != "TEST" {
      assert r[i] in r;
    }
    WithoutTestKeepsOthers(r);
  }

  /** `DELETE FROM history`: no rows, but the AUTOINCREMENT counter keeps its value. */
  function Cleared(t: Table): (u: Table)
    requires TableValid(t) && t.present
    ensures TableValid(u) && u.present && u.rows == [] && u.lastId == t.lastId
  {
    t.(rows := [])
  }

  /** Ids are not reused: a row saved after a clear gets a larger id than any row cleared away. */
  lemma IdsNotReusedAfterClear(t: Table, ts: string, src: string, srcLang: string, dst: string, dstLang: string)
    requires TableValid(t) && t.present
    ensures var u := Inserted(Cleared(t), ts, src, srcLang, dst, dstLang);
            forall i :: 0 <= i < |t.rows| ==> t.rows[i].id < u.rows[0].id
  {
  }

  // ---------------------------------------------------------------- listing

  /** Newest first by timestamp text: no row is followed by one whose stamp sorts after its own. */
  predicate NewestFirst(rows: seq<Row>) {
    forall i, j :: 0 <= i < j < |rows| ==> !LexLess(rows[i].timestamp, rows[j].timestamp)
  }

  lemma NotLessTransitive(s: string, t: string, u: string)
    requires !LexLess(s, t) && !LexLess(t, u)
    ensures !LexLess(s, u)
  {
    LexLessTotal(s, t);
    if LexLess(s, u) && s != t {
      LexLessTransitive(t, s, u);
    }
  }

  /** One insertion step of the listing: before the first row that is not newer. */
  function InsertNewestFirst(x: Row, sorted: seq<Row>): (r: seq<Row>)
    ensures multiset(r) == multiset(sorted) + multiset{x}
    ensures |r| == |sorted| + 1
  {
    if sorted == [] then [x]
    else if !LexLess(x.timestamp, sorted[0].timestamp) then [x] + sorted
    else
      assert sorted == [sorted[0]] + sorted[1..];
      [sorted[0]] + InsertNewestFirst(x, sorted[1..])
  }

  lemma {:induction false} InsertKeepsNewestFirst(x: Row, sorted: seq<Row>)
    requires NewestFirst(sorted)
    ensures NewestFirst(InsertNewestFirst(x, sorted))
  {
    var r := InsertNewestFirst(x, sorted);
    if sorted == [] {
    } else if !LexLess(x.timestamp, sorted[0].timestamp) {
      forall j | 0 < j < |r| ensures !LexLess(x.timestamp, r[j].timestamp) {
        if j > 1 {
          NotLessTransitive(x.timestamp, sorted[0].timestamp, r[j].timestamp);
        }
      }
    } else {
      var tail := InsertNewestFirst(x, sorted[1..]);
      InsertKeepsNewestFirst(x, sorted[1..]);
      LexLessAsymmetric(x.timestamp, sorted[0].timestamp);
      forall j | 0 <= j < |tail| ensures !LexLess(sorted[0].timestamp, tail[j].timestamp) {
        assert tail[j] in multiset(tail);
        if tail[j] != x {
          assert tail[j] in sorted[1..];
        }
      }
    }
  }

  /** The result of `SELECT * FROM history ORDER BY timestamp DESC`. */
  function Listing(rows: seq<Row>): (r: seq<Row>)
    ensures multiset(r) == multiset(rows) && |r| == |rows|
  {
    if rows == [] then []
    else
      assert rows == rows[..|rows| - 1] + [rows[|rows| - 1]];
      InsertNewestFirst(rows[|rows| - 1], Listing(rows[..|rows| - 1]))
  }

  /** The listing has every row exactly once, newest first. */
  lemma {:induction false} ListingNewestFirst(rows: seq<Row>)
    ensures NewestFirst(Listing(rows))
  {
    if rows != [] {
      ListingNewestFirst(rows[..|rows| - 1]);
      InsertKeepsNewestFirst(rows[|rows| - 1], Listing(rows[..|rows| - 1]));
    }
  }

  function Reversed(rows: seq<Row>): (r: seq<Row>)
    ensures |r| == |rows|
    ensures forall i :: 0 <= i < |rows| ==> r[i] == rows[|rows| - 1 - i]
  {
    if rows == [] then [] else [rows[|rows| - 1]] + Reversed(rows[..|rows| - 1])
  }

  predicate StampsIncreasing(rows: seq<Row>) {
    forall i, j :: 0 <= i < j < |rows| ==> LexLess(rows[i].timestamp, rows[j].timestamp)
  }

  /** Rows saved one after another with later stamps are listed in reverse order of saving. */
  lemma {:induction false} ListingOfIncreasingStamps(rows: seq<Row>)
    requires StampsIncreasing(rows)
    ensures Listing(rows) == Reversed(rows)
  {
    if rows != [] {
      var init := rows[..|rows| - 1];
      var last := rows[|rows| - 1];
      assert StampsIncreasing(init);
      ListingOfIncreasingStamps(init);
      if init != [] {
        LexLessAsymmetric(init[|init| - 1].timestamp, last.timestamp);
      }
    }
  }

  /**
   * For stamps written by the program, the listing is chronological: a row listed before another
   * was not saved at an earlier moment.
   */
  lemma ListingIsChronological(rows: seq<Row>, i: int, j: int, a: DateTime, b: DateTime)
    requires 0 <= i < j < |rows|
    requires WellFormed(a) && WellFormed(b)
    requires Listing(rows)[i].timestamp == Format(a) && Listing(rows)[j].timestamp == Format(b)
    ensures !Before(a, b)
  {
    ListingNewestFirst(rows);
    FormatOrder(a, b);
  }

  // ---------------------------------------------------------------- failures and messages

  /** How a database call failed: `sqlite3.OperationalError`, or any other exception. */
  datatype Fault = Operational(msg: string) | OtherFault(msg: string)

  /** A dialog: `messagebox.showerror` or `messagebox.showinfo`, with its text. */
  datatype Notice = ErrorBox(text: string) | InfoBox(text: string)

  /** The lower-cased message names a file that cannot be opened or is read-only. */
  predicate PermissionProblem(msg: string) {
    Contains(Lower(msg), "unable to open database") || Contains(Lower(msg), "readonly database")
  }

  /** How one run of `setup_db` went. */
  datatype SetupOutcome =
    | NoDataDir                     // no data directory could be created
    | CreateFailed(fault: Fault)    // connecting or creating the table failed
    | SelfTestFailed(fault: Fault)  // the table was created; the test insert and delete did not commit
    | SetupOk

  function SetupTable(t: Table, outcome: SetupOutcome): (u: Table)
    requires TableValid(t)
    ensures TableValid(u)
    ensures outcome == SetupOk ==> u == SelfTested(t)
    ensures outcome.SelfTestFailed? ==> u == Created(t)
    ensures outcome.NoDataDir? || outcome.CreateFailed? ==> u == t
  {
    match outcome
    case SetupOk => SelfTested(t)
    case SelfTestFailed(_) => Created(t)
    case _ => t
  }

  function SetupNotices(outcome: SetupOutcome): (r: seq<Notice>)
    ensures outcome == SetupOk <==> r == []
    ensures outcome.NoDataDir? ==> r == [ErrorBox("Could not create a data directory in any location")]
    ensures outcome.CreateFailed? || outcome.SelfTestFailed? ==>
              r == [ErrorBox("Failed to initialize database: " + outcome.fault.msg)]
  {
    match outcome
    case SetupOk => []
    case NoDataDir => [ErrorBox("Could not create a data directory in any location")]
    case CreateFailed(f) => [ErrorBox("Failed to initialize database: " + f.msg)]
    case SelfTestFailed(f) => [ErrorBox("Failed to initialize database: " + f.msg)]
  }

  const ReadOnlySave: string :=
    "Cannot save to history: Database is read-only.\nTry running the application with administrator privileges."

  /**
   * The text of the dialog a failed save schedules with `root.after`, when Tk can build it. The
   * callback for an OperationalError that is not a permission problem formats `sql_e`, a name Python
   * unbinds when the `except` clause ends; by the time Tk runs the callback it raises NameError, and
   * no dialog appears.
   */
  function SaveFailureText(fault: Fault): (r: Option<string>)
    ensures fault.Operational? && PermissionProblem(fault.msg) ==> r == Some(ReadOnlySave)
    ensures fault.Operational? && !PermissionProblem(fault.msg) ==> r == None
    ensures fault.OtherFault? ==> r == Some("Failed to save translation to history: " + fault.msg)
  {
    match fault
    case Operational(msg) => if PermissionProblem(msg) then Some(ReadOnlySave) else None
    case OtherFault(msg) => Some("Failed to save translation to history: " + msg)
  }

  /**
   * A failed save as the handlers are written: the shared error counter goes up by one, and a dialog
   * appears only while the counter is at most 2 and its callback can be built.
   */
  function SaveFailure(count: nat, fault: Fault): (r: (nat, Option<Notice>))
    ensures r.0 == count + 1
    ensures r.1.Some? <==> count < 2 && SaveFailureText(fault).Some?
    ensures r.1.Some? ==> r.1.value == ErrorBox(SaveFailureText(fault).value)
  {
    var c := count + 1;
    (c, if c <= 2 && SaveFailureText(fault).Some? then Some(ErrorBox(SaveFailureText(fault).value)) else None)
  }

  /** The dialog text the handlers mean to show, "Database error: " and the message included. */
  function IntendedSaveFailureText(fault: Fault): (r: string)
    ensures SaveFailureText(fault).Some? ==> r == SaveFailureText(fault).value
    ensures fault.Operational? && !PermissionProblem(fault.msg) ==> r == "Database error: " + fault.msg
  {
    match SaveFailureText(fault)
    case Some(text) => text
    case None => "Database error: " + fault.msg
  }

  /** The intended throttle: each of the first two failures in a row shows its dialog, whatever its kind. */
  function IntendedSaveFailure(count: nat, fault: Fault): (r: (nat, Option<Notice>))
    ensures r.0 == count + 1
    ensures r.1.Some? <==> count < 2
    ensures r.1.Some? ==> r.1.value == ErrorBox(IntendedSaveFailureText(fault))
  {
    var c := count + 1;
    (c, if c <= 2 then Some(ErrorBox(IntendedSaveFailureText(fault))) else None)
  }

  /** The handlers as written and as intended agree on every failure whose dialog can be built... */
  lemma IntendedAgreesWhenBuilt(count: nat, fault: Fault)
    requires SaveFailureText(fault).Some?
    ensures SaveFailure(count, fault) == IntendedSaveFailure(count, fault)
  {
  }

  /** ...and differ on the rest: "disk I/O error" counts as a failure but its dialog never shows. */
  lemma DiskErrorShowsNoDialog()
    ensures SaveFailure(0, Operational("disk I/O error")) == (1, None)
    ensures IntendedSaveFailure(0, Operational("disk I/O error"))
            == (1, Some(ErrorBox("Database error: disk I/O error")))
  {
    var m := Lower("disk I/O error");
    assert |m| == 14;
    assert !Contains(m, "unable to open database") && !Contains(m, "readonly database");
    assert "Database error: " + "disk I/O error" == "Database error: disk I/O error";
  }

  function Dialog(n: Option<Notice>): seq<Notice> {
    match n
    case Some(x) => [x]
    case None => []
  }

  /** How many of the faults get a dialog that can be built. */
  function Displayable(faults: seq<Fault>): (n: nat)
    ensures n <= |faults|
  {
    if faults == [] then 0
    else (if SaveFailureText(faults[0]).Some? then 1 else 0) + Displayable(faults[1..])
  }

  lemma {:induction false} AllDisplayable(faults: seq<Fault>)
    requires forall i :: 0 <= i < |faults| ==> SaveFailureText(faults[i]).Some?
    ensures Displayable(faults) == |faults|
  {
    if faults != [] {
      AllDisplayable(faults[1..]);
    }
  }

  /** A run of failed saves: the final counter and how many dialogs appeared. */
  function FailedRun(count: nat, faults: seq<Fault>): (nat, nat)
    decreases |faults|
  {
    if faults == [] then (count, 0)
    else
      var step := SaveFailure(count, faults[0]);
      var rest := FailedRun(step.0, faults[1..]);
      (rest.0, rest.1 + |Dialog(step.1)|)
  }

  function Min(a: int, b: int): int {
    if a <= b then a else b
  }

  /**
   * The throttle over a run of failures of any kinds: the counter grows by one per failure, and only
   * the first 2 - count failures of the run may show a dialog, each one whose dialog can be built.
   */
  lemma {:induction false} FailedRunDialogs(count: nat, faults: seq<Fault>)
    ensures FailedRun(count, faults).0 == count + |faults|
    ensures FailedRun(count, faults).1 == Displayable(faults[..if count >= 2 then 0 else Min(2 - count, |faults|)])
    decreases |faults|
  {
    if faults != [] {
      FailedRunDialogs(count + 1, faults[1..]);
      if count < 2 {
        var k := Min(2 - count, |faults|);
        assert faults[..k][0] == faults[0] && faults[..k][1..] == faults[1..][..k - 1];
      }
    }
  }

  /**
   * A run that starts after a success (counter 0) shows at most min(n, 2) dialogs, and exactly that
   * many when every dialog of the run can be built.
   */
  lemma AtMostTwoDialogsPerRun(faults: seq<Fault>)
    ensures FailedRun(0, faults).1 <= Min(|faults|, 2)
    ensures (forall i :: 0 <= i < |faults| ==> SaveFailureText(faults[i]).Some?)
            ==> FailedRun(0, faults).1 == Min(|faults|, 2)
  {
    FailedRunDialogs(0, faults);
    var prefix := faults[..Min(2, |faults|)];
    if forall i :: 0 <= i < |faults| ==> SaveFailureText(faults[i]).Some? {
      assert forall i :: 0 <= i < |prefix| ==> prefix[i] == faults[i];
      AllDisplayable(prefix);
    }
  }

  /**
   * How the `try` block of `save_to_history` ended. `CREATE TABLE` runs outside a transaction, so it
   * is kept even when the insert after it fails; a fault raised after `commit` leaves the row stored.
   */
  datatype SaveRun =
    | Saved                             // the row was committed and the rest of the block ran
    | FailedToOpen(fault: Fault)        // `connect` or `CREATE TABLE` raised
    | FailedToInsert(fault: Fault)      // the insert or the commit raised
    | FailedAfterCommit(fault: Fault)   // closing, printing or reading the current tab raised

  /** The part of a save after the path check: the insert, the failure, or both. */
  function Written(t: Table, count: nat, stamp: string, sourceText: string, sourceLang: string,
                   translatedText: string, targetLang: string, run: SaveRun)
    : (r: (Table, nat, seq<Notice>))
    requires TableValid(t)
    ensures TableValid(r.0)
    ensures run.Saved? ==> r.1 == 0 && r.2 == []
    ensures !run.Saved? ==> r.1 == count + 1 && r.2 == Dialog(SaveFailure(count, run.fault).1)
    ensures run.FailedToOpen? ==> r.0 == t
    ensures run.FailedToInsert? ==> r.0 == Created(t)
    ensures run.Saved? || run.FailedAfterCommit?
            ==> r.0 == Inserted(Created(t), stamp, sourceText, sourceLang, translatedText, targetLang)
  {
    var stored := Inserted(Created(t), stamp, sourceText, sourceLang, translatedText, targetLang);
    match run
    case Saved => (stored, 0, [])
    case FailedToOpen(f) =>
      var step := SaveFailure(count, f);
      (t, step.0, Dialog(step.1))
    case FailedToInsert(f) =>
      var step := SaveFailure(count, f);
      (Created(t), step.0, Dialog(step.1))
    case FailedAfterCommit(f) =>
      var step := SaveFailure(count, f);
      (stored, step.0, Dialog(step.1))
  }

  /**
   * What `save_to_history` leaves behind: the table, whether the path is known, the error counter
   * and the dialogs shown. `setup` is how `setup_db` goes if it has to be run again.
   */
  function SaveEffect(t: Table, available: bool, count: nat, stamp: string, sourceText: string,
                      sourceLang: string, translatedText: string, targetLang: string,
                      setup: SetupOutcome, run: SaveRun): (r: (Table, bool, nat, seq<Notice>))
    requires TableValid(t)
    ensures TableValid(r.0)
    ensures r.1 == (available || setup == SetupOk)
    ensures !r.1 ==> r == (SetupTable(t, setup), false, count, SetupNotices(setup))
  {
    var start := if available then t else SetupTable(t, setup);
    var pre := if available then [] else SetupNotices(setup);
    if !available && setup != SetupOk then (start, false, count, pre)
    else
      var w := Written(start, count, stamp, sourceText, sourceLang, translatedText, targetLang, run);
      (w.0, true, w.1, pre + w.2)
  }

  /** The rows a save works on: after the self-test when `setup_db` had to run again. */
  function RowsBeforeSave(t: Table, available: bool): seq<Row> {
    if available then t.rows else WithoutTestRows(t.rows)
  }

  /** With the path known, a successful save appends one row under the next id... */
  lemma SaveWithPathAppends(t: Table, count: nat, stamp: string, sourceText: string, sourceLang: string,
                            translatedText: string, targetLang: string, setup: SetupOutcome)
    requires TableValid(t)
    ensures var r := SaveEffect(t, true, count, stamp, sourceText, sourceLang, translatedText, targetLang,
                                setup, Saved);
            r.0.rows == t.rows + [Row(t.lastId + 1, stamp, sourceText, sourceLang, translatedText, targetLang)]
            && r.0.lastId == t.lastId + 1
  {
    SaveWithPathInserts(t, count, stamp, sourceText, sourceLang, translatedText, targetLang, setup);
    CreatedThenInserted(t, stamp, sourceText, sourceLang, translatedText, targetLang);
  }

  /** The create-if-absent followed by the insert: the old rows and the new one under the next id. */
  lemma CreatedThenInserted(t: Table, stamp: string, sourceText: string, sourceLang: string,
                            translatedText: string, targetLang: string)
    requires TableValid(t)
    ensures var u := Inserted(Created(t), stamp, sourceText, sourceLang, translatedText, targetLang);
            u.rows == t.rows + [Row(t.lastId + 1, stamp, sourceText, sourceLang, translatedText, targetLang)]
            && u.lastId == t.lastId + 1
  {
    var c := Created(t);
    assert c == t.(present := true);
    assert Inserted(c, stamp, sourceText, sourceLang, translatedText, targetLang)
        == c.(rows := t.rows + [Row(t.lastId + 1, stamp, sourceText, sourceLang, translatedText, targetLang)],
              lastId := t.lastId + 1);
  }

  /** With the path known and no fault, a save is `CREATE TABLE IF NOT EXISTS` and then the insert. */
  lemma SaveWithPathInserts(t: Table, count: nat, stamp: string, sourceText: string, sourceLang: string,
                            translatedText: string, targetLang: string, setup: SetupOutcome)
    requires TableValid(t)
    ensures SaveEffect(t, true, count, stamp, sourceText, sourceLang, translatedText, targetLang, setup, Saved)
            == (Inserted(Created(t), stamp, sourceText, sourceLang, translatedText, targetLang), true, 0, [])
  {
    var w := Written(t, count, stamp, sourceText, sourceLang, translatedText, targetLang, Saved);
    assert [] + w.2 == [];
  }

  /** ...resets the counter and shows no dialog. */
  lemma SaveWithPathResets(t: Table, count: nat, stamp: string, sourceText: string, sourceLang: string,
                           translatedText: string, targetLang: string, setup: SetupOutcome)
    requires TableValid(t)
    ensures var r := SaveEffect(t, true, count, stamp, sourceText, sourceLang, translatedText, targetLang,
                                setup, Saved);
            r.1 && r.2 == 0 && r.3 == []
  {
  }

  /** A save that first has to run a successful `setup_db` is a save on the self-tested table. */
  lemma SaveAfterSetup(t: Table, count: nat, stamp: string, sourceText: string, sourceLang: string,
                       translatedText: string, targetLang: string, run: SaveRun)
    requires TableValid(t)
    ensures SaveEffect(t, false, count, stamp, sourceText, sourceLang, translatedText, targetLang, SetupOk, run)
            == SaveEffect(SelfTested(t), true, count, stamp, sourceText, sourceLang, translatedText, targetLang,
                          SetupOk, run)
  {
  }

  /**
   * A successful save appends exactly one row, made of the given values, under an id above every id
   * in the table; the counter is reset, and no dialog is shown.
   */
  lemma SaveAppendsRow(t: Table, available: bool, count: nat, stamp: string, sourceText: string,
                       sourceLang: string, translatedText: string, targetLang: string, setup: SetupOutcome)
    requires TableValid(t) && (available || setup == SetupOk)
    ensures var r := SaveEffect(t, available, count, stamp, sourceText, sourceLang, translatedText, targetLang,
                                setup, Saved);
            var base := RowsBeforeSave(t, available);
            var id := if available then t.lastId + 1 else t.lastId + 2;
            r.0.rows == base + [Row(id, stamp, sourceText, sourceLang, translatedText, targetLang)]
            && (forall i :: 0 <= i < |base| ==> base[i].id < id)
            && r.1 && r.2 == 0 && r.3 == []
  {
    if available {
      SaveWithPathInserts(t, count, stamp, sourceText, sourceLang, translatedText, targetLang, setup);
      CreatedThenInserted(t, stamp, sourceText, sourceLang, translatedText, targetLang);
    } else {
      SaveAfterSetupAppends(t, count, stamp, sourceText, sourceLang, translatedText, targetLang);
    }
  }

  /** The same when `setup_db` has to run first: the self-test used one id, so the row gets the next. */
  lemma SaveAfterSetupAppends(t: Table, count: nat, stamp: string, sourceText: string, sourceLang: string,
                              translatedText: string, targetLang: string)
    requires TableValid(t)
    ensures var r := SaveEffect(t, false, count, stamp, sourceText, sourceLang, translatedText, targetLang,
                                SetupOk, Saved);
            var base := WithoutTestRows(t.rows);
            r.0.rows == base + [Row(t.lastId + 2, stamp, sourceText, sourceLang, translatedText, targetLang)]
            && (forall i :: 0 <= i < |base| ==> base[i].id < t.lastId + 2)
            && r.1 && r.2 == 0 && r.3 == []
  {
    var u := SelfTested(t);
    SaveAfterSetup(t, count, stamp, sourceText, sourceLang, translatedText, targetLang, Saved);
    SelfTestEffect(t);
    SaveWithPathAppends(u, count, stamp, sourceText, sourceLang, translatedText, targetLang, SetupOk);
    SaveWithPathResets(u, count, stamp, sourceText, sourceLang, translatedText, targetLang, SetupOk);
  }

  lemma InsertedAppends(t: Table, stamp: string, sourceText: string, sourceLang: string,
                        translatedText: string, targetLang: string)
    requires TableValid(t) && t.present
    ensures var u := Inserted(t, stamp, sourceText, sourceLang, translatedText, targetLang);
            u.rows == t.rows + [Row(u.lastId, stamp, sourceText, sourceLang, translatedText, targetLang)]
  {
    var u := Inserted(t, stamp, sourceText, sourceLang, translatedText, targetLang);
    assert u.rows == u.rows[..|t.rows|] + [u.rows[|t.rows|]];
  }

  /**
   * A save that fails before its commit, of any kind, leaves the rows alone and counts one more
   * failure; its dialog appears only for the first two failures in a row, and only when it can be built.
   */
  lemma FailedSaveKeepsRows(t: Table, available: bool, count: nat, stamp: string, sourceText: string,
                            sourceLang: string, translatedText: string, targetLang: string,
                            setup: SetupOutcome, run: SaveRun)
    requires TableValid(t) && (available || setup == SetupOk)
    requires run.FailedToOpen? || run.FailedToInsert?
    ensures var r := SaveEffect(t, available, count, stamp, sourceText, sourceLang, translatedText, targetLang,
                                setup, run);
            var pre := if available then [] else SetupNotices(setup);
            r.0.rows == RowsBeforeSave(t, available) && r.1 && r.2 == count + 1
            && r.3 == pre + (if count < 2 && SaveFailureText(run.fault).Some?
                             then [ErrorBox(SaveFailureText(run.fault).value)] else [])
  {
    if !available {
      SelfTestEffect(t);
    }
  }

  /**
   * A save that fails after its commit keeps the new row, yet counts as a failure: the counter goes
   * up instead of being reset, and the failure dialog may appear.
   */
  lemma LateFailureKeepsRow(t: Table, count: nat, stamp: string, sourceText: string, sourceLang: string,
                            translatedText: string, targetLang: string, setup: SetupOutcome, f: Fault)
    requires TableValid(t)
    ensures var r := SaveEffect(t, true, count, stamp, sourceText, sourceLang, translatedText, targetLang,
                                setup, FailedAfterCommit(f));
            r.0.rows == t.rows + [Row(t.lastId + 1, stamp, sourceText, sourceLang, translatedText, targetLang)]
            && r.1 && r.2 == count + 1 && r.3 == Dialog(SaveFailure(count, f).1)
  {
    CreatedThenInserted(t, stamp, sourceText, sourceLang, translatedText, targetLang);
    var w := Written(t, count, stamp, sourceText, sourceLang, translatedText, targetLang, FailedAfterCommit(f));
    assert [] + w.2 == w.2;
  }

  /** Without a database path even after `setup_db`, nothing is saved and the counter is not touched. */
  lemma SaveWithoutPath(t: Table, count: nat, stamp: string, sourceText: string, sourceLang: string,
                        translatedText: string, targetLang: string, setup: SetupOutcome, run: SaveRun)
    requires TableValid(t) && setup != SetupOk
    ensures var r := SaveEffect(t, false, count, stamp, sourceText, sourceLang, translatedText, targetLang,
                                setup, run);
            r.0.rows == t.rows && !r.1 && r.2 == count && r.3 == SetupNotices(setup)
  {
  }

  // ---------------------------------------------------------------- the history view

  /** A line of the history view: a listed row, or a one-cell message in the source-text column. */
  datatype Line =
    | Shown(id: int, timestamp: string, source: string, sourceName: string, translated: string, targetName: string)
    | Placeholder(message: string)

  /** A listed row: texts cut to 30 characters, language codes replaced by their names. */
  function Display(row: Row): (l: Line)
    ensures l == Shown(row.id, row.timestamp, Cell(row.sourceText), LanguageName(row.sourceLang),
                       Cell(row.translatedText), LanguageName(row.targetLang))
    ensures l.Shown? && l.id == row.id && l.timestamp == row.timestamp
    ensures |l.source| <= 33 && |l.translated| <= 33
    ensures |row.sourceText| <= 30 ==> l.source == row.sourceText
    ensures |row.translatedText| <= 30 ==> l.translated == row.translatedText
  {
    Shown(row.id, row.timestamp, Cell(row.sourceText), LanguageName(row.sourceLang),
          Cell(row.translatedText), LanguageName(row.targetLang))
  }

  /** The loop that fills the view, one line per listed row. */
  method Render(listing: seq<Row>) returns (lines: seq<Line>)
    ensures |lines| == |listing|
    ensures forall i :: 0 <= i < |lines| ==> lines[i] == Display(listing[i])
  {
    lines := [];
    var i := 0;
    while i < |listing|
      invariant 0 <= i <= |listing| && |lines| == i
      invariant forall k :: 0 <= k < i ==> lines[k] == Display(listing[k])
    {
      lines := lines + [Display(listing[i])];
      i := i + 1;
    }
  }

  /** What a load shows: rows of the listing, or one message. */
  datatype View = Listed(rows: seq<Row>) | Message(text: string)

  const NoHistoryYet: string := "No history yet - Start translating to create entries"

  function LoadFailureText(fault: Fault): (r: string)
    ensures fault.Operational? && Contains(Lower(fault.msg), "no such table") ==> r == NoHistoryYet
    ensures fault.Operational? && !Contains(Lower(fault.msg), "no such table") && PermissionProblem(fault.msg)
            ==> r == "Cannot access history database - Permission error"
    ensures fault.Operational? && !Contains(Lower(fault.msg), "no such table") && !PermissionProblem(fault.msg)
            ==> r == "Database error: " + Prefix(fault.msg, 100)
    ensures fault.OtherFault? ==> r == "Error loading history: " + Prefix(fault.msg, 100)
    ensures |r| <= 123
  {
    match fault
    case Operational(msg) =>
      if Contains(Lower(msg), "no such table") then NoHistoryYet
      else if PermissionProblem(msg) then "Cannot access history database - Permission error"
      else "Database error: " + Prefix(msg, 100)
    case OtherFault(msg) => "Error loading history: " + Prefix(msg, 100)
  }

  /** `load_history` once the database path is known; `fault` is what the query raised, if anything. */
  function LoadView(t: Table, fault: Option<Fault>): (v: View)
    ensures fault.Some? ==> v == Message(LoadFailureText(fault.value))
    ensures fault.None? && !t.present ==> v == Message(NoHistoryYet)
    ensures fault.None? && t.present && t.rows == [] ==> v == Message("No translation history available")
    ensures fault.None? && t.present && t.rows != [] ==> v == Listed(Listing(t.rows))
  {
    match fault
    case Some(f) => Message(LoadFailureText(f))
    case None =>
      if !t.present then Message(NoHistoryYet)
      else if t.rows == [] then Message("No translation history available")
      else Listed(Listing(t.rows))
  }

  /** A missing table shows the same line as the error SQLite raises for it would. */
  lemma MissingTableMessage(msg: string)
    requires msg == "no such table: history"
    ensures LoadFailureText(Operational(msg)) == NoHistoryYet
  {
    assert Lower(msg) == msg;
    assert OccursAt(msg, "no such table", 0) by { assert msg[0..13] == "no such table"; }
    ContainsMeansOccurs(msg, "no such table");
  }

  /** A successful load of a non-empty table lists each row once, newest first. */
  lemma LoadListsEveryRow(t: Table)
    requires t.present && t.rows != []
    ensures LoadView(t, None).Listed?
    ensures multiset(LoadView(t, None).rows) == multiset(t.rows)
    ensures NewestFirst(LoadView(t, None).rows)
  {
    ListingNewestFirst(t.rows);
  }

  /** The lines a view puts in the tree. */
  predicate Shows(lines: seq<Line>, v: View) {
    match v
    case Message(m) => lines == [Placeholder(m)]
    case Listed(l) => |lines| == |l| && forall i :: 0 <= i < |lines| ==> lines[i] == Display(l[i])
  }

  function ClearFailureText(fault: Fault): (r: string)
    ensures fault.Operational? && PermissionProblem(fault.msg)
            ==> r == "Cannot clear history: Permission error. Try running as administrator."
    ensures fault.Operational? && !PermissionProblem(fault.msg) ==> r == "Database error: " + fault.msg
    ensures fault.OtherFault? ==> r == "Failed to clear history: " + fault.msg
  {
    match fault
    case Operational(msg) =>
      if PermissionProblem(msg) then "Cannot clear history: Permission error. Try running as administrator."
      else "Database error: " + msg
    case OtherFault(msg) => "Failed to clear history: " + msg
  }

  /** How the `try` block of a confirmed clear ended. */
  datatype ClearRun =
    | Finished                                // the block ran to its end
    | RaisedEarly(fault: Fault)               // `connect`, the table check, the DELETE or the commit raised
    | RaisedLate(fault: Fault, refreshed: bool)
      // closing, printing or a final dialog raised once the check (and any commit) had succeeded;
      // `refreshed` says the refresh of the view had already run

  /**
   * The table after a confirmed clear with the path known, and the one dialog it shows. Once the
   * commit has run, a later exception still reports an error although the rows are gone.
   */
  function ClearStep(t: Table, run: ClearRun): (r: (Table, Notice))
    requires TableValid(t)
    ensures TableValid(r.0)
    ensures run.RaisedEarly? ==> r == (t, ErrorBox(ClearFailureText(run.fault)))
    ensures !run.RaisedEarly? && !t.present ==> r.0 == t
    ensures !run.RaisedEarly? && t.present ==> r.0 == Cleared(t)
    ensures run.RaisedLate? ==> r.1 == ErrorBox(ClearFailureText(run.fault))
    ensures run.Finished? && !t.present ==> r.1 == InfoBox("No history exists yet to clear")
    ensures run.Finished? && t.present ==> r.1 == InfoBox("Translation history cleared successfully")
  {
    match run
    case RaisedEarly(f) => (t, ErrorBox(ClearFailureText(f)))
    case RaisedLate(f, _) => (if t.present then Cleared(t) else t, ErrorBox(ClearFailureText(f)))
    case Finished =>
      if t.present then (Cleared(t), InfoBox("Translation history cleared successfully"))
      else (t, InfoBox("No history exists yet to clear"))
  }

  /** Whether a confirmed clear refreshes the history view: only after the rows were deleted. */
  predicate Refreshes(t: Table, run: ClearRun) {
    t.present && (run.Finished? || (run.RaisedLate? && run.refreshed))
  }

  /**
   * A fault after the commit shows an error dialog, yet the history is gone: the next load finds
   * the table empty.
   */
  lemma LateClearFailureEmptiesHistory(t: Table, fault: Fault, refreshed: bool)
    requires TableValid(t) && t.present
    ensures var r := ClearStep(t, RaisedLate(fault, refreshed));
            r.1.ErrorBox? && r.0.rows == []
            && LoadView(r.0, None) == Message("No translation history available")
  {
  }

  // ---------------------------------------------------------------- the store

  /**
   * The history side of the application: the database file, whether its path is known (`db_path`
   * set), and the save-error counter `_db_error_count`.
   */
  class HistoryStore {
    var table: Table
    var available: bool
    var errorCount: nat

    predicate Valid()
      reads this
    {
      TableValid(table)
    }

    /** The store before `setup_db` has run, over the file as it is found. */
    constructor (existing: Table)
      requires TableValid(existing)
      ensures Valid() && table == existing && !available && errorCount == 0
    {
      table := existing;
      available := false;
      errorCount := 0;
    }

    /** `setup_db`: the path is kept only when the table and the self-test succeed. */
    method Setup(outcome: SetupOutcome) returns (notices: seq<Notice>)
      requires Valid()
      modifies this
      ensures Valid()
      ensures table == SetupTable(old(table), outcome) && available == (outcome == SetupOk)
      ensures notices == SetupNotices(outcome) && errorCount == old(errorCount)
    {
      notices := SetupNotices(outcome);
      match outcome {
        case SetupOk =>
          table := Created(table);
          table := Inserted(table, "TEST", "TEST", "en", "TEST", "en");
          table := DeletedTestRows(table);
          available := true;
        case SelfTestFailed(_) =>
          table := Created(table);
          available := false;
        case _ =>
          available := false;
      }
    }

    /** The step every operation starts with: run `setup_db` again when no path is known. */
    method Open(setup: SetupOutcome) returns (notices: seq<Notice>)
      requires Valid()
      modifies this
      ensures Valid() && errorCount == old(errorCount)
      ensures old(available) ==> table == old(table) && available && notices == []
      ensures !old(available) ==> table == SetupTable(old(table), setup) && available == (setup == SetupOk)
                                  && notices == SetupNotices(setup)
    {
      if available {
        notices := [];
      } else {
        notices := Setup(setup);
      }
    }

    /** `save_to_history`; `run` is how its `try` block ended. */
    method Save(now: DateTime, sourceText: string, sourceLang: string, translatedText: string,
                targetLang: string, setup: SetupOutcome, run: SaveRun)
      returns (notices: seq<Notice>)
      requires Valid() && WellFormed(now)
      modifies this
      ensures Valid()
      ensures var r := SaveEffect(old(table), old(available), old(errorCount), Format(now), sourceText, sourceLang,
                                  translatedText, targetLang, setup, run);
              table == r.0 && available == r.1 && errorCount == r.2 && notices == r.3
    {
      notices := Open(setup);
      if !available {
        assert setup != SetupOk && !old(available);
        return;
      }
      var more := Write(Format(now), sourceText, sourceLang, translatedText, targetLang, run);
      notices := notices + more;
    }

    /** The `try` block and its handlers with the path known: the row, the failure, or both. */
    method Write(timestamp: string, sourceText: string, sourceLang: string, translatedText: string,
                 targetLang: string, run: SaveRun)
      returns (more: seq<Notice>)
      requires Valid() && available
      modifies this
      ensures Valid() && available
      ensures var r := Written(old(table), old(errorCount), timestamp, sourceText, sourceLang, translatedText,
                               targetLang, run);
              table == r.0 && errorCount == r.1 && more == r.2
    {
      match run {
        case Saved =>
          table := Created(table);
          table := Inserted(table, timestamp, sourceText, sourceLang, translatedText, targetLang);
          errorCount := 0;
          more := [];
        case FailedToOpen(f) =>
          more := CountFailure(f);
        case FailedToInsert(f) =>
          table := Created(table);
          more := CountFailure(f);
        case FailedAfterCommit(f) =>
          table := Created(table);
          table := Inserted(table, timestamp, sourceText, sourceLang, translatedText, targetLang);
          more := CountFailure(f);
      }
    }

    /** A handler of `save_to_history`: one more failure, and the dialog it schedules if Tk can show it. */
    method CountFailure(fault: Fault) returns (more: seq<Notice>)
      modifies this
      ensures table == old(table) && available == old(available)
      ensures errorCount == old(errorCount) + 1 && more == Dialog(SaveFailure(old(errorCount), fault).1)
    {
      errorCount := errorCount + 1;
      more := [];
      var text := SaveFailureText(fault);
      if errorCount <= 2 && text.Some? {
        more := [ErrorBox(text.value)];
      }
    }

    /** `load_history`: the lines the history view ends up with. */
    method Load(setup: SetupOutcome, fault: Option<Fault>) returns (notices: seq<Notice>, lines: seq<Line>)
      requires Valid()
      modifies this
      ensures Valid() && errorCount == old(errorCount)
      ensures old(available) ==> table == old(table) && available && notices == []
      ensures !old(available) ==> table == SetupTable(old(table), setup) && available == (setup == SetupOk)
                                  && notices == SetupNotices(setup)
      ensures !available ==> lines == [Placeholder("History unavailable - Database not accessible")]
      ensures available ==> Shows(lines, LoadView(table, fault))
    {
      notices := Open(setup);
      if !available {
        lines := [Placeholder("History unavailable - Database not accessible")];
        return;
      }
      lines := ViewLines(fault);
    }

    /** The query and the loop over its rows, with the path known. */
    method ViewLines(fault: Option<Fault>) returns (lines: seq<Line>)
      requires Valid()
      ensures Shows(lines, LoadView(table, fault))
    {
      match fault {
        case Some(f) =>
          lines := [Placeholder(LoadFailureText(f))];
        case None =>
          if !table.present {
            lines := [Placeholder(NoHistoryYet)];
          } else {
            var historyData := Listing(table.rows);
            lines := Render(historyData);
            if |historyData| == 0 {
              lines := lines + [Placeholder("No translation history available")];
            }
          }
      }
    }

    /**
     * `clear_history`: `confirmed` is the answer to the confirmation dialog, `run` how the `try`
     * block ended, `reloadFault` what the refresh after the delete raised.
     */
    method Clear(setup: SetupOutcome, confirmed: bool, run: ClearRun, reloadFault: Option<Fault>)
      returns (notices: seq<Notice>, lines: Option<seq<Line>>)
      requires Valid()
      modifies this
      ensures Valid() && errorCount == old(errorCount)
      ensures var start := if old(available) then old(table) else SetupTable(old(table), setup);
              var pre := if old(available) then [] else SetupNotices(setup);
              if !available then
                table == start && lines.None?
                && notices == pre + [ErrorBox("Cannot clear history: Database not accessible")]
              else if !confirmed then
                table == start && lines.None? && notices == pre
              else
                table == ClearStep(start, run).0 && notices == pre + [ClearStep(start, run).1]
                && lines.Some? == Refreshes(start, run)
                && (lines.Some? ==> Shows(lines.value, LoadView(table, reloadFault)))
      ensures available == (old(available) || setup == SetupOk)
    {
      notices := Open(setup);
      lines := None;
      if !available {
        notices := notices + [ErrorBox("Cannot clear history: Database not accessible")];
        return;
      }
      if !confirmed {
        return;
      }
      var more;
      more, lines := Delete(run, reloadFault);
      notices := notices + more;
    }

    /** The confirmed delete with the path known, and the refresh after it. */
    method Delete(run: ClearRun, reloadFault: Option<Fault>)
      returns (more: seq<Notice>, lines: Option<seq<Line>>)
      requires Valid() && available
      modifies this
      ensures Valid() && available && errorCount == old(errorCount)
      ensures table == ClearStep(old(table), run).0 && more == [ClearStep(old(table), run).1]
      ensures lines.Some? == Refreshes(old(table), run)
      ensures lines.Some? ==> Shows(lines.value, LoadView(table, reloadFault))
    {
      lines := None;
      match run {
        case RaisedEarly(f) =>
          more := [ErrorBox(ClearFailureText(f))];
        case RaisedLate(f, refreshed) =>
          if table.present {
            table := Cleared(table);
            if refreshed {
              var shown := ViewLines(reloadFault);
              lines := Some(shown);
            }
          }
          more := [ErrorBox(ClearFailureText(f))];
        case Finished =>
          if !table.present {
            more := [InfoBox("No history exists yet to clear")];
          } else {
            table := Cleared(table);
            var shown := ViewLines(reloadFault);
            lines := Some(shown);
            more := [InfoBox("Translation history cleared successfully")];
          }
      }
    }
  }
}
