# Voice translator: verified model of the translation pipeline

This project models the core of a desktop voice translator written in Python (`voice_translator.py`).
The program listens on the microphone, transcribes each utterance, detects its language and translates it
to the language picked in a combobox. It shows the result and appends it to a SQLite history table.

The model covers the parts of that script that decide something:

- **Interpretation** (`interpretation.dfy`). `translator.translate(...)` returns an untyped value. Here that
  value is a closed `Response` datatype: a coroutine, an object that may have `__dict__` and may have `.text`,
  a plain string, a dict that may have a `"text"` key, or anything else. Each variant carries its `str(...)`.
  `Classify` is the priority-ordered test of the source. `ExtractTextField` is the `text=` parser.
  `Interpret` adds the two places where the fallback translator is called and the exception handlers around them.
- **Fallback translator** (`fallback.dfy`). It tries a phrase table, then a direct HTTP request, then a
  fixed message. The HTTP call is a parameter: a function from the request to its outcome (an exception,
  or a status code with a JSON body). The `+=` loop over the reply's segments is the method `ConcatSegments`.
  It is proved equal to the function `Joined`, and that function is proved equal to the reference
  concatenation `FirstTexts`.
- **History store** (`history.dfy`, `timestamp.dfy`). The `history` table is a value: whether the table
  exists, its rows in insertion order, and the AUTOINCREMENT counter. On top of it sit the `setup_db`
  self-test, save, load, clear, the display of a row, and the save-error throttle `_db_error_count`. The
  class `HistoryStore` holds the table, the "database path known" flag and the counter, and updates them
  in place. `timestamp.dfy` proves that, for stamps in the format `%Y-%m-%d %H:%M:%S`, text order is the
  same as chronological order. That is why `ORDER BY timestamp DESC` lists the newest row first.
- **Session controller** (`session.dfy`). The class `App` holds `is_listening`, the stop event, `last_audio`,
  the enabled state of the "process last audio" button, the status line and the two text boxes.
  `ToggleListening`, the capture loop `ListenLoop`, `ProcessAudio`, `ProcessLastAudio` and `OnClosing`
  update those fields. Each call to `recognizer.listen` is an event (`Capture`). The recogniser, the
  language detector, the translator and the HTTP endpoint are the `Backends` parameter.
- **Helpers** (`pystr.dfy`, `pyjson.dfy`, `truncation.dfy`, `languages.dfy`). These are the Python string
  and JSON operations the code relies on, the 100/50/30-character truncations, the 30-language table,
  and reading the target code back from a combobox entry.

Where the design description and the code disagree, the model follows the code:

- The design says interpretation always ends in a non-empty string. The code passes an empty plain-string
  reply through unchanged, and also an empty quoted `text=''` field. `EmptyStringPassesThrough` and
  `EmptyFieldPassesThrough` prove this.
- The design says database notices are limited to two per error category. The code keeps one counter,
  `_db_error_count`, for every kind of save failure, and a success resets it. `SaveFailure` and
  `FailedRunDialogs` follow the code. One kind of failure never shows its notice at all (see "## Findings").
- The design treats a failed save as one that stored nothing. In the code, a fault raised after the
  commit (closing the connection, logging, reading the current tab) still counts as a failure although the
  row is stored (`LateFailureKeepsRow`).
- When two rows have the same timestamp text, `ORDER BY timestamp DESC` leaves their order to SQLite.
  The model's `Listing` puts the later-saved row first; SQLite's sorter may keep scan order instead.
  Only rows with distinct stamps have a fixed order (`ListingOfIncreasingStamps`).
- Start-up runs `setup_db` twice: once from `load_history` at the end of the history tab, once more
  from `setup_ui`. Two self-tests use up two ids, and a failure shows its dialog twice (`App.Startup`).
- The design describes a generic clear-all. The code's clear does nothing when the table is missing, and
  keeps the AUTOINCREMENT counter, so ids are never reused (`IdsNotReusedAfterClear`). An exception after
  the commit (closing, printing, the refresh or the success dialog) shows the error dialog although the
  rows are gone (`LateClearFailureEmptiesHistory`).
- The `setup_db` self-test deletes every row whose `source_text` is `'TEST'`, not only the row it
  inserted. It also uses up one id (`SelfTestEffect`).
- Starting while already listening cannot happen: `toggle_listening` is one button that alternates
  between start and stop (`Toggle`).

## Model

| member | source | states |
|---|---|---|
| `Truncation.TruncateStatus` | voice_translator.py:577-580 | at most 100 characters; a message of at most 100 is unchanged; a longer one is its first 97 characters followed by "..." |
| `Truncation.TruncateStatusIdempotent` | voice_translator.py:734-736 | truncating an already truncated status message changes nothing |
| `Truncation.StatusError` | voice_translator.py:733-737 | the error status line is "Status: Error - " and the message when it has at most 100 characters, otherwise its first 97 characters and "..." |
| `Truncation.Excerpt` | voice_translator.py:711 | `str(e)[:50]`: the whole error text when it has at most 50 characters, its first 50 characters otherwise |
| `Truncation.Cell` | voice_translator.py:923-924 | a history cell has at most 33 characters; text of at most 30 is kept, longer text keeps its first 30 and ends in "..." |
| `PyStr.Find` | voice_translator.py:685-687 | `str.find`: -1 exactly when the pattern occurs nowhere from the start index, else the first occurrence from there |
| `PyStr.FindIsTheFirst` | voice_translator.py:687 | any index that is the first occurrence is the one `Find` returns |
| `PyStr.ContainsMeansOccurs` | voice_translator.py:643-646 | `p in s` holds exactly when `p` occurs at some index of `s` |
| `PyStr.Strip` | voice_translator.py:689 | `str.strip()`: a slice of the input with only white space cut off either end, and no white space left at either end |
| `PyStr.StripKeepsUnpadded` | voice_translator.py:618 | a text without white space at either end is not changed by `strip()` |
| `PyStr.Lower` | voice_translator.py:1042 | `str.lower()` maps each ASCII capital to its small letter and keeps every other character, at the same length |
| `PyStr.BeforeFirst` | voice_translator.py:618 | `split(sep)[0]`: the longest prefix without the separator, which is followed by the separator when it is shorter than the input |
| `PyJson.Len` | voice_translator.py:1067 | `len(x)` is defined for strings, lists and objects only, and is positive exactly when the value is truthy |
| `PyJson.First` | voice_translator.py:1067 | `x[0]` succeeds only on a non-empty string or list |
| `PyJson.Iterate` | voice_translator.py:1070 | iteration is defined for strings, lists and objects only, with one element per `len` |
| `PyJson.AppendText` | voice_translator.py:1072 | `translated += x` succeeds only for a string `x` and then appends it |
| `Languages.LanguageName` | voice_translator.py:614 | `LANGUAGES.get(code, "Unknown")`: the listed name of a listed code, "Unknown" for any other code |
| `Languages.UnknownExactlyForUnlisted` | voice_translator.py:927-928 | the name "Unknown" is shown exactly for the codes that are not in the table |
| `Languages.NamesHasCodes` | voice_translator.py:17-48 | the table lists exactly the 30 codes |
| `Languages.TargetCode` | voice_translator.py:618 | the target code read from the selection has no colon and is no longer than the selection |
| `Languages.TargetCodeOfJoined` | voice_translator.py:618 | for a code without a colon or surrounding white space, `(code + ":" + rest).split(":")[0].strip()` is the code |
| `Languages.EntryRoundTrip` | voice_translator.py:208 | every combobox entry "code: Name" reads back as its own code, and so as its own display name |
| `Languages.DefaultSelectionIsHindi` | voice_translator.py:214 | the initial selection "hi: Hindi" targets "hi" |
| `Fallback.PhraseLookup` | voice_translator.py:1042-1044 | a hit exactly when the lower-cased text is a table phrase with an entry for the target, and the hit is that entry |
| `Fallback.PhraseTableKeys` | voice_translator.py:1032-1039 | the table has exactly the six phrases |
| `Fallback.PhraseTableTargets` | voice_translator.py:1033-1038 | every phrase has exactly the targets hi, es, fr and de |
| `Fallback.Unavailable` | voice_translator.py:1078 | the "Translation unavailable" message contains the untranslated text, right after its opening quote |
| `Fallback.FailureMessage` | voice_translator.py:1080-1082 | the outer handler's message is "Translation failed: " and the error text when it has at most 50 characters, otherwise its first 50 characters |
| `Fallback.Segments` | voice_translator.py:1064-1070 | the guard on the decoded reply: anything but a list or string, an empty list, or a scalar first element gives nothing; a list whose first element is a list gives that list's items when it is non-empty |
| `Fallback.Absorb` | voice_translator.py:1071-1072 | one loop step: a falsy or empty segment is skipped, a segment whose first element is a string appends it, any other raises |
| `Fallback.Joined` | voice_translator.py:1068-1073 | the whole loop as a fold of `Absorb` from the empty string |
| `Fallback.JoinedFailureSticks` | voice_translator.py:1070-1072 | once a segment raises inside the loop, the whole loop has raised |
| `Fallback.ConcatSegments` | voice_translator.py:1068-1073 | the `+=` loop over the segments computes `Joined`, the left-to-right concatenation that stops at the first segment that raises |
| `Fallback.JoinedIsFirstTexts` | voice_translator.py:1070-1072 | the loop succeeds exactly when every segment is usable, and then yields the in-order concatenation of the segments' first elements |
| `Fallback.ReplyText` | voice_translator.py:1063-1073 | the text a reply yields: only a 200 reply with segments and a loop that did not raise |
| `Fallback.FallbackSpec` | voice_translator.py:1026-1082 | a table hit gives the table's value; otherwise the text the reply yields, or the "unavailable" message |
| `Fallback.FallbackTranslate` | voice_translator.py:1026-1079 | the translator as written, step by step, computes `FallbackSpec` |
| `Fallback.PhraseHitIgnoresEndpoint` | voice_translator.py:1042-1044 | on a table hit the HTTP endpoint is not consulted: any two endpoints give the same answer, the table's value |
| `Fallback.HelloToHindi` | voice_translator.py:1033 | "Hello" to Hindi gives "नमस्ते" whatever the endpoint would say |
| `Fallback.MissWithoutReplyIsUnavailable` | voice_translator.py:1063-1078 | on a table miss, a raised request, a non-200 reply or an undecodable body gives the "unavailable" message |
| `Fallback.ReplyOfUsableSegments` | voice_translator.py:1064-1073 | a 200 reply whose first element is a non-empty list of usable segments yields their first elements concatenated |
| `Fallback.MissWithReplyConcatenates` | voice_translator.py:1064-1073 | on a table miss, such a reply is the translator's answer |
| `Fallback.MissWithBadSegmentIsUnavailable` | voice_translator.py:1070-1078 | on a table miss, a 200 reply with a segment that raises gives the "unavailable" message |
| `Interpretation.LooksUnresolved` | voice_translator.py:642-648 | the `coroutine_detected` test: a coroutine, a repr starting "<coroutine" or "<googletrans.models.Translated", a repr holding "object at 0x", or an object with `__dict__` and no `.text` |
| `Interpretation.Unquote` | voice_translator.py:690-691 | the result is a slice of the input; one pair of enclosing single quotes is removed when present |
| `Interpretation.UnquoteRemovesOnePair` | voice_translator.py:690-691 | a value wrapped in one pair of quotes comes back as the value |
| `Interpretation.CleanedKeepsAbsence` | voice_translator.py:689-691 | stripping and unquoting cannot introduce a character |
| `Interpretation.NoCommaBefore` | voice_translator.py:687 | the segment before the first comma holds no comma |
| `Interpretation.ExtractTextField` | voice_translator.py:685-696 | an extracted field holds no comma and is shorter than the text it came from |
| `Interpretation.ExtractableIsFound` | voice_translator.py:685-687 | the marker and comma positions of a successful extraction are those `find` returns |
| `Interpretation.ExtractTextFieldMeaning` | voice_translator.py:685-696 | extraction succeeds exactly when "text=" first occurs at a positive index and the next comma lies strictly after the marker, and then gives that segment stripped and unquoted |
| `Interpretation.MarkerIsFirst` | voice_translator.py:685 | when no "text=" starts inside the prefix, the "text=" written after it is the first occurrence |
| `Interpretation.CommaIsFirst` | voice_translator.py:687 | with no comma in the value, the comma written after it is the first from the value's start |
| `Interpretation.ExtractRoundTrip` | voice_translator.py:685-694 | a field written as `prefix text=value, rest`, with no earlier "text=" and a comma-free value, reads back as the value, unquoted |
| `Interpretation.GoogletransReprRoundTrip` | voice_translator.py:684-694 | a repr of the form `Translated(src=en, dest=hi, text=value, ...)` reads back as its value |
| `Interpretation.Classify` | voice_translator.py:641-699 | an unresolved-looking reply goes to the fallback; then `.text`, a plain string verbatim, the dict's "text"; past those, a repr naming "coroutine" or "object" goes to the fallback with the apology, a "Translated" repr with an extractable field gives that field, and every other repr goes to the fallback |
| `Interpretation.LastResort` | voice_translator.py:674-677 | none of the earlier tests applies, so the repr is searched |
| `Interpretation.Recover` | voice_translator.py:700-711 | the handler's fallback answer, or "Unable to translate text: " and the error when it has at most 50 characters, otherwise its first 50 characters |
| `Interpretation.Interpret` | voice_translator.py:628-711 | the final translated text for each combination of reply, route and fallback outcome |
| `Interpretation.UnresolvedIgnoresText` | voice_translator.py:641-657 | a reply that looks unresolved never yields its own `.text` |
| `Interpretation.ObjectReferenceStringUsesFallback` | voice_translator.py:645 | even a plain-string reply containing "object at 0x" goes to the fallback |
| `Interpretation.TextAttributeWins` | voice_translator.py:659-661 | a reply with `.text` and none of the unresolved marks gives that text |
| `Interpretation.DoubleFailureMessage` | voice_translator.py:701-711 | when translation and the handler's fallback both raise, the text is "Unable to translate text: " plus the first 50 characters of the error |
| `Interpretation.ReliableFallbackAlwaysTranslates` | voice_translator.py:650-711 | with a fallback that does not raise, the text is the fallback's answer or the text the classification picked |
| `Interpretation.EmptyStringPassesThrough` | voice_translator.py:662-664 | an empty plain-string reply gives the empty text |
| `Interpretation.EmptyFieldPassesThrough` | voice_translator.py:684-694 | a `Translated(text='',)` repr gives the empty text, not the fallback |
| `Interpretation.AbsentCharRulesOut` | voice_translator.py:674 | a pattern with a character absent from the text does not occur in it |
| `Timestamp.DaysInMonth` | voice_translator.py:819 | a month has 28 to 31 days |
| `Timestamp.LexLess` | voice_translator.py:913 | SQLite's BINARY collation: character by character, a proper prefix first |
| `Timestamp.Format` | voice_translator.py:819 | the stamp has 19 characters, with its separators at fixed positions |
| `Timestamp.LexLessTransitive` | voice_translator.py:913 | text order is transitive |
| `Timestamp.LexLessTotal` | voice_translator.py:913 | any two texts are equal or ordered one way |
| `Timestamp.LexLessConcat` | voice_translator.py:913 | texts with heads of equal length compare by the heads first, then by the rest |
| `Timestamp.Pad2Order` | voice_translator.py:819 | two-digit zero-padded fields compare as text exactly as their numbers do |
| `Timestamp.Pad4Order` | voice_translator.py:819 | four-digit years compare as text exactly as their numbers do |
| `Timestamp.FormatOrder` | voice_translator.py:819 | one stamp sorts before another exactly when its moment is earlier, and stamps are equal only for equal moments |
| `History.Created` | voice_translator.py:460-470 | `CREATE TABLE IF NOT EXISTS` keeps an existing table as it is |
| `History.Inserted` | voice_translator.py:480-483 | the insert appends one row with the next AUTOINCREMENT id, above every id in the table, and keeps the others |
| `History.WithoutTestRows` | voice_translator.py:486 | the delete keeps exactly the rows whose source text is not 'TEST' |
| `History.WithoutTestKeepsOrder` | voice_translator.py:486 | deleting rows keeps the ids increasing and within the counter |
| `History.WithoutTestKeepsOthers` | voice_translator.py:486 | a table without 'TEST' rows is left exactly as it was |
| `History.WithoutTestOfAppendedTest` | voice_translator.py:481-486 | the inserted test row leaves no trace after the delete |
| `History.SelfTestEffect` | voice_translator.py:476-487 | the self-test removes every 'TEST' row, keeps all other rows in order and uses up one id |
| `History.SelfTested` | voice_translator.py:476-487 | the self-test as three statements: create, insert a 'TEST' row, delete the 'TEST' rows; its effect is `SelfTestEffect` |
| `History.TwoSelfTests` | voice_translator.py:122-125 | two self-tests in a row delete nothing more than one, but use up two ids |
| `History.Cleared` | voice_translator.py:998 | `DELETE FROM history` leaves no rows and keeps the counter |
| `History.IdsNotReusedAfterClear` | voice_translator.py:463 | a row saved after a clear gets an id above every id cleared away |
| `History.InsertNewestFirst` | voice_translator.py:913 | one insertion step of the listing adds the row and keeps all others |
| `History.InsertKeepsNewestFirst` | voice_translator.py:913 | inserting keeps a newest-first listing newest first |
| `History.Listing` | voice_translator.py:913 | the listing holds every row exactly as often as the table does |
| `History.ListingNewestFirst` | voice_translator.py:913 | the listing is sorted non-increasingly by timestamp text |
| `History.ListingOfIncreasingStamps` | voice_translator.py:913 | rows saved with increasing stamps are listed in reverse order of saving |
| `History.ListingIsChronological` | voice_translator.py:913 | for stamps the program writes, a row listed before another was not saved earlier |
| `History.SetupTable` | voice_translator.py:447-501 | `setup_db` self-tests the table on success, only creates it when the self-test fails, and leaves it otherwise |
| `History.SetupNotices` | voice_translator.py:440-501 | `setup_db` shows no dialog on success and the matching error dialog otherwise |
| `History.PermissionProblem` | voice_translator.py:864-865 | the lower-cased message mentions "unable to open database" or "readonly database" |
| `History.SaveFailureText` | voice_translator.py:859-880 | the dialog text for a permission problem and for any non-SQL exception; none for another SQL error, whose callback reads the unbound `sql_e` |
| `History.SaveFailure` | voice_translator.py:859-880 | a failed save adds one to the counter and shows a dialog exactly when the old count is below 2 and the dialog can be built |
| `History.IntendedSaveFailureText` | voice_translator.py:866-871 | the intended text: the same where the code builds one, and "Database error: " with the message for another SQL error |
| `History.IntendedSaveFailure` | voice_translator.py:859-880 | the intended throttle: each failure shows its dialog exactly when the old count is below 2, whatever its kind |
| `History.IntendedAgreesWhenBuilt` | voice_translator.py:866-880 | the code and the intended throttle agree on every failure whose dialog can be built |
| `History.DiskErrorShowsNoDialog` | voice_translator.py:870-871 | an OperationalError "disk I/O error" after a success counts as a failure and shows no dialog, where the intended throttle shows "Database error: disk I/O error" |
| `History.Displayable` | voice_translator.py:866-880 | the number of failures of a run whose dialog can be built, at most the run's length |
| `History.FailedRunDialogs` | voice_translator.py:816-880 | a run of n failures of any kinds raises the counter by n; of its first 2 - count failures, those whose dialog can be built show one |
| `History.AtMostTwoDialogsPerRun` | voice_translator.py:857-880 | a run of failures after a success shows at most min(n, 2) dialogs, and exactly that many when every dialog can be built |
| `History.Written` | voice_translator.py:821-880 | a successful insert resets the counter with no dialog; any failure counts one more and shows the throttled dialog; the table is untouched, only created, or holds the new row, by where the fault arose |
| `History.SaveEffect` | voice_translator.py:801-880 | the path stays known exactly when it was or `setup_db` succeeds; without a path only `setup_db`'s table and dialog remain and the counter is untouched |
| `History.SaveWithPathAppends` | voice_translator.py:840-844 | with the path known, a successful save appends exactly the given row under the next id |
| `History.SaveWithPathInserts` | voice_translator.py:828-844 | with the path known, a save is the create-if-absent followed by the insert |
| `History.CreatedThenInserted` | voice_translator.py:828-844 | the create-if-absent followed by the insert gives the old rows and then the new row under the next id |
| `History.SaveWithPathResets` | voice_translator.py:857 | a successful save resets the counter and shows no dialog |
| `History.SaveAfterSetup` | voice_translator.py:803-813 | a save without a known path first runs `setup_db`, then saves on the self-tested table |
| `History.SaveAppendsRow` | voice_translator.py:801-857 | a successful save appends one row of the given values under an id above every existing id |
| `History.SaveAfterSetupAppends` | voice_translator.py:803-857 | after a fresh setup, the row gets the id after the one the self-test used |
| `History.InsertedAppends` | voice_translator.py:840-844 | the inserted table is the old rows followed by the new row |
| `History.FailedSaveKeepsRows` | voice_translator.py:821-880 | a save that fails before its commit keeps the rows, counts one more failure and shows its dialog only below the limit and when it can be built |
| `History.LateFailureKeepsRow` | voice_translator.py:845-880 | a fault after the commit keeps the new row, yet raises the counter and may show the failure dialog |
| `History.SaveWithoutPath` | voice_translator.py:810-813 | without a path even after setup, nothing is saved and the counter is untouched |
| `History.Display` | voice_translator.py:921-937 | a listed row keeps its id and stamp, shows both texts as `Cell` cuts them and both codes as `LanguageName` names them |
| `History.Render` | voice_translator.py:917-937 | the fill loop puts one displayed line per listed row, in order |
| `History.LoadFailureText` | voice_translator.py:943-962 | the placeholder for a missing table, a permission problem, another SQL error, and any other error |
| `History.LoadView` | voice_translator.py:909-962 | a load shows the failure text, the "no history" lines, or the listing |
| `History.MissingTableMessage` | voice_translator.py:948-951 | SQLite's "no such table" error shows the "No history yet" line |
| `History.LoadListsEveryRow` | voice_translator.py:913-937 | a load of a non-empty table lists each row once, newest first |
| `History.ClearFailureText` | voice_translator.py:1009-1024 | the clear dialog text for a permission problem, another SQL error, and any other exception |
| `History.HistoryStore.constructor` | voice_translator.py:816-817 | the store starts with no known path and a zero error counter |
| `History.HistoryStore.Setup` | voice_translator.py:447-501 | `setup_db` updates the table as `SetupTable` says and keeps the path only on success |
| `History.HistoryStore.Open` | voice_translator.py:803-813 | each operation runs `setup_db` again only when no path is known |
| `History.HistoryStore.Save` | voice_translator.py:801-880 | `save_to_history` leaves the table, path flag, counter and dialogs that `SaveEffect` gives, with the formatted stamp of the moment |
| `History.HistoryStore.Write` | voice_translator.py:821-880 | the `try` block and its handlers with the path known update the table and counter as `Written` says |
| `History.HistoryStore.CountFailure` | voice_translator.py:859-880 | a handler raises the counter by one and returns the dialog `SaveFailure` gives, leaving the table |
| `History.HistoryStore.Load` | voice_translator.py:882-962 | `load_history` shows the "unavailable" line without a path and otherwise the lines of `LoadView` |
| `History.HistoryStore.ViewLines` | voice_translator.py:909-941 | the query and fill loop show the lines of `LoadView` |
| `History.ClearStep` | voice_translator.py:983-1024 | a fault up to the commit leaves the table and shows the error dialog; otherwise an existing table is emptied, with the success notice, or with the error dialog when a later step raised; a missing table is left, with its notice or the error dialog |
| `History.LateClearFailureEmptiesHistory` | voice_translator.py:998-1007 | a fault after the commit shows an error dialog, yet the table is empty and the next load shows "No translation history available" |
| `History.HistoryStore.Clear` | voice_translator.py:964-1024 | `clear_history` per outcome: no path, not confirmed, or the confirmed run of `ClearStep` with its dialog; the view is refreshed exactly when the rows were deleted and the refresh ran |
| `History.HistoryStore.Delete` | voice_translator.py:983-1024 | the confirmed `try` block: the table and dialog of `ClearStep`, and the refreshed view when the rows were deleted before the refresh |
| `Session.Active` | voice_translator.py:546 | the loop condition: listening and no stop requested |
| `Session.Run` | voice_translator.py:546-584 | the capture loop over a sequence of captures: final fields, dispatched utterances and passes made |
| `Session.Toggle` | voice_translator.py:503-538 | starting sets listening and clears the stop flag; stopping clears listening, sets the flag and enables reprocessing exactly when there is an utterance; the field invariant is kept |
| `Session.ToggleTwice` | voice_translator.py:503-538 | stopping and starting again listens with the same utterance kept |
| `Session.Step` | voice_translator.py:549-584 | an utterance is kept as `last_audio` and dispatched; the other outcomes keep `last_audio`; the loop stays active exactly when no stop came in meanwhile |
| `Session.RunUnfolds` | voice_translator.py:546 | an active loop makes one pass and continues with the rest |
| `Session.RunAdvances` | voice_translator.py:546-584 | one pass keeps the remaining work equal to the whole run |
| `Session.RunEnds` | voice_translator.py:546 | a loop that is not listening, or is stopped, makes no pass |
| `Session.UntilStop` | voice_translator.py:546 | the passes up to the stop are no more than the captures |
| `Session.RunMeaning` | voice_translator.py:546-584 | the loop passes exactly until the stop, dispatches exactly the utterances heard, ends with the last of them in `last_audio`, and keeps the field invariant |
| `Session.RunPasses` | voice_translator.py:546 | the number of passes is the number of captures up to the stop, and the loop ends inactive after a stop |
| `Session.RunDispatches` | voice_translator.py:549-568 | the dispatched utterances are those heard in the passes made, in order |
| `Session.RunKeepsLastAudio` | voice_translator.py:556 | `last_audio` ends as the last dispatched utterance, or unchanged when none was |
| `Session.RunKeepsValid` | voice_translator.py:546-584 | the field invariant holds after any number of passes |
| `Session.TimeoutsOnly` | voice_translator.py:570-572 | timeouts alone dispatch nothing and keep the loop listening |
| `Session.TranslatedText` | voice_translator.py:628-711 | the text the classification finds when it finds one, and the fallback's answer in every other case |
| `Session.Process` | voice_translator.py:602-737 | a failed recognition, detection or translator creation gives the error status of that failure; otherwise the recognised text, the detected language, `TranslatedText` and the selected target code |
| `Session.Translate` | voice_translator.py:628-711 | the translator call and fallback computes `TranslatedText` |
| `Session.Recognize` | voice_translator.py:602-627 | recognition, detection, target parsing and translator creation compute `Process` |
| `Session.ScreenAfter` | voice_translator.py:784-799 | an error shows only its status; a translation shows both texts and "Translation Complete" |
| `Session.Recorded` | voice_translator.py:723-737 | a failed utterance saves nothing |
| `Session.FailureSavesNothing` | voice_translator.py:729-737 | a failed recognition, detection or translator creation touches neither the text boxes nor the history |
| `Session.TranslationIsRecorded` | voice_translator.py:715-728 | a translated utterance is saved exactly as shown, under the next id and the moment's stamp |
| `Session.App.constructor` | voice_translator.py:51-79 | the window starts idle, with no utterance and the Hindi selection |
| `Session.App.Startup` | voice_translator.py:122-125 | `setup_ui` runs `setup_db` through `load_history` and then once more: the table after both runs, both runs' dialogs, and the history lines of the first |
| `Session.App.ChooseLanguage` | voice_translator.py:205-214 | choosing a language changes only the selection |
| `Session.App.ToggleListening` | voice_translator.py:503-538 | `toggle_listening` updates the listening fields as `Toggle` says and resets the text boxes when starting |
| `Session.App.Pass` | voice_translator.py:549-584 | one pass of the loop body updates the fields as `Step` says |
| `Session.App.ListenLoop` | voice_translator.py:540-584 | the capture loop ends with the fields, dispatched utterances and pass count of `Run` |
| `Session.App.Show` | voice_translator.py:784-799 | showing an outcome changes the boxes as `ScreenAfter` says |
| `Session.App.ProcessAudio` | voice_translator.py:602-737 | `_process_audio` shows and records the outcome of `Process` |
| `Session.App.Present` | voice_translator.py:715-728 | the outcome is shown and, for a translation, saved |
| `Session.App.ProcessLastAudio` | voice_translator.py:586-600 | without an utterance only the information dialog appears and nothing is processed; otherwise the last utterance is processed |
| `Session.App.OnClosing` | voice_translator.py:1084-1096 | closing stops listening, sets the stop flag if it was listening, and keeps everything else |

## Left out

- Tkinter presentation: widgets, hover handlers, colours, the canvas gradient and message-box rendering. Dialogs are modelled as `Notice` values.
- Microphone capture, Google speech recognition, `langdetect.detect`, the googletrans `Translator` and the httpx request. These are foreign calls, so they are parameters: `Capture` events, the `Backends` functions and `Request -> HttpOutcome`. Whether `Translator()` raises is `Backends.translatorError`.
- History.HistoryStore.Delete: a refresh that raises part-way through emptying the tree is not modelled; after the commit the refresh either ran to its end (`refreshed`) or did not run, and the tree otherwise keeps its old lines.
- Threads, `root.after` scheduling, `time.sleep(0.1)` and `join(1.0)`. The capture loop runs captures as a sequence, and each dispatched utterance is processed by a separate call. The interleavings of concurrent processing threads and their races on the table are not modelled. Nor is a stop and restart within one blocking `listen`: `join(1.0)` can then time out, the restart clears the stop event, and the old loop runs on beside the new one, which a single `Capture` sequence cannot express.
- Data-directory resolution in `setup_db` and `create_initial_data_folder`. Whether a directory was found is a `SetupOutcome` input.
- The SQLite engine. The table is an in-memory value, and SQLite errors are the abstract `Fault` kinds with their messages.
- `print` logging. Only a print that raises can reach the outer `except` of `fallback_translate`, so `FallbackSpec` never raises and never takes that handler. `FailureMessage` states the handler's message on its own. `Interpretation.Interpret` still takes what each of the two fallback calls gives as a result that may be an error; `Session.TranslatedText` passes it the answer of `FallbackSpec`.
- `Interpretation.Interpret`: `str(translation)` raising is not modelled. The placeholder "Translation error: ..." at line 703 is not modelled either, because the handler always overwrites it before use.
- `PyStr.Lower`: lower-cases ASCII letters only. Python's full Unicode case mapping is not modelled. Some non-ASCII characters lower to ASCII in Python (U+212A KELVIN SIGN becomes `k`), so a text such as "than\u212A you" hits the phrase table in the program and misses it in the model.
- `History.SaveEffect`: the reload of the history view after a save when the history tab is visible is left out, because it depends on the tab state.
- `History.HistoryStore.Load`: the early return when the history tree does not exist yet is left out, because it is a UI construction-order check.
- `Timestamp.Format`: only four-digit years (1000 to 9999) are covered. Outside that range `%Y` is not four characters wide.
- `Session.App.ProcessLastAudio`: the failure to start the processing thread is not modelled.

## Findings

| source | as written | input that shows it | evidently intended | confidence | as-written member | corrected member |
|---|---|---|---|---|---|---|
| voice_translator.py:870-871 | the dialog for an OperationalError that is not a permission problem is a `root.after` callback reading `sql_e`; Python unbinds `sql_e` when the `except` clause ends, so the callback raises NameError and no dialog appears | an OperationalError "disk I/O error" with the counter at 0 | the first two such failures show "Database error: " and the message | not executed | `History.DiskErrorShowsNoDialog` | `History.IntendedSaveFailure` |

The store keeps the behaviour as written (`SaveFailure`), since it models the program; `IntendedSaveFailure`
is the corrected throttle, and `IntendedAgreesWhenBuilt` shows the two differ only on this kind of failure.
