# XML question validator: extraction and session state

This project models the logic underneath the Tkinter question validator in
`xml_validation_ui.py`, in Dafny. The validator opens an XML document of
passages ("segments") and the multiple-choice questions written from them. It
flattens every surviving (Segment, Question) pair into one record. The reviewer
then walks the records, ticks six quality criteria and writes a comment for each
question. The judgments are kept in two maps keyed by question id and saved to a
companion `<stem>_progress.json` file.

The model has two parts.

- **Extraction** (`Xml`, `Seqs`, `Loader`). The parsed document is an abstract
  `Element` tree. `find` is the first direct child with a tag, `findall` all
  direct children with a tag in document order. Python's `not x.text` is
  `!HasText` (None or ""). `Loader.Extract` is the specification of the walk;
  `Loader.Load` is the walk itself, nested loops that append records, proved
  equal to it. The lemmas state the skip rules, the defaults ("Unknown" for a
  missing DocumentTitle, "" for SegmentTitle, QuestionType and CorrectChoice),
  the order of the output and a bound on its length.
- **Session state** (`Text`, `Paths`, `Progress`, `Session`). `Session.Validator`
  is a class with the fields the source mutates (`segments`, `current_index`,
  `checklist`, `comments`), the document path, and the progress files it has
  written. Its methods move the cursor, update the maps in place, resume from
  stored progress and save. The counts and percentages they report are functions
  in `Progress` with their own lemmas. The companion path is `Paths.ProgressPath`,
  built on a model of `os.path.splitext`.

Inputs from outside the program are parameters. `LoadXml` receives the parse
result (`None` for a parse failure) and the progress files on disk, a map from
path to what a resume finds there (`Progress.Disk`). A path missing from the map
is a missing file. The resume reads the entry at `Paths.ProgressPath` of the
document's path, the same derivation the save uses. The checklist and comment
handlers receive the widget values.

Some details follow the code where a prose description of the tool says otherwise:
- A present element with no text yields None for the record field. The default
  applies only when the element is absent. So `documentTitle` and the other
  optional fields are `Option<string>`.
- A record's `choices` may be empty when every Choice element is textless.
- Opening a document whose companion file is missing or unreadable does not
  clear the judgment maps. Entries of the previously open document remain, and
  only the cursor goes to 0 (`Progress.Resume`).
- During a resume, `load_question` saves before it moves the cursor. So the file
  rewritten at resume time carries the cursor from before the resume
  (`Session.Validator.TryLoadProgress`).

## Model

| member | source | states |
|---|---|---|
| `Xml.FirstWithTag` | xml_validation_ui.py:219 | `find`: the result is a child with the tag, and None exactly when no child has it |
| `Xml.AllWithTag` | xml_validation_ui.py:217 | `findall`: no longer than the children; holds exactly the children with the tag |
| `Xml.AllWithTagAppend` | xml_validation_ui.py:217 | `findall` distributes over concatenation of the children, so document order is kept |
| `Xml.Find` | xml_validation_ui.py:219 | `element.find`: a direct child with the tag, and None exactly when no direct child has it |
| `Xml.FindAll` | xml_validation_ui.py:217 | `element.findall`: exactly the direct children with the tag, no more of them than children |
| `Xml.FindIsFirstOfFindAll` | xml_validation_ui.py:219 | `find` is the head of `findall`, or None when that is empty |
| `Loader.TextOr` | xml_validation_ui.py:223-227 | an absent element gives the default. A present element gives its own text, so the field is None only for a present element without text |
| `Loader.SegmentFieldsOf` | xml_validation_ui.py:218-227 | a segment is kept iff it has a SegmentText child with non-empty text. Its fields are then the id attribute, that text, and the titles with their defaults ("Unknown", "") |
| `Loader.QuestionRecord` | xml_validation_ui.py:233-264 | a question yields a record iff it has a QuestionText child with non-empty text and a Choices child. The record carries the question's id and text and the segment's fields unchanged |
| `Loader.Extract` | xml_validation_ui.py:209-264 | the records of the document: at most one per Question element under the segments' QA children |
| `Loader.ChoicesOfExact` | xml_validation_ui.py:245-249 | the kept choices are exactly the Choice elements with non-empty text, with their id and text and in their order; no more than the elements; empty when all are textless |
| `Loader.CollectChoices` | xml_validation_ui.py:245-249 | the choice loop yields exactly the kept choices |
| `Loader.CollectQuestions` | xml_validation_ui.py:233-264 | the question loop yields exactly the records of the segment's questions, skips included |
| `Loader.Load` | xml_validation_ui.py:209-264 | the extraction loops build exactly `Extract(root)` |
| `Loader.RecordsOfAppend` | xml_validation_ui.py:217-254 | output follows segment order: records of a concatenation of segments are the concatenation of their records |
| `Loader.QuestionRecordsAppend` | xml_validation_ui.py:233-254 | within a segment, output follows question order |
| `Loader.EmitsIsQuestionRecord` | xml_validation_ui.py:218-264 | a question is emitted as a record exactly when its segment passes the segment checks and the question passes the question checks |
| `Loader.SegmentRecordsMembership` | xml_validation_ui.py:218-264 | a segment's records are exactly the records emitted for its questions |
| `Loader.ExtractMembership` | xml_validation_ui.py:217-264 | a record is extracted iff some Segment has non-empty SegmentText and a QA child, and some Question of it has non-empty QuestionText and a Choices child. The record carries their fields with the defaults, and the segment fields are copied unchanged |
| `Loader.ExtractedRecordsHaveText` | xml_validation_ui.py:219-249 | every extracted record has non-empty segment and question text, and every choice has non-empty text |
| `Loader.SegmentRecordsCount` | xml_validation_ui.py:229-254 | a segment yields at most one record per Question under its QA child |
| `Loader.RecordCountBound` | xml_validation_ui.py:217-254 | the record count is at most the number of Question elements under QA children |
| `Loader.SegmentSkips` | xml_validation_ui.py:218-243 | a segment with a QA child yields fewer records than Questions when it lacks text or skips one of its questions |
| `Loader.RecordCountStrict` | xml_validation_ui.py:217-254 | over any segment list, one skipped Question makes the record count strictly smaller than the Question count |
| `Loader.ExtractCountStrict` | xml_validation_ui.py:217-254 | a document with a skipped Question yields strictly fewer records than Questions under QA children |
| `Text.Strip` | xml_validation_ui.py:382 | `strip()`: no longer than the input, and a non-empty result neither starts nor ends with whitespace |
| `Text.TrimStart` | xml_validation_ui.py:382 | removes exactly the leading whitespace: a suffix, everything dropped is whitespace, it does not start with whitespace |
| `Text.TrimEnd` | xml_validation_ui.py:382 | removes exactly the trailing whitespace: a prefix, everything dropped is whitespace, it does not end with whitespace |
| `Text.StripShape` | xml_validation_ui.py:382 | `strip()` yields the slice between the leading and trailing whitespace runs, with no whitespace at either end |
| `Text.StripIdempotent` | xml_validation_ui.py:382 | stripping a stored comment again changes nothing |
| `Text.StripEmpty` | xml_validation_ui.py:382 | the stored comment is "" exactly when the box held only whitespace |
| `Paths.LastIndexOf` | xml_validation_ui.py:445 | `rfind`: the index holds the character and no later index does, or -1 |
| `Paths.LastIndexOfAppend` | xml_validation_ui.py:445 | searching a concatenation from the right finds a match in the tail first |
| `Paths.SplitExt` | xml_validation_ui.py:445 | `splitext`: root + extension is the path. A non-empty extension starts with the last dot of the last path component, holds no other dot and no separator, and something other than a dot precedes it in that component. The extension is empty only when every dot in that component has only dots before it there |
| `Paths.Basename` | xml_validation_ui.py:565 | `basename`: the suffix of the path after its last separator, the whole path when there is none |
| `Paths.ProgressPath` | xml_validation_ui.py:445-446 | the companion path ends in `_progress.json`. Without that suffix, and with the document's extension added back, it is the document path |
| `Paths.SplitExtOfProgressName` | xml_validation_ui.py:445-446 | splitting `stem + "_progress.json"` gives back `stem + "_progress"` and `.json` |
| `Paths.ProgressPathSplits` | xml_validation_ui.py:469-470 | the companion path has extension `.json` and the document's stem plus `_progress` |
| `Paths.ProgressPathIsNotSource` | xml_validation_ui.py:445-449 | a save never writes over the document itself |
| `Progress.CriteriaComplete` | xml_validation_ui.py:414-421 | the six criteria of the counts dict are all the criteria |
| `Progress.CheckedCount` | xml_validation_ui.py:392-393 | the checked count is at most the number of records |
| `Progress.CriterionCount` | xml_validation_ui.py:422-426 | each per-criterion count is at most the checked count |
| `Progress.CommentedCount` | xml_validation_ui.py:512-513 | the commented count is at most the number of records |
| `Progress.CountsOf` | xml_validation_ui.py:414-426 | every criterion has a count, at most the checked count |
| `Progress.Percentage` | xml_validation_ui.py:436-438 | 0 when there are no questions; otherwise p * total = 100 * count; within [0, 100] when count <= total |
| `Progress.MetadataOf` | xml_validation_ui.py:433-441 | the metadata: total is the record count and checked is the checked count. Completion is `Percentage(checked, total)` and each criterion's figure is `Percentage` of its count. Every percentage is in [0, 100], and all are 0 when there are no records |
| `Progress.Reread` | xml_validation_ui.py:477-478 | reading back a file a save wrote finds every recognised key, with the saved maps and the saved, non-negative cursor |
| `Progress.Resume` | xml_validation_ui.py:480-493 | a present `checklist` or `comments` key replaces its map, an absent one keeps it, and without a readable file both are kept. An in-range stored `current_index` becomes the cursor. Otherwise the cursor is 0 when there are records and does not move when there are none |
| `Progress.CheckedCountCountsCheckedRecords` | xml_validation_ui.py:392-393 | the checked count is the number of records whose id has a stored entry with some flag set |
| `Progress.CheckedCountAtMostCriteriaSum` | xml_validation_ui.py:410-426 | the checked count is at most the sum of the six criterion counts |
| `Progress.CheckingNeverLowersProgress` | xml_validation_ui.py:367-374 | storing an entry with a flag set never lowers the checked count |
| `Progress.ForeignEntryKeepsProgress` | xml_validation_ui.py:373 | storing an entry for an id no record has leaves the checked count unchanged |
| `Progress.ResumeRoundTrip` | xml_validation_ui.py:480-489 | resuming from a file a save wrote, with its cursor in range, restores the saved maps and cursor exactly |
| `Progress.ResumeFromSaved` | xml_validation_ui.py:445-489 | the disk left by a session's saves holds, at a path it saved to, the read-back of the last file saved there; resuming from it with the cursor in range restores that file's state |
| `Progress.ResumeFallsBackToFirst` | xml_validation_ui.py:486-493 | a missing, unreadable, absent or out-of-range cursor resumes at 0 |
| `Session.Validator.constructor` | xml_validation_ui.py:62-65 | a new session has no records, cursor 0, empty maps, no document |
| `Session.Validator.ProgressValue` | xml_validation_ui.py:386-395 | the progress bar value is in [0, 100]; 0 without records; otherwise p * total = 100 * checked count |
| `Session.AddEntry` | xml_validation_ui.py:424-426 | the inner loop adds one to the count of exactly the criteria the entry has set |
| `Session.Validator.Statistics` | xml_validation_ui.py:409-441 | the counts and metadata that a save or an export computes are `CountsOf` and `MetadataOf` of the current records and checklist |
| `Session.Validator.CountCriteria` | xml_validation_ui.py:414-426 | the counting loop yields every criterion's count over the records |
| `Session.Validator.SaveProgress` | xml_validation_ui.py:402-457 | once a document is open, writes the current maps, cursor and metadata at the companion path, and nothing else. Resuming a fresh session from the disk these writes leave, at that path, restores the state. The cursor invariant is kept |
| `Session.Validator.AutoSaveProgress` | xml_validation_ui.py:397-400 | saves only when a document with records is open; the cursor invariant is kept |
| `Session.Validator.LoadQuestion` | xml_validation_ui.py:282-288 | an index outside [0, len) changes nothing. Otherwise the state being left is saved, then the cursor becomes the index. The cursor invariant is kept, and holds after any in-range move once a document is open |
| `Session.Validator.PrevQuestion` | xml_validation_ui.py:359-361 | moves back exactly one record, saving the state being left, unless on the first; the cursor stays in range |
| `Session.Validator.NextQuestion` | xml_validation_ui.py:363-365 | moves on exactly one record, saving the state being left, unless on the last; the cursor stays in range |
| `Session.Validator.SaveCurrentChecklist` | xml_validation_ui.py:367-375 | without records nothing changes. Otherwise only the entry of the displayed question's id is overwritten |
| `Session.Validator.SaveCurrentComment` | xml_validation_ui.py:377-384 | without records nothing changes. Otherwise only the displayed question's comment is overwritten, with the stripped text (possibly "") |
| `Session.Validator.TryLoadProgress` | xml_validation_ui.py:465-502 | the state becomes `Resume` of what the disk holds at `ProgressPath` of the open document (no file when that path is absent). The file rewritten on the way holds the adopted maps with the cursor from before the resume. With a document open the cursor ends in range |
| `Session.Validator.LoadXml` | xml_validation_ui.py:209-280 | a parse failure changes nothing. Otherwise the records are `Extract(doc)`. When there are any, progress is resumed from what the disk holds at `ProgressPath(path)`, and the cursor ends in range |
| `Session.SaveAndReopen` | xml_validation_ui.py:445-489 | saving, then opening the same unchanged document in a new session, restores the maps and cursor, whatever else the disk held |
| `Session.Validator.ShowSummary` | xml_validation_ui.py:504-527 | None without records; otherwise total, checked, commented and per-criterion counts |
| `Session.Validator.ExportRows` | xml_validation_ui.py:618-639 | the rows loop yields one row per record in order: its identifiers, its stored checklist or all-false, its stored comment or "" |
| `Session.Validator.ExportJson` | xml_validation_ui.py:548-639 | None without records. Otherwise: the source file's basename, the counts and metadata, and one row per record in order, with an all-false checklist and "" comment for questions never judged |

## Left out

- The Tkinter interface is not modelled: `Tooltip`, `create_ui`, widget rendering in `load_question`, message boxes, status and title texts, the criterion labels and the file dialogs.
- The timers of `show_save_indicator` are not modelled. The deferred save they schedule is `AutoSaveProgress`, for the event loop to call later. `SaveCurrentChecklist` and `SaveCurrentComment` do not schedule it themselves.
- `on_closing` is not modelled on its own. It has the guard and the save of `AutoSaveProgress`; destroying the window is UI.
- XML parsing is not modelled: `LoadXml` receives the tree, or None when `ET.parse` fails.
- JSON is not modelled. A written file is read back by `Reread` as the same maps and cursor. The disk a resume reads is a parameter of `LoadXml`. The files a session writes are the `written` field, and `DiskOf` turns them into a disk for a later session.
- JSON turns a None question id into the key "null", which no longer matches None on reload. This is not modelled.
- A loaded checklist entry with keys other than the six criteria is not modelled: entries always have exactly six flags.
- A non-integer `current_index` in the file is not modelled. It raises after the maps were already replaced.
- Write failures in `save_progress` are not modelled: every save succeeds.
- Rounding (`round(..., 1)`, `round(..., 2)`, `%.1f`) is not modelled: percentages are exact reals.
- Timestamps, `main` and argument parsing, and console and traceback printing are not modelled.
- `Paths.SplitExt` follows POSIX path rules. The Windows separators of `ntpath.splitext` are not modelled.
- The star-rating variant of the tool is not part of this model.
