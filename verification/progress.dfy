/**
  The judgment data of a session, the statistics computed over it, and the
  contents of the companion progress file.
*/
module Progress {
  import opened Options
  import opened Loader

  /** The key of every judgment: the question's `id` attribute, which may be absent. */
  type QuestionId = Option<string>

  /** The six checklist criteria, in the order the source lists them. */
  datatype Criterion =
    | SingleSentence
    | MultipleSentences
    | LowQualityDistractors
    | UnsuitableParagraph
    | UnclearAnswer
    | OutsideKnowledge

  const Criteria: seq<Criterion> :=
    [SingleSentence, MultipleSentences, LowQualityDistractors, UnsuitableParagraph, UnclearAnswer, OutsideKnowledge]

  /** The list names every criterion. */
  lemma CriteriaComplete()
    ensures forall c: Criterion :: c in Criteria
  {
    forall c: Criterion ensures c in Criteria {
      match c
      case SingleSentence => assert Criteria[0] == c;
      case MultipleSentences => assert Criteria[1] == c;
      case LowQualityDistractors => assert Criteria[2] == c;
      case UnsuitableParagraph => assert Criteria[3] == c;
      case UnclearAnswer => assert Criteria[4] == c;
      case OutsideKnowledge => assert Criteria[5] == c;
    }
  }

  /** One checklist entry: a flag per criterion. */
  datatype Checklist = Checklist(
    singleSentence: bool,
    multipleSentences: bool,
    lowQualityDistractors: bool,
    unsuitableParagraph: bool,
    unclearAnswer: bool,
    outsideKnowledge: bool)
  {
    /** The flag of criterion `c`. */
    predicate Has(c: Criterion)
    {
      match c
      case SingleSentence => singleSentence
      case MultipleSentences => multipleSentences
      case LowQualityDistractors => lowQualityDistractors
      case UnsuitableParagraph => unsuitableParagraph
      case UnclearAnswer => unclearAnswer
      case OutsideKnowledge => outsideKnowledge
    }

    /** `any(entry.values())`. */
    predicate AnyChecked()
    {
      singleSentence || multipleSentences || lowQualityDistractors
      || unsuitableParagraph || unclearAnswer || outsideKnowledge
    }
  }

  /** The entry shown and exported for a question never judged: every flag false. */
  const Unchecked: Checklist := Checklist(false, false, false, false, false, false)

  /** A question counts as checked when it has a stored entry with some flag set. */
  predicate IsChecked(checklist: map<QuestionId, Checklist>, id: QuestionId)
  {
    id in checklist && checklist[id].AnyChecked()
  }

  /** A question counts for criterion `c` when it has a stored entry with that flag set. */
  predicate HasCriterion(checklist: map<QuestionId, Checklist>, id: QuestionId, c: Criterion)
  {
    id in checklist && checklist[id].Has(c)
  }

  /** A question counts as commented when it has a stored, non-empty comment. */
  predicate IsCommented(comments: map<QuestionId, string>, id: QuestionId)
  {
    id in comments && comments[id] != ""
  }

  /** `checked_questions`: how many records are checked, one per record (a repeated id counts each time). */
  function CheckedCount(rs: seq<Record>, checklist: map<QuestionId, Checklist>): (n: nat)
    ensures n <= |rs|
  {
    if rs == [] then 0
    else CheckedCount(rs[..|rs| - 1], checklist) + (if IsChecked(checklist, rs[|rs| - 1].questionId) then 1 else 0)
  }

  /** `counts[c]`: how many records have criterion `c` set; never more than the checked ones. */
  function CriterionCount(rs: seq<Record>, checklist: map<QuestionId, Checklist>, c: Criterion): (n: nat)
    ensures n <= CheckedCount(rs, checklist)
  {
    if rs == [] then 0
    else CriterionCount(rs[..|rs| - 1], checklist, c) + (if HasCriterion(checklist, rs[|rs| - 1].questionId, c) then 1 else 0)
  }

  /** `commented_questions`: how many records have a non-empty comment. */
  function CommentedCount(rs: seq<Record>, comments: map<QuestionId, string>): (n: nat)
    ensures n <= |rs|
  {
    if rs == [] then 0
    else CommentedCount(rs[..|rs| - 1], comments) + (if IsCommented(comments, rs[|rs| - 1].questionId) then 1 else 0)
  }

  /** The per-criterion counts, keyed by every criterion. */
  function CountsOf(rs: seq<Record>, checklist: map<QuestionId, Checklist>): (counts: map<Criterion, nat>)
    ensures forall c: Criterion :: c in counts && counts[c] <= CheckedCount(rs, checklist)
  {
    CriteriaComplete();
    map c: Criterion | c in Criteria :: CriterionCount(rs, checklist, c)
  }

  /** `count / total * 100`, and 0 when there are no questions. */
  function Percentage(count: nat, total: nat): (p: real)
    ensures total == 0 ==> p == 0.0
    ensures total > 0 ==> p * (total as real) == 100.0 * (count as real)
    ensures count <= total ==> 0.0 <= p <= 100.0
  {
    if total == 0 then 0.0 else (count as real) / (total as real) * 100.0
  }

  /** The `metadata` object of the progress file (before rounding). */
  datatype Metadata = Metadata(
    totalQuestions: nat,
    questionsChecked: nat,
    completionPercentage: real,
    checklistPercentages: map<Criterion, real>)

  /** The statistics over the loaded records: every percentage lies in [0, 100] and is 0 without records. */
  function MetadataOf(rs: seq<Record>, checklist: map<QuestionId, Checklist>): (m: Metadata)
    ensures m.totalQuestions == |rs| && m.questionsChecked <= m.totalQuestions
    ensures 0.0 <= m.completionPercentage <= 100.0
    ensures forall c: Criterion :: c in m.checklistPercentages && 0.0 <= m.checklistPercentages[c] <= 100.0
    ensures |rs| == 0 ==> m.completionPercentage == 0.0 && forall c: Criterion :: m.checklistPercentages[c] == 0.0
    ensures m.questionsChecked == CheckedCount(rs, checklist)
    ensures m.completionPercentage == Percentage(CheckedCount(rs, checklist), |rs|)
    ensures forall c: Criterion :: m.checklistPercentages[c] == Percentage(CriterionCount(rs, checklist, c), |rs|)
  {
    CriteriaComplete();
    var total := |rs|;
    var counts := CountsOf(rs, checklist);
    Metadata(
      total,
      CheckedCount(rs, checklist),
      Percentage(CheckedCount(rs, checklist), total),
      map c: Criterion | c in Criteria :: Percentage(counts[c], total))
  }

  /** The judgment state that the progress file carries. */
  datatype SessionProgress = SessionProgress(
    checklist: map<QuestionId, Checklist>,
    comments: map<QuestionId, string>,
    currentIndex: nat)

  /** A progress file as written by a save (its timestamp is not modelled). */
  datatype ProgressFile = ProgressFile(progress: SessionProgress, metadata: Metadata)

  /**
    What a resume finds at the companion path: no file, a file that cannot be
    read as JSON, or a JSON object whose recognised keys may each be missing.
  */
  datatype StoredProgress =
    | NoFile
    | Unreadable
    | Stored(checklist: Option<map<QuestionId, Checklist>>, comments: Option<map<QuestionId, string>>, currentIndex: Option<int>)

  /** What reading back a file written by a save yields: every recognised key present, with the saved values. */
  function Reread(f: ProgressFile): (r: StoredProgress)
    ensures r.Stored? && r.checklist.Some? && r.comments.Some? && r.currentIndex.Some?
    ensures r.checklist.value == f.progress.checklist && r.comments.value == f.progress.comments
    ensures r.currentIndex.value >= 0 && r.currentIndex.value == f.progress.currentIndex
  {
    Stored(Some(f.progress.checklist), Some(f.progress.comments), Some(f.progress.currentIndex as int))
  }

  /** The files a resume may find, by path. */
  type Disk = map<string, StoredProgress>

  /** What a resume finds at `path`: the stored contents, or no file at all. */
  function StoredAt(disk: Disk, path: string): StoredProgress
  {
    if path in disk then disk[path] else NoFile
  }

  /** The disk as the files a session wrote leave it, each one read back as JSON. */
  function DiskOf(files: map<string, ProgressFile>): Disk
  {
    map path | path in files :: Reread(files[path])
  }

  /**
    The judgment state after resuming from `stored` with `n` loaded records,
    starting from `current`: recognised keys replace the maps, and the cursor
    is the stored index when it lies in [0, n) and 0 otherwise (when there are
    no records the cursor does not move).
  */
  function Resume(stored: StoredProgress, n: nat, current: SessionProgress): (r: SessionProgress)
    ensures n > 0 ==> r.currentIndex < n
    ensures !stored.Stored? ==> r.checklist == current.checklist && r.comments == current.comments
    ensures stored.Stored? ==> r.checklist == (if stored.checklist.Some? then stored.checklist.value else current.checklist)
    ensures stored.Stored? ==> r.comments == (if stored.comments.Some? then stored.comments.value else current.comments)
    ensures n == 0 ==> r.currentIndex == current.currentIndex
    ensures stored.Stored? && stored.currentIndex.Some? && 0 <= stored.currentIndex.value < n ==>
      r.currentIndex == stored.currentIndex.value
    ensures n > 0 && !(stored.Stored? && stored.currentIndex.Some? && 0 <= stored.currentIndex.value < n) ==>
      r.currentIndex == 0
  {
    var cursor := if n == 0 then current.currentIndex else 0;
    match stored
    case NoFile => current.(currentIndex := cursor)
    case Unreadable => current.(currentIndex := cursor)
    case Stored(checklist, comments, index) =>
      SessionProgress(
        if checklist.Some? then checklist.value else current.checklist,
        if comments.Some? then comments.value else current.comments,
        if n > 0 && index.Some? && 0 <= index.value < n then index.value else cursor)
  }

  /** The export row of one record: its stored judgment, or the defaults when there is none. */
  datatype ExportRow = ExportRow(
    questionId: QuestionId,
    segmentId: Option<string>,
    documentTitle: Option<string>,
    segmentTitle: Option<string>,
    questionType: Option<string>,
    checklist: Checklist,
    comment: string)

  /** The exported results (timestamp and criterion labels are not modelled). */
  datatype Export = Export(
    sourceFile: string,
    counts: map<Criterion, nat>,
    metadata: Metadata,
    questions: seq<ExportRow>)

  /** The figures of the summary dialog. */
  datatype Summary = Summary(
    totalQuestions: nat,
    questionsChecked: nat,
    questionsCommented: nat,
    counts: map<Criterion, nat>)

  // ---------------------------------------------------------------------------
  // Properties of the statistics

  /** The positions of the checked records. */
  ghost function CheckedPositions(rs: seq<Record>, checklist: map<QuestionId, Checklist>): set<nat>
  {
    set i: nat | i < |rs| && IsChecked(checklist, rs[i].questionId)
  }

  /** The checked count is the number of records whose id has a stored entry with some flag set. */
  lemma {:induction false} CheckedCountCountsCheckedRecords(rs: seq<Record>, checklist: map<QuestionId, Checklist>)
    ensures CheckedCount(rs, checklist) == |CheckedPositions(rs, checklist)|
  {
    if rs != [] {
      var init := rs[..|rs| - 1];
      var last := |rs| - 1;
      CheckedCountCountsCheckedRecords(init, checklist);
      var before := CheckedPositions(init, checklist);
      var after := CheckedPositions(rs, checklist);
      if IsChecked(checklist, rs[last].questionId) {
        assert after == before + {last};
      } else {
        assert after == before;
      }
    }
  }

  /** Every checked record has some criterion set, so the checked count is at most the sum of the criterion counts. */
  lemma {:induction false} CheckedCountAtMostCriteriaSum(rs: seq<Record>, checklist: map<QuestionId, Checklist>)
    ensures CheckedCount(rs, checklist) <=
      CriterionCount(rs, checklist, SingleSentence) + CriterionCount(rs, checklist, MultipleSentences)
      + CriterionCount(rs, checklist, LowQualityDistractors) + CriterionCount(rs, checklist, UnsuitableParagraph)
      + CriterionCount(rs, checklist, UnclearAnswer) + CriterionCount(rs, checklist, OutsideKnowledge)
  {
    if rs != [] {
      CheckedCountAtMostCriteriaSum(rs[..|rs| - 1], checklist);
    }
  }

  /** Storing an entry with some flag set never lowers the checked count. */
  lemma {:induction false} CheckingNeverLowersProgress(rs: seq<Record>, checklist: map<QuestionId, Checklist>, id: QuestionId, e: Checklist)
    requires e.AnyChecked()
    ensures CheckedCount(rs, checklist) <= CheckedCount(rs, checklist[id := e])
  {
    if rs != [] {
      CheckingNeverLowersProgress(rs[..|rs| - 1], checklist, id, e);
    }
  }

  /** Storing an entry for an id no record carries leaves the checked count unchanged. */
  lemma {:induction false} ForeignEntryKeepsProgress(rs: seq<Record>, checklist: map<QuestionId, Checklist>, id: QuestionId, e: Checklist)
    requires forall r :: r in rs ==> r.questionId != id
    ensures CheckedCount(rs, checklist[id := e]) == CheckedCount(rs, checklist)
  {
    if rs != [] {
      assert rs[|rs| - 1] in rs;
      ForeignEntryKeepsProgress(rs[..|rs| - 1], checklist, id, e);
    }
  }

  // ---------------------------------------------------------------------------
  // Properties of resuming

  /** Resuming from a file a save wrote, with the cursor still in range, restores the saved state exactly. */
  lemma ResumeRoundTrip(f: ProgressFile, n: nat, current: SessionProgress)
    requires f.progress.currentIndex < n
    ensures Resume(Reread(f), n, current) == f.progress
  {
  }

  /**
    Reopening a document resumes from what the last save at its companion path
    left there: with the saved cursor still in range, exactly the saved state.
  */
  lemma ResumeFromSaved(files: map<string, ProgressFile>, path: string, n: nat, current: SessionProgress)
    requires path in files && files[path].progress.currentIndex < n
    ensures StoredAt(DiskOf(files), path) == Reread(files[path])
    ensures Resume(StoredAt(DiskOf(files), path), n, current) == files[path].progress
  {
    ResumeRoundTrip(files[path], n, current);
  }

  /** A missing, unreadable or out-of-range cursor puts the cursor on the first record. */
  lemma ResumeFallsBackToFirst(stored: StoredProgress, n: nat, current: SessionProgress)
    requires n > 0
    requires !(stored.Stored? && stored.currentIndex.Some? && 0 <= stored.currentIndex.value < n)
    ensures Resume(stored, n, current).currentIndex == 0
  {
  }
}
