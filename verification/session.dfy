/**
  The validator's session state and the operations the window's handlers call:
  loading a document, moving between questions, recording judgments, and
  saving, resuming, summarising and exporting progress.
*/
module Session {
  import opened Options
  import opened Xml
  import opened Loader
  import opened Progress
  import Text
  import Paths

  /** The inner counting loop: one more for every criterion the entry has set. */
  method AddEntry(counts: map<Criterion, nat>, entry: Checklist) returns (updated: map<Criterion, nat>)
    requires forall c: Criterion :: c in counts
    ensures forall c: Criterion :: c in updated && updated[c] == counts[c] + (if entry.Has(c) then 1 else 0)
  {
    CriteriaComplete();
    updated := counts;
    var k := 0;
    while k < |Criteria|
      invariant 0 <= k <= |Criteria|
      invariant forall c: Criterion ::
        c in updated && updated[c] == counts[c] + (if c in Criteria[..k] && entry.Has(c) then 1 else 0)
    {
      var c := Criteria[k];
      assert forall d: Criterion :: d in Criteria[..k + 1] <==> d in Criteria[..k] || d == c;
      if entry.Has(c) {
        updated := updated[c := updated[c] + 1];
      }
      k := k + 1;
    }
    assert Criteria[..k] == Criteria;
  }

  class Validator {
    /** The extracted records of the open document. */
    var segments: seq<Record>
    /** The position of the record on display. */
    var currentIndex: nat
    /** The checklist entries recorded so far, by question id. */
    var checklist: map<QuestionId, Checklist>
    /** The comments recorded so far, by question id. */
    var comments: map<QuestionId, string>
    /** The path of the open document, once one has been parsed. */
    var xmlFilePath: Option<string>
    /** The progress files this session has written, by path. */
    var written: map<string, ProgressFile>

    /** The cursor stays on a record, and records only exist for a parsed document. */
    ghost predicate Valid()
      reads this
    {
      |segments| > 0 ==> currentIndex < |segments| && xmlFilePath.Some?
    }

    /** The judgment state a save writes out. */
    function State(): SessionProgress
      reads this
    {
      SessionProgress(checklist, comments, currentIndex)
    }

    /** The progress file a save writes out now. */
    function Snapshot(): ProgressFile
      reads this
    {
      ProgressFile(State(), MetadataOf(segments, checklist))
    }

    constructor ()
      ensures Valid()
      ensures segments == [] && currentIndex == 0 && checklist == map[] && comments == map[]
      ensures xmlFilePath == None && written == map[]
    {
      segments := [];
      currentIndex := 0;
      checklist := map[];
      comments := map[];
      xmlFilePath := None;
      written := map[];
    }

    /** `update_progress_bar`: the share of checked records, 0 without records. */
    function ProgressValue(): (p: real)
      reads this
      ensures 0.0 <= p <= 100.0
      ensures segments == [] ==> p == 0.0
      ensures segments != [] ==> p * (|segments| as real) == 100.0 * (CheckedCount(segments, checklist) as real)
    {
      if segments == [] then 0.0 else Percentage(CheckedCount(segments, checklist), |segments|)
    }

    /** The per-criterion counting loop of `save_progress`, `show_summary` and `export_json`. */
    method CountCriteria() returns (counts: map<Criterion, nat>)
      ensures counts == CountsOf(segments, checklist)
    {
      CriteriaComplete();
      counts := map c: Criterion | c in Criteria :: 0;
      var i := 0;
      while i < |segments|
        invariant 0 <= i <= |segments|
        invariant forall c: Criterion :: c in counts && counts[c] == CriterionCount(segments[..i], checklist, c)
      {
        var qid := segments[i].questionId;
        assert segments[..i + 1][..i] == segments[..i];
        if qid in checklist {
          counts := AddEntry(counts, checklist[qid]);
        }
        i := i + 1;
      }
      assert segments[..i] == segments;
    }

    /**
      The statistics block shared by `save_progress` and `export_json`: the
      per-criterion counts and the metadata object built from them.
    */
    method Statistics() returns (counts: map<Criterion, nat>, metadata: Metadata)
      ensures counts == CountsOf(segments, checklist)
      ensures metadata == MetadataOf(segments, checklist)
    {
      var total := |segments|;
      var checked := CheckedCount(segments, checklist);
      counts := CountCriteria();
      metadata := Metadata(
        total,
        checked,
        Percentage(checked, total),
        map c: Criterion | c in Criteria :: Percentage(counts[c], total));
    }

    /** `save_progress`: write the current judgment state and statistics to the companion file. */
    method SaveProgress()
      modifies this`written
      ensures old(Valid()) ==> Valid()
      ensures written == if xmlFilePath.Some? then old(written)[Paths.ProgressPath(xmlFilePath.value) := Snapshot()] else old(written)
      ensures Valid() && |segments| > 0 ==>
        Resume(StoredAt(DiskOf(written), Paths.ProgressPath(xmlFilePath.value)), |segments|, SessionProgress(map[], map[], 0)) == State()
    {
      if xmlFilePath.None? {
        return;
      }
      var _, metadata := Statistics();
      written := written[Paths.ProgressPath(xmlFilePath.value) := ProgressFile(State(), metadata)];
      if Valid() && |segments| > 0 {
        ResumeFromSaved(written, Paths.ProgressPath(xmlFilePath.value), |segments|, SessionProgress(map[], map[], 0));
      }
    }

    /** `auto_save_progress`: save, but only once a document with records is open. */
    method AutoSaveProgress()
      modifies this`written
      ensures old(Valid()) ==> Valid()
      ensures written ==
        if xmlFilePath.Some? && |segments| > 0
        then old(written)[Paths.ProgressPath(xmlFilePath.value) := Snapshot()]
        else old(written)
    {
      if xmlFilePath.None? || |segments| == 0 {
        return;
      }
      SaveProgress();
    }

    /**
      `load_question`: ignore an index outside the records; otherwise save the
      state being left, then move the cursor to `index`.
    */
    method LoadQuestion(index: int)
      modifies this`currentIndex, this`written
      ensures old(Valid()) ==> Valid()
      ensures xmlFilePath.Some? && 0 <= index < |segments| ==> Valid()
      ensures if |segments| == 0 || index < 0 || index >= |segments|
        then currentIndex == old(currentIndex) && written == old(written)
        else currentIndex == index && written == AfterSave(old(written), old(Snapshot()))
    {
      if |segments| == 0 || index < 0 || index >= |segments| {
        return;
      }
      AutoSaveProgress();
      currentIndex := index;
    }

    /** The written files after saving `f` for the open document. */
    function AfterSave(files: map<string, ProgressFile>, f: ProgressFile): map<string, ProgressFile>
      reads this
    {
      if xmlFilePath.Some? then files[Paths.ProgressPath(xmlFilePath.value) := f] else files
    }

    /** `prev_question`: move back one record, saving the state being left, unless on the first. */
    method PrevQuestion()
      requires Valid()
      modifies this`currentIndex, this`written
      ensures Valid()
      ensures if old(currentIndex) > 0 && |segments| > 0
        then currentIndex == old(currentIndex) - 1 && written == AfterSave(old(written), old(Snapshot()))
        else currentIndex == old(currentIndex) && written == old(written)
    {
      if currentIndex > 0 {
        LoadQuestion(currentIndex - 1);
      }
    }

    /** `next_question`: move on one record, saving the state being left, unless on the last. */
    method NextQuestion()
      requires Valid()
      modifies this`currentIndex, this`written
      ensures Valid()
      ensures if old(currentIndex) + 1 < |segments|
        then currentIndex == old(currentIndex) + 1 && written == AfterSave(old(written), old(Snapshot()))
        else currentIndex == old(currentIndex) && written == old(written)
    {
      if currentIndex < |segments| - 1 {
        LoadQuestion(currentIndex + 1);
      }
    }

    /** `save_current_checklist`: record the ticked criteria for the question on display. */
    method SaveCurrentChecklist(entry: Checklist)
      requires Valid()
      modifies this`checklist
      ensures Valid()
      ensures checklist == if |segments| == 0 then old(checklist) else old(checklist)[segments[currentIndex].questionId := entry]
    {
      if |segments| == 0 {
        return;
      }
      var questionId := segments[currentIndex].questionId;
      checklist := checklist[questionId := entry];
    }

    /** `save_current_comment`: record the stripped comment box text for the question on display. */
    method SaveCurrentComment(text: string)
      requires Valid()
      modifies this`comments
      ensures Valid()
      ensures comments == if |segments| == 0 then old(comments) else old(comments)[segments[currentIndex].questionId := Text.Strip(text)]
    {
      if |segments| == 0 {
        return;
      }
      var questionId := segments[currentIndex].questionId;
      var comment := Text.Strip(text);
      comments := comments[questionId := comment];
    }

    /**
      `try_load_progress`: read what `disk` holds at the companion path of the
      open document and adopt its maps and cursor. Moving the cursor goes
      through `load_question`, which first saves the adopted maps with the
      cursor as it was before the resume.
    */
    method TryLoadProgress(disk: Disk)
      modifies this`checklist, this`comments, this`currentIndex, this`written
      ensures old(Valid()) ==> Valid()
      ensures xmlFilePath.Some? ==> Valid()
      ensures xmlFilePath.None? ==> State() == old(State()) && written == old(written)
      ensures xmlFilePath.Some? ==>
        State() == Resume(StoredAt(disk, Paths.ProgressPath(xmlFilePath.value)), |segments|, old(State()))
      ensures xmlFilePath.Some? ==> (written ==
        if |segments| == 0 then old(written)
        else old(written)[Paths.ProgressPath(xmlFilePath.value) :=
          ProgressFile(State().(currentIndex := old(currentIndex)), MetadataOf(segments, checklist))])
    {
      if xmlFilePath.None? {
        return;
      }
      var progressFile := Paths.ProgressPath(xmlFilePath.value);
      var stored := if progressFile in disk then disk[progressFile] else NoFile;
      var index := 0;
      if stored.Stored? {
        if stored.checklist.Some? {
          checklist := stored.checklist.value;
        }
        if stored.comments.Some? {
          comments := stored.comments.value;
        }
        if stored.currentIndex.Some? && 0 <= stored.currentIndex.value < |segments| {
          index := stored.currentIndex.value;
        }
      }
      LoadQuestion(index);
    }

    /**
      `load_xml`: a parse failure (`doc` is None) changes nothing; otherwise the
      records of the document replace `segments`, and when there are any the
      progress `disk` holds at the companion path is resumed.
    */
    method LoadXml(path: string, doc: Option<Element>, disk: Disk)
      requires Valid()
      modifies this
      ensures Valid()
      ensures doc.None? ==> unchanged(this)
      ensures doc.Some? ==> segments == Extract(doc.value) && xmlFilePath == Some(path)
      ensures doc.Some? && |segments| == 0 ==> State() == old(State()) && written == old(written)
      ensures doc.Some? && |segments| > 0 ==>
        State() == Resume(StoredAt(disk, Paths.ProgressPath(path)), |segments|, old(State()))
      ensures doc.Some? && |segments| > 0 ==> written == old(written)[Paths.ProgressPath(path) :=
        ProgressFile(State().(currentIndex := old(currentIndex)), MetadataOf(segments, checklist))]
    {
      if doc.None? {
        return;
      }
      xmlFilePath := Some(path);
      var records := Load(doc.value);
      segments := records;
      if |segments| > 0 {
        TryLoadProgress(disk);
      }
    }

    /** `show_summary`: the counts behind the summary dialog, or None without records. */
    method ShowSummary() returns (s: Option<Summary>)
      ensures s.None? <==> |segments| == 0
      ensures s.Some? ==> s.value.totalQuestions == |segments|
      ensures s.Some? ==> s.value.questionsChecked == CheckedCount(segments, checklist) <= |segments|
      ensures s.Some? ==> s.value.questionsCommented == CommentedCount(segments, comments) <= |segments|
      ensures s.Some? ==> s.value.counts == CountsOf(segments, checklist)
    {
      if |segments| == 0 {
        return None;
      }
      var counts := CountCriteria();
      s := Some(Summary(|segments|, CheckedCount(segments, checklist), CommentedCount(segments, comments), counts));
    }

    /**
      `export_json`: the export object, or None without records; one row per
      record, in record order, with an all-false checklist and an empty comment
      for questions never judged.
    */
    method ExportJson() returns (e: Option<Export>)
      requires Valid()
      ensures e.None? <==> |segments| == 0
      ensures e.Some? ==> e.value.sourceFile == Paths.Basename(xmlFilePath.value)
      ensures e.Some? ==> e.value.counts == CountsOf(segments, checklist) && e.value.metadata == MetadataOf(segments, checklist)
      ensures e.Some? ==> |e.value.questions| == |segments|
      ensures e.Some? ==> forall i :: 0 <= i < |segments| ==> ExportedAs(segments[i], e.value.questions[i])
    {
      if |segments| == 0 {
        return None;
      }
      var source := if xmlFilePath.Some? then Paths.Basename(xmlFilePath.value) else "unknown";
      var counts, metadata := Statistics();
      var rows := ExportRows();
      e := Some(Export(source, counts, metadata, rows));
    }

    /** The `questions` loop of `export_json`: one defaulted row per record, in record order. */
    method ExportRows() returns (rows: seq<ExportRow>)
      ensures |rows| == |segments|
      ensures forall i :: 0 <= i < |segments| ==> ExportedAs(segments[i], rows[i])
    {
      rows := [];
      var i := 0;
      while i < |segments|
        invariant 0 <= i <= |segments|
        invariant |rows| == i
        invariant forall j :: 0 <= j < i ==> ExportedAs(segments[j], rows[j])
      {
        var segment := segments[i];
        var questionId := segment.questionId;
        var row := ExportRow(
          questionId,
          segment.segmentId,
          segment.documentTitle,
          segment.segmentTitle,
          segment.questionType,
          if questionId in checklist then checklist[questionId] else Unchecked,
          if questionId in comments then comments[questionId] else "");
        rows := rows + [row];
        i := i + 1;
      }
    }

    /**
      Row `row` exports record `r`: its identifiers and display fields, its
      stored checklist or all-false, its stored comment or "".
    */
    ghost predicate ExportedAs(r: Record, row: ExportRow)
      reads this
    {
      && row.questionId == r.questionId
      && row.segmentId == r.segmentId
      && row.documentTitle == r.documentTitle
      && row.segmentTitle == r.segmentTitle
      && row.questionType == r.questionType
      && (r.questionId in checklist ==> row.checklist == checklist[r.questionId])
      && (r.questionId !in checklist ==> row.checklist == Unchecked)
      && (r.questionId in comments ==> row.comment == comments[r.questionId])
      && (r.questionId !in comments ==> row.comment == "")
    }
  }

  /**
    Saving progress and then opening the same, unchanged document in a new
    session restores the judgment state, whatever else the disk held: the new
    session reads back the file the save wrote at the companion path.
  */
  method SaveAndReopen(v: Validator, doc: Element, disk: Disk) returns (w: Validator)
    requires v.Valid() && |v.segments| > 0 && v.segments == Extract(doc)
    modifies v`written
    ensures fresh(w) && w.Valid()
    ensures w.segments == v.segments && w.xmlFilePath == v.xmlFilePath
    ensures w.State() == v.State()
  {
    v.SaveProgress();
    w := new Validator();
    w.LoadXml(v.xmlFilePath.value, Some(doc), disk + DiskOf(v.written));
  }
}
