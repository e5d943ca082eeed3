/**
  The extraction pass of `load_xml`: one walk over the document that keeps each
  surviving (Segment, Question) pair and flattens it into one record.
*/
module Loader {
  import opened Options
  import opened Xml
  import opened Seqs

  /** One answer option, kept only when its text is non-empty. */
  datatype Choice = Choice(id: Option<string>, text: string)

  /** One flattened (segment, question) record, as held in `segments`. */
  datatype Record = Record(
    segmentId: Option<string>,
    documentTitle: Option<string>,
    segmentTitle: Option<string>,
    segmentText: string,
    questionId: Option<string>,
    questionType: Option<string>,
    questionText: string,
    choices: seq<Choice>,
    correctChoice: Option<string>)

  /** The segment-level fields copied into every record of one segment. */
  datatype SegmentFields = SegmentFields(
    segmentId: Option<string>,
    documentTitle: Option<string>,
    segmentTitle: Option<string>,
    segmentText: string)

  const UnknownTitle: string := "Unknown"

  /** `elem.text if elem is not None else default`: a present element keeps its text, even None. */
  function TextOr(found: Option<Element>, default: string): (r: Option<string>)
    ensures found.None? ==> r == Some(default)
    ensures r.None? <==> found.Some? && found.value.text.None?
    ensures found.Some? && found.value.text.Some? ==> r == found.value.text
  {
    if found.Some? then found.value.text else Some(default)
  }

  /** The choice kept for one Choice element: only when its text is non-empty. */
  function ChoiceOf(e: Element): Option<Choice>
  {
    if HasText(e.text) then Some(Choice(Attr(e, "id"), e.text.value)) else None
  }

  /** The choices kept from the Choice elements `cs`, in order. */
  function ChoicesOf(cs: seq<Element>): seq<Choice>
  {
    FilterMap(cs, ChoiceOf)
  }

  /** The fields of a segment, or None when it has no SegmentText child or that text is empty. */
  function SegmentFieldsOf(seg: Element): (r: Option<SegmentFields>)
    ensures r.Some? <==> Find(seg, "SegmentText").Some? && HasText(Find(seg, "SegmentText").value.text)
    ensures r.Some? ==> r.value.segmentText != "" && r.value.segmentId == Attr(seg, "id")
    ensures r.Some? ==> r.value.documentTitle == TextOr(Find(seg, "DocumentTitle"), UnknownTitle)
    ensures r.Some? ==> r.value.segmentTitle == TextOr(Find(seg, "SegmentTitle"), "")
  {
    var st := Find(seg, "SegmentText");
    if st.None? || !HasText(st.value.text) then None
    else Some(SegmentFields(
      Attr(seg, "id"),
      TextOr(Find(seg, "DocumentTitle"), UnknownTitle),
      TextOr(Find(seg, "SegmentTitle"), ""),
      st.value.text.value))
  }

  /** The record of question `q` in a segment with fields `f`, or None when the question is skipped. */
  function QuestionRecord(f: SegmentFields, q: Element): (r: Option<Record>)
    ensures r.Some? <==>
      Find(q, "QuestionText").Some? && HasText(Find(q, "QuestionText").value.text) && Find(q, "Choices").Some?
    ensures r.Some? ==> r.value.questionText != "" && r.value.questionId == Attr(q, "id")
    ensures r.Some? ==>
      && r.value.segmentId == f.segmentId && r.value.documentTitle == f.documentTitle
      && r.value.segmentTitle == f.segmentTitle && r.value.segmentText == f.segmentText
  {
    var qt := Find(q, "QuestionText");
    var ch := Find(q, "Choices");
    if qt.None? || !HasText(qt.value.text) || ch.None? then None
    else Some(Record(
      f.segmentId, f.documentTitle, f.segmentTitle, f.segmentText,
      Attr(q, "id"),
      TextOr(Find(q, "QuestionType"), ""),
      qt.value.text.value,
      ChoicesOf(FindAll(ch.value, "Choice")),
      TextOr(Find(q, "CorrectChoice"), "")))
  }

  /** The records of the questions `qs` of one segment, in question order. */
  function QuestionRecords(f: SegmentFields, qs: seq<Element>): seq<Record>
  {
    FilterMap(qs, q => QuestionRecord(f, q))
  }

  /** The records of one segment: none when it lacks text or a QA child. */
  function SegmentRecords(seg: Element): seq<Record>
  {
    match SegmentFieldsOf(seg)
    case None => []
    case Some(f) =>
      match Find(seg, "QA")
      case None => []
      case Some(qa) => QuestionRecords(f, FindAll(qa, "Question"))
  }

  /** The records of the segments `segs`, in segment order. */
  function RecordsOf(segs: seq<Element>): seq<Record>
  {
    FlatMap(segs, SegmentRecords)
  }

  /** The whole extraction: the records of the root's Segment children. */
  function Extract(root: Element): (rs: seq<Record>)
    ensures |rs| <= QuestionElementCount(FindAll(root, "Segment"))
  {
    RecordCountBound(FindAll(root, "Segment"));
    RecordsOf(FindAll(root, "Segment"))
  }

  /** The number of Question elements under the first QA child of a segment. */
  function QuestionElements(seg: Element): nat
  {
    var qa := Find(seg, "QA");
    if qa.Some? then |FindAll(qa.value, "Question")| else 0
  }

  /** The number of Question elements the walk visits over the segments `segs`. */
  function QuestionElementCount(segs: seq<Element>): nat
  {
    if segs == [] then 0
    else QuestionElementCount(segs[..|segs| - 1]) + QuestionElements(segs[|segs| - 1])
  }

  /**
    When `q` is a question of segment `seg` that the walk emits as record `r`: the
    segment has non-empty SegmentText and a QA child listing `q`, the question has
    non-empty QuestionText and a Choices child, and `r` holds the segment's fields
    and the question's fields with their defaults.
  */
  ghost predicate Emits(seg: Element, q: Element, r: Record)
  {
    var st := Find(seg, "SegmentText");
    var qa := Find(seg, "QA");
    var qt := Find(q, "QuestionText");
    var ch := Find(q, "Choices");
    && st.Some? && HasText(st.value.text)
    && qa.Some? && q in FindAll(qa.value, "Question")
    && qt.Some? && HasText(qt.value.text)
    && ch.Some?
    && r.segmentId == Attr(seg, "id")
    && r.documentTitle == (if Find(seg, "DocumentTitle").Some? then Find(seg, "DocumentTitle").value.text else Some("Unknown"))
    && r.segmentTitle == (if Find(seg, "SegmentTitle").Some? then Find(seg, "SegmentTitle").value.text else Some(""))
    && r.segmentText == st.value.text.value
    && r.questionId == Attr(q, "id")
    && r.questionType == (if Find(q, "QuestionType").Some? then Find(q, "QuestionType").value.text else Some(""))
    && r.questionText == qt.value.text.value
    && r.choices == ChoicesOf(FindAll(ch.value, "Choice"))
    && r.correctChoice == (if Find(q, "CorrectChoice").Some? then Find(q, "CorrectChoice").value.text else Some(""))
  }

  // ---------------------------------------------------------------------------
  // Choices

  /**
    The kept choices are exactly the Choice elements with non-empty text, with
    their id and text, in element order; there are at most as many as elements,
    and none at all when every element is textless.
  */
  lemma ChoicesOfExact(cs: seq<Element>)
    ensures |ChoicesOf(cs)| <= |cs|
    ensures forall c :: c in ChoicesOf(cs) <==> exists e :: e in cs && HasText(e.text) && c == Choice(Attr(e, "id"), e.text.value)
    ensures forall c :: c in ChoicesOf(cs) ==> c.text != ""
    ensures (forall e :: e in cs ==> !HasText(e.text)) ==> ChoicesOf(cs) == []
    ensures forall a, b :: cs == a + b ==> ChoicesOf(cs) == ChoicesOf(a) + ChoicesOf(b)
  {
    FilterMapLength(cs, ChoiceOf);
    forall c ensures c in ChoicesOf(cs) <==> exists e :: e in cs && ChoiceOf(e) == Some(c) {
      FilterMapMembership(cs, ChoiceOf, c);
    }
    if ChoicesOf(cs) != [] {
      assert ChoicesOf(cs)[0] in ChoicesOf(cs);
    }
    forall a, b | cs == a + b ensures ChoicesOf(cs) == ChoicesOf(a) + ChoicesOf(b) {
      FilterMapAppend(a, b, ChoiceOf);
    }
  }

  // ---------------------------------------------------------------------------
  // Records

  /** Extraction distributes over the Segment list: records follow segment order. */
  lemma RecordsOfAppend(a: seq<Element>, b: seq<Element>)
    ensures RecordsOf(a + b) == RecordsOf(a) + RecordsOf(b)
  {
    FlatMapAppend(a, b, SegmentRecords);
  }

  /** Within a segment, extraction distributes over the Question list: records follow question order. */
  lemma QuestionRecordsAppend(f: SegmentFields, a: seq<Element>, b: seq<Element>)
    ensures QuestionRecords(f, a + b) == QuestionRecords(f, a) + QuestionRecords(f, b)
  {
    FilterMapAppend(a, b, q => QuestionRecord(f, q));
  }

  /** A segment yields at most one record per Question element under its QA child. */
  lemma SegmentRecordsCount(seg: Element)
    ensures |SegmentRecords(seg)| <= QuestionElements(seg)
  {
    match SegmentFieldsOf(seg)
    case None =>
    case Some(f) =>
      match Find(seg, "QA")
      case None =>
      case Some(qa) => FilterMapLength(FindAll(qa, "Question"), q => QuestionRecord(f, q));
  }

  /** The record count is at most the number of Question elements under QA children. */
  lemma {:induction false} RecordCountBound(segs: seq<Element>)
    ensures |RecordsOf(segs)| <= QuestionElementCount(segs)
  {
    if segs != [] {
      var init, last := segs[..|segs| - 1], segs[|segs| - 1];
      RecordCountBound(init);
      SegmentRecordsCount(last);
      assert RecordsOf(segs) == RecordsOf(init) + SegmentRecords(last);
    }
  }

  /** `Emits` is the record the question yields when the segment passes its own checks. */
  lemma EmitsIsQuestionRecord(seg: Element, q: Element, r: Record)
    ensures Emits(seg, q, r) <==>
      && SegmentFieldsOf(seg).Some? && Find(seg, "QA").Some?
      && q in FindAll(Find(seg, "QA").value, "Question")
      && QuestionRecord(SegmentFieldsOf(seg).value, q) == Some(r)
  {
    var fields, qa := SegmentFieldsOf(seg), Find(seg, "QA");
    if fields.Some? && qa.Some? && q in FindAll(qa.value, "Question") {
      var emitted := QuestionRecord(fields.value, q);
      if emitted.Some? {
        assert Emits(seg, q, emitted.value);
        if Emits(seg, q, r) {
          assert r == emitted.value;
        }
      }
    }
  }

  /** The records of one segment are exactly those `Emits` describes for that segment. */
  lemma SegmentRecordsMembership(seg: Element, r: Record)
    ensures r in SegmentRecords(seg) <==> exists q :: Emits(seg, q, r)
  {
    match SegmentFieldsOf(seg)
    case None =>
      forall q ensures !Emits(seg, q, r) {
        EmitsIsQuestionRecord(seg, q, r);
      }
    case Some(f) =>
      match Find(seg, "QA")
      case None =>
        forall q ensures !Emits(seg, q, r) {
          EmitsIsQuestionRecord(seg, q, r);
        }
      case Some(qa) =>
        var qs := FindAll(qa, "Question");
        FilterMapMembership(qs, q => QuestionRecord(f, q), r);
        forall q ensures Emits(seg, q, r) <==> q in qs && QuestionRecord(f, q) == Some(r) {
          EmitsIsQuestionRecord(seg, q, r);
        }
  }

  /**
    The skip rules and defaults, both ways: a record is extracted exactly when
    some Segment child of the root and some Question of its QA child pass every
    check and the record carries their fields with the stated defaults.
  */
  lemma ExtractMembership(root: Element, r: Record)
    ensures r in Extract(root) <==> exists seg, q :: seg in FindAll(root, "Segment") && Emits(seg, q, r)
  {
    var segs := FindAll(root, "Segment");
    FlatMapMembership(segs, SegmentRecords, r);
    forall seg | seg in segs ensures r in SegmentRecords(seg) <==> exists q :: Emits(seg, q, r) {
      SegmentRecordsMembership(seg, r);
    }
  }

  /**
    Every extracted record has non-empty segment text and question text, and
    every one of its choices has non-empty text.
  */
  lemma ExtractedRecordsHaveText(root: Element)
    ensures forall r :: r in Extract(root) ==> r.segmentText != "" && r.questionText != ""
    ensures forall r, c :: r in Extract(root) && c in r.choices ==> c.text != ""
  {
    forall r | r in Extract(root)
      ensures r.segmentText != "" && r.questionText != ""
      ensures forall c :: c in r.choices ==> c.text != ""
    {
      ExtractMembership(root, r);
      var seg, q :| seg in FindAll(root, "Segment") && Emits(seg, q, r);
      ChoicesOfExact(FindAll(Find(q, "Choices").value, "Choice"));
    }
  }

  /** A segment with a QA child yields fewer records than Questions when it skips one of them. */
  lemma SegmentSkips(seg: Element, q: Element)
    requires Find(seg, "QA").Some? && q in FindAll(Find(seg, "QA").value, "Question")
    requires SegmentFieldsOf(seg).None? || QuestionRecord(SegmentFieldsOf(seg).value, q).None?
    ensures |SegmentRecords(seg)| < QuestionElements(seg)
  {
    var qa := Find(seg, "QA").value;
    match SegmentFieldsOf(seg)
    case None =>
    case Some(f) => FilterMapRejects(FindAll(qa, "Question"), q' => QuestionRecord(f, q'), q);
  }

  /**
    The record count falls short of the Question count exactly by the skips:
    as soon as some Segment with a QA child skips one of its Questions (the
    segment lacks text, or the question lacks text or Choices), there are
    fewer records than Questions visited.
  */
  lemma {:induction false} RecordCountStrict(segs: seq<Element>, seg: Element, q: Element)
    requires seg in segs && Find(seg, "QA").Some? && q in FindAll(Find(seg, "QA").value, "Question")
    requires SegmentFieldsOf(seg).None? || QuestionRecord(SegmentFieldsOf(seg).value, q).None?
    ensures |RecordsOf(segs)| < QuestionElementCount(segs)
  {
    var init, last := segs[..|segs| - 1], segs[|segs| - 1];
    assert segs == init + [last];
    assert RecordsOf(segs) == RecordsOf(init) + SegmentRecords(last);
    if seg == last {
      RecordCountBound(init);
      SegmentSkips(seg, q);
    } else {
      RecordCountStrict(init, seg, q);
      SegmentRecordsCount(last);
    }
  }

  /** A document whose walk skips some Question yields fewer records than Questions under QA children. */
  lemma ExtractCountStrict(root: Element, seg: Element, q: Element)
    requires seg in FindAll(root, "Segment") && Find(seg, "QA").Some? && q in FindAll(Find(seg, "QA").value, "Question")
    requires SegmentFieldsOf(seg).None? || QuestionRecord(SegmentFieldsOf(seg).value, q).None?
    ensures |Extract(root)| < QuestionElementCount(FindAll(root, "Segment"))
  {
    RecordCountStrict(FindAll(root, "Segment"), seg, q);
  }

  // ---------------------------------------------------------------------------
  // The walk itself

  /** The inner loop over the Choice children: keeps those with text, in order. */
  method CollectChoices(choicesElem: Element) returns (choices: seq<Choice>)
    ensures choices == ChoicesOf(FindAll(choicesElem, "Choice"))
  {
    var cs := FindAll(choicesElem, "Choice");
    choices := [];
    var k := 0;
    while k < |cs|
      invariant 0 <= k <= |cs|
      invariant choices == ChoicesOf(cs[..k])
    {
      var e := cs[k];
      FilterMapSnoc(cs, k, ChoiceOf);
      if HasText(e.text) {
        choices := choices + [Choice(Attr(e, "id"), e.text.value)];
      }
      k := k + 1;
    }
    assert cs[..k] == cs;
  }

  /**
    The inner loop of `load_xml` over the Question children of a QA element:
    skip questions without text or Choices, and collect one record per
    surviving question, carrying the segment's fields `f`.
  */
  method CollectQuestions(f: SegmentFields, qa: Element) returns (records: seq<Record>)
    ensures records == QuestionRecords(f, FindAll(qa, "Question"))
  {
    var qs := FindAll(qa, "Question");
    records := [];
    var j := 0;
    while j < |qs|
      invariant 0 <= j <= |qs|
      invariant records == QuestionRecords(f, qs[..j])
    {
      var q := qs[j];
      FilterMapSnoc(qs, j, q => QuestionRecord(f, q));
      ghost var emitted := QuestionRecord(f, q);
      assert QuestionRecords(f, qs[..j + 1]) == records + (if emitted.Some? then [emitted.value] else []);
      var questionType := TextOr(Find(q, "QuestionType"), "");
      var questionText := Find(q, "QuestionText");
      if questionText.Some? && HasText(questionText.value.text) {
        var choicesElem := Find(q, "Choices");
        if choicesElem.Some? {
          var choices := CollectChoices(choicesElem.value);
          var correct := TextOr(Find(q, "CorrectChoice"), "");
          var r := Record(
            f.segmentId, f.documentTitle, f.segmentTitle, f.segmentText,
            Attr(q, "id"), questionType, questionText.value.text.value, choices, correct);
          assert emitted == Some(r);
          records := records + [r];
        }
      }
      j := j + 1;
    }
    assert qs[..j] == qs;
  }

  /**
    The outer loop of `load_xml`: walk the Segment children, skip segments
    without text or QA, and append the records of each remaining segment's
    questions, in order.
  */
  method Load(root: Element) returns (records: seq<Record>)
    ensures records == Extract(root)
  {
    var segs := FindAll(root, "Segment");
    records := [];
    var i := 0;
    while i < |segs|
      invariant 0 <= i <= |segs|
      invariant records == RecordsOf(segs[..i])
    {
      var seg := segs[i];
      FlatMapSnoc(segs, i, SegmentRecords);
      var segmentText := Find(seg, "SegmentText");
      if segmentText.Some? && HasText(segmentText.value.text) {
        var docTitle := TextOr(Find(seg, "DocumentTitle"), UnknownTitle);
        var segTitle := TextOr(Find(seg, "SegmentTitle"), "");
        var qa := Find(seg, "QA");
        if qa.Some? {
          var f := SegmentFields(Attr(seg, "id"), docTitle, segTitle, segmentText.value.text.value);
          var questionRecords := CollectQuestions(f, qa.value);
          records := records + questionRecords;
        }
      }
      i := i + 1;
    }
    assert segs[..i] == segs;
  }
}
