/**
 * The review detail view: one review's metadata, its extraction matrix and
 * final synthesis, inline editing of one row at a time, the fan-out that adds
 * one row per selected source, and the busy flags around saving and
 * extraction. The functions first state what each handler does to the
 * matrix and the metadata; the class then holds the view's state and its
 * handlers are proved against those functions.
 */
module LiteratureReview {
  import opened Options
  import opened Types
  import opened Remote
  import opened ReviewService

  /** The answer put in the row of a source whose extraction came back null. */
  const ExtractionFailedText: string := "Extraction failed or content unavailable."

  // ---------------------------------------------------------------------------
  // Adding sources

  /** The extraction request sent for one source: its id, the question and its own shard pointers. */
  function RequestFor(lib: LibraryItem, question: string): ExtractRequest
  {
    ExtractRequest(lib.id, question, lib.extractedJsonId, lib.storageNodeUrl)
  }

  /** The rows one source contributes: a filled row, a placeholder row for null, nothing for a throw. */
  function RowsFor(lib: LibraryItem, outcome: Async<Option<Extraction>>): seq<MatrixRow>
  {
    match outcome
    case Rejected => []
    case Resolved(Some(result)) => [MatrixRow(lib.id, lib.title, result.answer, result.verbatim)]
    case Resolved(None) => [MatrixRow(lib.id, lib.title, ExtractionFailedText, "")]
  }

  /** How many of the extraction calls settled without throwing. */
  function ResolvedCount(outcomes: seq<Async<Option<Extraction>>>): (n: nat)
    ensures n <= |outcomes|
  {
    if outcomes == [] then 0 else (if outcomes[0].Resolved? then 1 else 0) + ResolvedCount(outcomes[1..])
  }

  /**
   * The rows the fan-out collects, source by source in the given order;
   * `outcomes[i]` is how the extraction call for `libs[i]` ended. One row per
   * call that did not throw, so never more rows than sources.
   */
  function NewRows(libs: seq<LibraryItem>, outcomes: seq<Async<Option<Extraction>>>): (rows: seq<MatrixRow>)
    requires |outcomes| == |libs|
    ensures |rows| == ResolvedCount(outcomes) <= |libs|
  {
    if libs == [] then [] else RowsFor(libs[0], outcomes[0]) + NewRows(libs[1..], outcomes[1..])
  }

  /** Rows of earlier sources come before rows of later ones: the rows of a concatenated selection concatenate. */
  lemma {:induction false} NewRowsAppend(a: seq<LibraryItem>, oa: seq<Async<Option<Extraction>>>,
                                         b: seq<LibraryItem>, ob: seq<Async<Option<Extraction>>>)
    requires |oa| == |a| && |ob| == |b|
    ensures NewRows(a + b, oa + ob) == NewRows(a, oa) + NewRows(b, ob)
  {
    if a == [] {
      assert a + b == b && oa + ob == ob;
    } else {
      assert (a + b)[0] == a[0] && (oa + ob)[0] == oa[0];
      assert (a + b)[1..] == a[1..] + b && (oa + ob)[1..] == oa[1..] + ob;
      var head := RowsFor(a[0], oa[0]);
      calc {
        NewRows(a + b, oa + ob);
        head + NewRows(a[1..] + b, oa[1..] + ob);
        { NewRowsAppend(a[1..], oa[1..], b, ob); }
        head + (NewRows(a[1..], oa[1..]) + NewRows(b, ob));
        (head + NewRows(a[1..], oa[1..])) + NewRows(b, ob);
        NewRows(a, oa) + NewRows(b, ob);
      }
    }
  }

  /** Extending the selection by one source adds that source's rows at the end. */
  lemma {:induction false} NewRowsExtend(libs: seq<LibraryItem>, outcomes: seq<Async<Option<Extraction>>>, i: nat)
    requires |outcomes| == |libs| && i < |libs|
    ensures NewRows(libs[..i + 1], outcomes[..i + 1]) == NewRows(libs[..i], outcomes[..i]) + RowsFor(libs[i], outcomes[i])
  {
    assert libs[..i + 1] == libs[..i] + [libs[i]] && outcomes[..i + 1] == outcomes[..i] + [outcomes[i]];
    NewRowsAppend(libs[..i], outcomes[..i], [libs[i]], [outcomes[i]]);
    assert [libs[i]][1..] == [] && [outcomes[i]][1..] == [];
  }

  /**
   * When no extraction throws, source `i` yields row `i`: it carries the
   * source's id and title, and the extracted answer and quote, or the
   * placeholder answer with an empty quote when the extraction was null.
   */
  lemma {:induction false} NewRowsWhenNothingThrows(libs: seq<LibraryItem>, outcomes: seq<Async<Option<Extraction>>>, i: nat)
    requires |outcomes| == |libs| && i < |libs|
    requires forall k :: 0 <= k < |outcomes| ==> outcomes[k].Resolved?
    ensures |NewRows(libs, outcomes)| == |libs|
    ensures var row := NewRows(libs, outcomes)[i];
      && row.collectionId == libs[i].id && row.title == libs[i].title
      && (outcomes[i].value.Some? ==>
            row.answer == outcomes[i].value.value.answer && row.verbatim == outcomes[i].value.value.verbatim)
      && (outcomes[i].value.None? ==> row.answer == ExtractionFailedText && row.verbatim == "")
  {
    AllResolvedCount(outcomes);
    if i > 0 {
      NewRowsWhenNothingThrows(libs[1..], outcomes[1..], i - 1);
    }
  }

  /** With no throw among them, every call counts. */
  lemma {:induction false} AllResolvedCount(outcomes: seq<Async<Option<Extraction>>>)
    requires forall k :: 0 <= k < |outcomes| ==> outcomes[k].Resolved?
    ensures ResolvedCount(outcomes) == |outcomes|
  {
    if outcomes != [] {
      AllResolvedCount(outcomes[1..]);
    }
  }

  /**
   * The service's extraction never rejects, so when every outcome is one the
   * service produced, every selected source gets a row: the catch branch of
   * the fan-out is never taken.
   */
  lemma {:induction false} ServiceExtractionsSkipNoSource(endpoint: string, libs: seq<LibraryItem>,
                                                          replies: seq<Async<GasReply<Option<Extraction>>>>,
                                                          outcomes: seq<Async<Option<Extraction>>>)
    requires |replies| == |libs| && |outcomes| == |libs|
    requires forall i :: 0 <= i < |libs| ==> outcomes[i] == RunMatrixExtraction(endpoint, replies[i])
    ensures |NewRows(libs, outcomes)| == |libs|
  {
    forall i | 0 <= i < |outcomes| ensures outcomes[i].Resolved? {
      assert outcomes[i] == RunMatrixExtraction(endpoint, replies[i]);
    }
    AllResolvedCount(outcomes);
  }

  /**
   * Three sources: the first extracts, the second comes back null, the third
   * throws. The fan-out yields two rows, in that order.
   */
  lemma SuccessNullThrowScenario(s1: LibraryItem, s2: LibraryItem, s3: LibraryItem, x: Extraction)
    ensures NewRows([s1, s2, s3], [Resolved(Some(x)), Resolved(None), Rejected])
         == [MatrixRow(s1.id, s1.title, x.answer, x.verbatim), MatrixRow(s2.id, s2.title, ExtractionFailedText, "")]
  {
  }

  // ---------------------------------------------------------------------------
  // Removing a row

  /** `matrix.filter((_, i) => i !== idx)`: keep every row whose position is not `idx`. */
  function FilterOut(m: seq<MatrixRow>, idx: int): (r: seq<MatrixRow>)
    ensures |r| == if 0 <= idx < |m| then |m| - 1 else |m|
  {
    if m == [] then [] else (if idx == 0 then [] else [m[0]]) + FilterOut(m[1..], idx - 1)
  }

  /**
   * The filter removes exactly the row at `idx` and keeps the others in their
   * order; a position outside the matrix removes nothing.
   */
  lemma {:induction false} FilterOutRemovesExactlyOne(m: seq<MatrixRow>, idx: int)
    ensures FilterOut(m, idx) == if 0 <= idx < |m| then m[..idx] + m[idx + 1..] else m
  {
    if m != [] {
      FilterOutRemovesExactlyOne(m[1..], idx - 1);
      if 0 < idx < |m| {
        assert m[1..][..idx - 1] == m[1..idx] && m[1..][idx..] == m[idx + 1..];
        assert [m[0]] + m[1..idx] == m[..idx];
      } else if idx == 0 {
        assert m[1..] == m[idx + 1..];
      } else {
        assert [m[0]] + m[1..] == m;
      }
    }
  }

  /**
   * Removal does not move the edit index along. With a row below the removed
   * one in edit mode, the index afterwards names the row that followed the
   * edited one, or, when the edited row was the last, one past the end.
   */
  lemma {:induction false} RemovalRetargetsEdit(m: seq<MatrixRow>, removed: int, editing: nat)
    requires 0 <= removed < editing < |m|
    ensures editing + 1 < |m| ==> FilterOut(m, removed)[editing] == m[editing + 1]
    ensures editing + 1 == |m| ==> editing == |FilterOut(m, removed)|
  {
    FilterOutRemovesExactlyOne(m, removed);
  }

  // ---------------------------------------------------------------------------
  // Editing a row

  /**
   * Committing an inline edit: the row at `idx` gets the new answer and quote
   * and keeps its source id and title; every other row is untouched.
   */
  function CommitEdit(m: seq<MatrixRow>, idx: nat, answer: string, verbatim: string): (r: seq<MatrixRow>)
    requires idx < |m|
    ensures |r| == |m|
    ensures r[idx].collectionId == m[idx].collectionId && r[idx].title == m[idx].title
    ensures r[idx].answer == answer && r[idx].verbatim == verbatim
    ensures forall k :: 0 <= k < |m| && k != idx ==> r[k] == m[k]
  {
    m[idx := m[idx].(answer := answer, verbatim := verbatim)]
  }

  // ---------------------------------------------------------------------------
  // Metadata edits

  /**
   * `{ ...review, [field]: val, updatedAt: now }`: the named field gets the
   * value and `updatedAt` the clock reading, which wins when the named field
   * is `updatedAt` itself; every other field keeps its value.
   */
  function UpdateMeta(item: ReviewItem, field: MetaField, val: string, now: string): (r: ReviewItem)
    ensures r.updatedAt == now
    ensures field != UpdatedAt ==> FieldOf(r, field) == val
    ensures forall g :: g != field && g != UpdatedAt ==> FieldOf(r, g) == FieldOf(item, g)
  {
    WithField(item, field, val).(updatedAt := now)
  }

  /** One call of the metadata handler: field, value and the clock reading at that moment. */
  datatype MetaEdit = MetaEdit(field: MetaField, val: string, at: string)

  /** The metadata after a series of handler calls, in order. */
  function ApplyMetaEdits(item: ReviewItem, edits: seq<MetaEdit>): ReviewItem
    decreases |edits|
  {
    if edits == [] then item
    else ApplyMetaEdits(UpdateMeta(item, edits[0].field, edits[0].val, edits[0].at), edits[1..])
  }

  /**
   * Over any series of metadata edits, a field no edit names keeps its value,
   * and `updatedAt` holds the clock reading of the last edit. The clock
   * readings are inputs: nothing here makes them increase.
   */
  lemma {:induction false} MetaEditsTouchOnlyNamedFields(item: ReviewItem, edits: seq<MetaEdit>, f: MetaField)
    requires f != UpdatedAt
    requires forall k :: 0 <= k < |edits| ==> edits[k].field != f
    ensures FieldOf(ApplyMetaEdits(item, edits), f) == FieldOf(item, f)
    ensures edits != [] ==> ApplyMetaEdits(item, edits).updatedAt == edits[|edits| - 1].at
    decreases |edits|
  {
    if edits != [] {
      var next := UpdateMeta(item, edits[0].field, edits[0].val, edits[0].at);
      MetaEditsTouchOnlyNamedFields(next, edits[1..], f);
    }
  }

  // ---------------------------------------------------------------------------
  // The view

  /** The toasts the view shows. */
  datatype Notice = SourcesAnalyzed(count: nat) | ReviewSaved | SaveFailed | ConnectionError
  {
    predicate IsSuccess()
    {
      SourcesAnalyzed? || ReviewSaved?
    }

    function Text(): string
    {
      match this
      case SourcesAnalyzed(n) => Decimal(n) + " sources analyzed."
      case ReviewSaved => "Review saved successfully"
      case SaveFailed => "Save failed"
      case ConnectionError => "Connection error"
    }
  }

  /** The decimal digit character for a value below ten. */
  function Digit(m: nat): (c: char)
    requires m < 10
    ensures '0' <= c <= '9' && c as int - '0' as int == m
  {
    ('0' as int + m) as char
  }

  /** `${n}` for a count: its decimal digits, most significant first. */
  function Decimal(n: nat): string
  {
    if n < 10 then [Digit(n)] else Decimal(n / 10) + [Digit(n % 10)]
  }

  predicate IsDigits(s: string)
  {
    forall i :: 0 <= i < |s| ==> '0' <= s[i] <= '9'
  }

  /** The number a string of decimal digits denotes. */
  function DigitsValue(s: string): nat
    requires IsDigits(s)
  {
    if s == [] then 0 else DigitsValue(s[..|s| - 1]) * 10 + (s[|s| - 1] as int - '0' as int)
  }

  /**
   * The count in the toast is written in plain decimal: non-empty digits, no
   * leading zero, and reading them back gives the count.
   */
  lemma {:induction false} DecimalRoundTrip(n: nat)
    ensures var d := Decimal(n); d != [] && IsDigits(d) && (d[0] == '0' ==> n == 0) && DigitsValue(d) == n
  {
    if n >= 10 {
      var q, m := n / 10, n % 10;
      DecimalRoundTrip(q);
      var d := Decimal(n);
      assert d == Decimal(q) + [Digit(m)];
      assert d[..|d| - 1] == Decimal(q);
      assert DigitsValue(d) == q * 10 + m;
    }
  }

  class ReviewDetail {
    var review: Option<ReviewItem>
    var content: ReviewContent
    var isLoading: bool
    var isSaving: bool
    var isProcessing: bool
    var isSelectorOpen: bool
    var editingRowIdx: Option<nat>
    var editAnswer: string
    var editVerbatim: string

    /** The row in edit mode, if any, is a row of the matrix. */
    predicate EditInRange()
      reads this
    {
      editingRowIdx.None? || editingRowIdx.value < |content.matrix|
    }

    /** Mounting the view with the review handed over by navigation, if any. */
    constructor (navigated: Option<ReviewItem>)
      ensures review == navigated && content == ReviewContent([], "")
      ensures isLoading && !isSaving && !isProcessing && !isSelectorOpen
      ensures editingRowIdx.None? && editAnswer == "" && editVerbatim == ""
    {
      review := navigated;
      content := ReviewContent([], "");
      isLoading, isSaving, isProcessing, isSelectorOpen := true, false, false, false;
      editingRowIdx, editAnswer, editVerbatim := None, "", "";
    }

    /**
     * The load effect. Without a review but with a route id, leave the page
     * and change nothing. With a review that has a content pointer, fetch
     * from it (`fetched` is how that ends): content arrives only when the
     * fetch gives something, otherwise the current content stays; a fetch
     * that throws leaves the loading flag set. Otherwise just stop loading.
     */
    method Load(routeId: string, fetched: Async<Option<ReviewContent>>)
      returns (navigateAway: bool, fetchedFrom: Option<(string, string)>)
      modifies this`content, this`isLoading
      ensures navigateAway <==> review.None? && routeId != ""
      ensures fetchedFrom.Some? <==> review.Some? && review.value.reviewJsonId != ""
      ensures fetchedFrom.Some? ==> fetchedFrom.value == (review.value.reviewJsonId, review.value.storageNodeUrl)
      ensures content == (if fetchedFrom.Some? && fetched.Resolved? && fetched.value.Some?
                          then fetched.value.value else old(content))
      ensures isLoading == (if navigateAway then old(isLoading) else fetchedFrom.Some? && fetched.Rejected?)
    {
      navigateAway, fetchedFrom := false, None;
      if review.None? && routeId != "" {
        navigateAway := true;
        return;
      }
      if review.Some? && review.value.reviewJsonId != "" {
        isLoading := true;
        fetchedFrom := Some((review.value.reviewJsonId, review.value.storageNodeUrl));
        match fetched {
          case Rejected =>
            return;
          case Resolved(data) =>
            if data.Some? {
              content := data.value;
            }
        }
        isLoading := false;
      } else {
        isLoading := false;
      }
    }

    /** handleUpdateMeta: no review, no change; otherwise the metadata edit of `UpdateMeta`. */
    method HandleUpdateMeta(field: MetaField, val: string, now: string)
      modifies this`review
      ensures old(review).None? ==> review.None?
      ensures old(review).Some? ==> review == Some(UpdateMeta(old(review).value, field, val, now))
    {
      if review.Some? {
        review := Some(UpdateMeta(review.value, field, val, now));
      }
    }

    /**
     * The part of handleSave before its await: with a review, raise the
     * saving flag and hand the current metadata and content to the service.
     */
    method BeginSave() returns (request: Option<(ReviewItem, ReviewContent)>)
      modifies this`isSaving
      ensures review.None? ==> request.None? && isSaving == old(isSaving)
      ensures review.Some? ==> request == Some((review.value, content)) && isSaving
    {
      if review.None? {
        return None;
      }
      isSaving := true;
      request := Some((review.value, content));
    }

    /**
     * The part of handleSave after its await: whatever the service's promise
     * settled with, the saving flag is cleared; the toast tells success,
     * a false result and a throw apart.
     */
    method FinishSave(outcome: Async<bool>) returns (notice: Notice)
      modifies this`isSaving
      ensures !isSaving
      ensures notice.IsSuccess() <==> outcome == Resolved(true)
      ensures notice == (match outcome
                         case Resolved(true) => ReviewSaved
                         case Resolved(false) => SaveFailed
                         case Rejected => ConnectionError)
    {
      match outcome {
        case Resolved(ok) => notice := if ok then ReviewSaved else SaveFailed;
        case Rejected => notice := ConnectionError;
      }
      isSaving := false;
    }

    /**
     * handleAddSources: without a review, nothing happens. Otherwise close
     * the selector, keep the processing flag raised while one extraction per
     * source is requested in the given order, append the collected rows
     * after the existing ones, and, only if there are any, announce how many
     * and ask for a save. The flag is lowered at the end.
     */
    method HandleAddSources(libs: seq<LibraryItem>, outcomes: seq<Async<Option<Extraction>>>)
      returns (requests: seq<ExtractRequest>, notice: Option<Notice>, autoSave: bool)
      requires |outcomes| == |libs|
      modifies this`content, this`isSelectorOpen, this`isProcessing
      ensures review.None? ==>
        && requests == [] && notice.None? && !autoSave
        && content == old(content) && isSelectorOpen == old(isSelectorOpen) && isProcessing == old(isProcessing)
      ensures review.Some? ==> |requests| == |libs|
      ensures review.Some? ==>
        forall i :: 0 <= i < |libs| ==> requests[i] == RequestFor(libs[i], review.value.centralQuestion)
      ensures review.Some? ==> content.matrix == old(content.matrix) + NewRows(libs, outcomes)
      ensures review.Some? ==> content.finalSynthesis == old(content.finalSynthesis)
      ensures review.Some? ==> autoSave == (NewRows(libs, outcomes) != [])
      ensures review.Some? ==> notice == (if autoSave then Some(SourcesAnalyzed(|NewRows(libs, outcomes)|)) else None)
      ensures review.Some? ==> !isSelectorOpen && !isProcessing
      ensures old(EditInRange()) ==> EditInRange()
    {
      if review.None? {
        return [], None, false;
      }
      var question := review.value.centralQuestion;
      isSelectorOpen := false;
      isProcessing := true;
      var newRows: seq<MatrixRow> := [];
      requests := [];
      var i := 0;
      while i < |libs|
        invariant 0 <= i <= |libs|
        invariant isProcessing && !isSelectorOpen && content == old(content)
        invariant newRows == NewRows(libs[..i], outcomes[..i])
        invariant |requests| == i
        invariant forall k :: 0 <= k < i ==> requests[k] == RequestFor(libs[k], question)
      {
        ghost var before := newRows;
        requests := requests + [RequestFor(libs[i], question)];
        match outcomes[i] {
          case Rejected =>
            // only logged
          case Resolved(result) =>
            if result.Some? {
              newRows := newRows + [MatrixRow(libs[i].id, libs[i].title, result.value.answer, result.value.verbatim)];
            } else {
              newRows := newRows + [MatrixRow(libs[i].id, libs[i].title, ExtractionFailedText, "")];
            }
        }
        assert newRows == before + RowsFor(libs[i], outcomes[i]);
        NewRowsExtend(libs, outcomes, i);
        i := i + 1;
      }
      assert libs[..i] == libs && outcomes[..i] == outcomes;
      notice, autoSave := None, false;
      if |newRows| > 0 {
        content := content.(matrix := content.matrix + newRows);
        notice := Some(SourcesAnalyzed(|newRows|));
        autoSave := true;
      }
      isProcessing := false;
    }

    /** handleRemoveRow: only a confirmed removal filters out the row at `idx`. */
    method HandleRemoveRow(idx: int, confirmed: bool)
      modifies this`content
      ensures !confirmed ==> content == old(content)
      ensures confirmed ==> content == old(content).(matrix := FilterOut(old(content.matrix), idx))
    {
      if confirmed {
        content := content.(matrix := FilterOut(content.matrix, idx));
      }
    }

    /** startEditRow: put row `idx` in edit mode with `row`'s answer and quote as the scratch text. */
    method StartEditRow(idx: nat, row: MatrixRow)
      modifies this`editingRowIdx, this`editAnswer, this`editVerbatim
      ensures editingRowIdx == Some(idx)
      ensures editAnswer == row.answer && editVerbatim == row.verbatim
      ensures EditInRange() <==> idx < |content.matrix|
    {
      editingRowIdx := Some(idx);
      editAnswer := row.answer;
      editVerbatim := row.verbatim;
    }

    /** Typing in the answer box of the row in edit mode. */
    method SetEditAnswer(text: string)
      modifies this`editAnswer
      ensures editAnswer == text
    {
      editAnswer := text;
    }

    /** Typing in the quote box of the row in edit mode. */
    method SetEditVerbatim(text: string)
      modifies this`editVerbatim
      ensures editVerbatim == text
    {
      editVerbatim := text;
    }

    /**
     * saveEditRow: nothing in edit mode, nothing happens; otherwise the
     * scratch text replaces that row's answer and quote and edit mode ends.
     * The source does not check the index, so it is required in range here.
     */
    method SaveEditRow()
      requires EditInRange()
      modifies this`content, this`editingRowIdx
      ensures old(editingRowIdx).None? ==> content == old(content) && editingRowIdx.None?
      ensures old(editingRowIdx).Some? ==>
        content == old(content).(matrix := CommitEdit(old(content.matrix), old(editingRowIdx).value, editAnswer, editVerbatim))
      ensures editingRowIdx.None?
    {
      if editingRowIdx.None? {
        return;
      }
      content := content.(matrix := CommitEdit(content.matrix, editingRowIdx.value, editAnswer, editVerbatim));
      editingRowIdx := None;
    }

    /** The cancel button: leave edit mode; the matrix is not touched. */
    method CancelEditRow()
      modifies this`editingRowIdx
      ensures editingRowIdx.None?
    {
      editingRowIdx := None;
    }

    /** Typing in the final-synthesis box: only the synthesis changes. */
    method SetFinalSynthesis(text: string)
      modifies this`content
      ensures content == old(content).(finalSynthesis := text)
      ensures old(EditInRange()) ==> EditInRange()
    {
      content := content.(finalSynthesis := text);
    }
  }
}
