# Literature review matrix and consultation services — a Dafny model

This project models the literature-review detail view of a research-management
web application, together with the two services behind it. A review holds an
extraction matrix, with one row per source document. Each row gives an
AI-extracted answer to the review's central question and a verbatim quote
supporting it. The view edits that matrix in memory and saves it in two phases:
the content goes to a document-shard endpoint, and the metadata then goes to a
metadata store. The consultation service applies the same split to a
single-question consultation.

Modules:

- `Options`, `Types`: the `T | null` option and the records exchanged (review and consultation metadata, matrix rows, library items, extractions).
- `Remote`: how the remote calls end. `Async<T>` is `Resolved(value)` or `Rejected`; a rejection is any throw, such as a network error or a body that is not JSON. `GasReply` is the shard endpoint's JSON body. The endpoint URL counts as unset when it is the empty string. `SaveTrace` records what a save sent to each back end.
- `JsText`: `String.prototype.trim` with the ECMAScript whitespace set. The leading and trailing whitespace are located by counting, and the trimmed string is the slice between them.
- `ReviewService`, `ConsultationService`: the services as decision rules over the outcomes of the calls they make. Each outcome is a parameter.
- `LiteratureReview`: functions that say what the view's handlers do to the matrix and the metadata, lemmas about them, and the class `ReviewDetail`. The class holds the view's state (`review`, `content`, `editingRowIdx`, the scratch fields `editAnswer`/`editVerbatim`, and the flags `isLoading`, `isSaving`, `isProcessing`, `isSelectorOpen`). Each handler is a method proved against those functions.

Three behaviours of the code are worth stating plainly, because they are easy to misread:

- If the content fetch at load time finds nothing, `Load` keeps the current content; it does not reset it to an empty value. If the fetch throws, the loading flag stays set.
- A source whose extraction call throws adds no row, so a batch of sources can add fewer rows than were selected.
- Nothing makes `updatedAt` increase. The clock reading is an input and is stored as given.

An optional string field of the source (`reviewJsonId?`, `storageNodeUrl?`, `extractedJsonId?`, ...) is a plain string here, with "" meaning absent. The source's truthiness tests treat the two the same way. The review field `label` is `displayLabel`, because `label` is a reserved word in Dafny.

## Model

| member | source | states |
|---|---|---|
| `ReviewService.SaveReview` | services/ReviewService.ts:27-63 | Unset endpoint: false and no call. Content present: it is posted with the item. The upsert is skipped exactly when the shard call throws. The upserted item differs from the input only in `reviewJsonId`/`storageNodeUrl`, which come from the reply exactly on a `'success'` status. Once the upsert runs, its outcome is the result whatever the shard status was (false if it throws). The promise never rejects. |
| `ReviewService.DeleteReview` | services/ReviewService.ts:65-70 | The result is exactly the metadata store's delete of the same id, rejection included. |
| `ReviewService.RunMatrixExtraction` | services/ReviewService.ts:75-96 | Never rejects. The result is non-null iff the endpoint is set, the call did not throw, the status is `'success'` and `data` is non-null; it is then exactly `data`. |
| `ReviewService.TranslateReviewRowContent` | services/ReviewService.ts:107-112 | Never rejects. The result is non-null iff the proxy returned a non-empty string, and is then that string trimmed. |
| `ReviewService.BlankTranslationIsEmptyNotNull` | services/ReviewService.ts:109 | A non-empty all-whitespace proxy answer gives the empty string, not null: the truthiness test comes before the trim. |
| `JsText.LeadingWhitespace` | services/ReviewService.ts:109 | The count of leading characters that are whitespace: all before it are, and the one at it is not. |
| `JsText.TrailingStart` | services/ReviewService.ts:109 | Where the trailing whitespace begins: everything from it on is whitespace, and the character just before it is not. |
| `JsText.TrimStart` | services/ReviewService.ts:109 | Result is a suffix of the input, everything cut is whitespace, and it does not start with whitespace. |
| `JsText.TrimEnd` | services/ReviewService.ts:109 | Result is a prefix of the input, everything cut is whitespace, and it does not end with whitespace. |
| `JsText.Trim` | services/ReviewService.ts:109 | Result is the slice of the input that starts where the leading whitespace ends; everything after it is whitespace; it has no whitespace at either end; it is empty iff the input is all whitespace. |
| `JsText.TrimBothEnds` | services/ReviewService.ts:109 | Trimming both ends equals trimming the start, then trimming the end of the rest. |
| `JsText.TrimIdempotent` | services/ReviewService.ts:109 | Trimming twice equals trimming once. |
| `ConsultationService.CallAiConsult` | services/ConsultationService.ts:18-48 | Never rejects. Non-null iff the endpoint is set, the call did not throw and the status is `'success'`; then the answer is `data` and the reasoning is `reasoning`. |
| `ConsultationService.SaveConsultation` | services/ConsultationService.ts:59-91 | Unset endpoint: false and no call. Otherwise the content is posted. The upsert runs iff the shard reply is a success. The upserted item is the input with only `answerJsonId`, `nodeUrl` and `updatedAt` replaced (from the reply and the clock). The result is then the upsert's outcome (false if it throws), and false in every other case. Never rejects. |
| `ConsultationService.DeleteConsultation` | services/ConsultationService.ts:93-99 | The result is exactly the metadata store's delete of the same id, rejection included. |
| `LiteratureReview.ResolvedCount` | components/Research/LiteratureReview/ReviewDetail.tsx:97-121 | The number of extraction calls that did not throw is at most the number of calls. |
| `LiteratureReview.NewRows` | components/Research/LiteratureReview/ReviewDetail.tsx:95-121 | The fan-out yields one row per call that did not throw, so never more rows than selected sources. |
| `LiteratureReview.NewRowsAppend` | components/Research/LiteratureReview/ReviewDetail.tsx:97-121 | Sources are handled strictly in order: the rows of a concatenated selection are the concatenation of the rows. |
| `LiteratureReview.NewRowsExtend` | components/Research/LiteratureReview/ReviewDetail.tsx:97-121 | One more source adds exactly its own rows, at the end. |
| `LiteratureReview.NewRowsWhenNothingThrows` | components/Research/LiteratureReview/ReviewDetail.tsx:97-117 | With no throw, source i gives row i: its id and title, plus the extracted answer/quote, or `"Extraction failed or content unavailable."` and an empty quote for a null extraction. |
| `LiteratureReview.AllResolvedCount` | components/Research/LiteratureReview/ReviewDetail.tsx:97-121 | With no throw, every call contributes. |
| `LiteratureReview.ServiceExtractionsSkipNoSource` | components/Research/LiteratureReview/ReviewDetail.tsx:98-120 | When the outcomes are those `runMatrixExtraction` produces, every selected source gets a row, because that service never rejects. |
| `LiteratureReview.SuccessNullThrowScenario` | components/Research/LiteratureReview/ReviewDetail.tsx:97-121 | A success, a null and a throw give exactly the success row, then the placeholder row. |
| `LiteratureReview.DecimalRoundTrip` | components/Research/LiteratureReview/ReviewDetail.tsx:128 | The count in the `${n} sources analyzed.` toast is written as decimal digits with no leading zero, and reading those digits back gives n. |
| `LiteratureReview.FilterOut` | components/Research/LiteratureReview/ReviewDetail.tsx:137 | The filter drops one row exactly when the index is in range. |
| `LiteratureReview.FilterOutRemovesExactlyOne` | components/Research/LiteratureReview/ReviewDetail.tsx:137 | The filter is `m[..idx] + m[idx+1..]` for an index in range (the other rows stay in order), and the matrix itself otherwise. |
| `LiteratureReview.RemovalRetargetsEdit` | components/Research/LiteratureReview/ReviewDetail.tsx:134-157 | Removal leaves `editingRowIdx` alone. An edit pending below the removed row then names the next row, or one past the end. |
| `LiteratureReview.CommitEdit` | components/Research/LiteratureReview/ReviewDetail.tsx:150-156 | Same length; row idx gets the new answer and quote and keeps its id and title; every other row is unchanged. |
| `LiteratureReview.UpdateMeta` | components/Research/LiteratureReview/ReviewDetail.tsx:68-71 | `updatedAt` is the clock reading, even when it is the named field. The named field gets the value. Every other field is unchanged. |
| `LiteratureReview.MetaEditsTouchOnlyNamedFields` | components/Research/LiteratureReview/ReviewDetail.tsx:68-71 | Over any series of edits, a field no edit names keeps its value, and `updatedAt` is the last edit's clock reading. |
| `LiteratureReview.ReviewDetail.constructor` | components/Research/LiteratureReview/ReviewDetail.tsx:32-42 | Initial state: the review from navigation, empty matrix and synthesis, loading, no edit, empty scratch fields. |
| `LiteratureReview.ReviewDetail.Load` | components/Research/LiteratureReview/ReviewDetail.tsx:45-66 | No review but a route id: navigate away, nothing changes. A review with a content pointer: fetch from that pointer; the content is replaced only by a non-null result; a throwing fetch leaves loading set. Otherwise: loading cleared. |
| `LiteratureReview.ReviewDetail.HandleUpdateMeta` | components/Research/LiteratureReview/ReviewDetail.tsx:68-71 | No review: no change. Otherwise the review becomes `UpdateMeta` of it. Nothing else in the view changes. |
| `LiteratureReview.ReviewDetail.BeginSave` | components/Research/LiteratureReview/ReviewDetail.tsx:73-77 | No review: nothing. Otherwise `isSaving` is raised while the current review and content are handed to the service. |
| `LiteratureReview.ReviewDetail.FinishSave` | components/Research/LiteratureReview/ReviewDetail.tsx:77-87 | `isSaving` is always cleared. The toast is a success exactly for a true result, and tells a false result apart from a throw. |
| `LiteratureReview.ReviewDetail.HandleAddSources` | components/Research/LiteratureReview/ReviewDetail.tsx:90-132 | No review: nothing. Otherwise the selector closes. One request per source goes out in order, carrying the source's own shard pointers. The matrix becomes the old matrix followed by `NewRows`, and the synthesis is kept. A count toast and a save request happen iff rows were added. `isProcessing` holds through the loop and is false after it. An in-range edit stays in range. |
| `LiteratureReview.ReviewDetail.HandleRemoveRow` | components/Research/LiteratureReview/ReviewDetail.tsx:134-140 | Unconfirmed: no change. Confirmed: the matrix becomes `FilterOut` of it. The synthesis and edit state are untouched. |
| `LiteratureReview.ReviewDetail.StartEditRow` | components/Research/LiteratureReview/ReviewDetail.tsx:142-146 | The edit index is set and the row's answer and quote are copied into the scratch fields; the edit is in range iff the index is. |
| `LiteratureReview.ReviewDetail.SetEditAnswer` | components/Research/LiteratureReview/ReviewDetail.tsx:247 | Only the answer scratch field changes. |
| `LiteratureReview.ReviewDetail.SetEditVerbatim` | components/Research/LiteratureReview/ReviewDetail.tsx:260 | Only the quote scratch field changes. |
| `LiteratureReview.ReviewDetail.SaveEditRow` | components/Research/LiteratureReview/ReviewDetail.tsx:148-158 | No edit pending: no change. Otherwise the matrix becomes `CommitEdit` with the scratch text and edit mode ends. Requires the edit index in range. |
| `LiteratureReview.ReviewDetail.CancelEditRow` | components/Research/LiteratureReview/ReviewDetail.tsx:235 | Edit mode ends; the matrix and scratch fields are untouched. |
| `LiteratureReview.ReviewDetail.SetFinalSynthesis` | components/Research/LiteratureReview/ReviewDetail.tsx:284 | Only the final synthesis changes. |

## Left out

- Rendering, styling, router navigation, toasts and the confirmation dialog are UI. Navigation is a returned boolean, a toast is a returned `Notice`, and the dialog's answer is a boolean input.
- `fetch`, `res.json()`, the metadata-store calls, `fetchFileContent` and `callAiProxy` are network or foreign calls. Each is replaced by the outcome it settles with, given as a parameter.
- The `window.dispatchEvent` broadcasts on save and delete are fire-and-forget, with no result to state.
- `fetchReviewsPaginated` and `fetchRelatedConsultations` only pass their arguments to the metadata store, whose code is not part of this model. The cancellation signal of the former is not forwarded.
- Clock readings (`new Date().toISOString()`) are inputs.
- `console.error` logging is left out.
- `translateReviewRowContent` builds a prompt from its two arguments; the prompt text and the model name are free text with no behaviour and are left out.
- The button that opens the source selector is disabled on a blank question or while processing. That is a render-time condition and is left out.
- Async interleaving is left out. Each handler runs atomically here, and `handleSave` is split at its await into `BeginSave` and `FinishSave`. The load effect's re-run on every change of `review` is not modelled.
- `LiteratureReview.ReviewDetail.HandleAddSources` reports the auto-save only as requested. In the source that call is not awaited and closes over the content from before the append, so it does not persist the new rows. Its synchronous part also raises `isSaving`, which is not modelled.
- `LiteratureReview.ReviewDetail.SaveEditRow` requires the edit index to be in range. The source does not check it: an index at or past the end appends a partial row or leaves holes, and that behaviour is not modelled. `HandleRemoveRow` does not keep the index in range (see `RemovalRetargetsEdit`).
- Where a reply field such as `fileId` is missing (JavaScript `undefined`), the model uses the string given in the reply; absence is not distinguished from "". The same holds for requests: an absent `extractedJsonId` or `nodeUrl` is `undefined` in `runMatrixExtraction` and `JSON.stringify` drops the key from the body (services/ReviewService.ts:85-88), while the model's `ExtractRequest` carries "" in that field, so the modelled request payload differs from the real one in that case.
