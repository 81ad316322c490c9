/**
 * The review service: a two-phase save (content to the shard endpoint, then
 * metadata to the store), deletion, per-source AI extraction and row
 * translation, each as a decision rule over the outcomes of the remote calls
 * it makes. The broadcast events it fires are not modelled.
 */
module ReviewService {
  import opened Options
  import opened Types
  import opened Remote
  import opened JsText

  /**
   * saveReview(item, content). `shard` is how the `saveReviewContent` POST
   * and its JSON decoding end; `upsert` is how the metadata upsert ends.
   * A shard reply that is not a success only skips the pointer merge: the
   * upsert still runs and decides the result. A throw in the shard phase
   * skips the upsert. The returned promise never rejects.
   */
  method SaveReview(endpoint: string, item: ReviewItem, content: Option<ReviewContent>,
                    shard: Async<GasReply<()>>, upsert: Async<bool>)
    returns (trace: SaveTrace<ReviewItem, ReviewContent>)
    ensures trace.result.Resolved?
    ensures !Configured(endpoint) ==> trace == SaveTrace(Resolved(false), None, None)
    ensures Configured(endpoint) ==>
      trace.contentPosted == (if content.Some? then Some((item, content.value)) else None)
    ensures Configured(endpoint) ==> (trace.upserted.None? <==> content.Some? && shard.Rejected?)
    // the upserted item differs from `item` at most in its two shard pointers,
    ensures trace.upserted.Some? ==>
      trace.upserted.value.(reviewJsonId := item.reviewJsonId, storageNodeUrl := item.storageNodeUrl) == item
    // and those are taken from the reply exactly when content was sent and the reply is a success
    ensures trace.upserted.Some? ==>
      if content.Some? && shard.Resolved? && Succeeded(shard.value) then
        trace.upserted.value.reviewJsonId == shard.value.fileId
        && trace.upserted.value.storageNodeUrl == shard.value.nodeUrl
      else
        trace.upserted.value == item
    // once the upsert runs, its outcome is the result, whatever the shard status was
    ensures trace.upserted.Some? ==> trace.result == (if upsert.Resolved? then upsert else Resolved(false))
    ensures trace.upserted.None? ==> trace.result == Resolved(false)
  {
    if !Configured(endpoint) {
      return SaveTrace(Resolved(false), None, None);
    }
    var posted: Option<(ReviewItem, ReviewContent)> := None;
    var updatedItem := item;
    if content.Some? {
      posted := Some((item, content.value));
      if shard.Rejected? {
        return SaveTrace(Resolved(false), posted, None);
      }
      if Succeeded(shard.value) {
        updatedItem := updatedItem.(reviewJsonId := shard.value.fileId, storageNodeUrl := shard.value.nodeUrl);
      }
    }
    var result := if upsert.Resolved? then upsert else Resolved(false);
    trace := SaveTrace(result, posted, Some(updatedItem));
  }

  /** deleteReview(id): whatever the metadata store's delete of `id` settles with, rejection included. */
  function DeleteReview(id: string, metadataDelete: string -> Async<bool>): (r: Async<bool>)
    ensures r == metadataDelete(id)
  {
    metadataDelete(id)
  }

  /** One `aiReviewProxy`/`extract` request: the source, the question and the source's own shard pointers. */
  datatype ExtractRequest = ExtractRequest(collectionId: string, centralQuestion: string,
                                           extractedJsonId: string, nodeUrl: string)

  /**
   * runMatrixExtraction: the reply's `data` exactly when the endpoint is set,
   * the call did not throw and the status is a success; null otherwise. The
   * promise never rejects. A success whose `data` is null is passed on as null.
   */
  function RunMatrixExtraction(endpoint: string, reply: Async<GasReply<Option<Extraction>>>): (r: Async<Option<Extraction>>)
    ensures r.Resolved?
    ensures r.value.Some? <==>
      Configured(endpoint) && reply.Resolved? && Succeeded(reply.value) && reply.value.data.Some?
    ensures r.value.Some? ==> r.value == reply.value.data
  {
    if !Configured(endpoint) then Resolved(None)
    else match reply
      case Rejected => Resolved(None)
      case Resolved(res) => Resolved(if Succeeded(res) then res.data else None)
  }

  /**
   * translateReviewRowContent: `proxy` is how the AI proxy call ends (a
   * string or null). A non-empty answer is returned trimmed; null, the empty
   * string and a throw all give null. The promise never rejects.
   */
  function TranslateReviewRowContent(text: string, targetLang: string, proxy: Async<Option<string>>): (r: Async<Option<string>>)
    ensures r.Resolved?
    ensures r.value.Some? <==> proxy.Resolved? && proxy.value.Some? && proxy.value.value != ""
    ensures r.value.Some? ==> r.value.value == Trim(proxy.value.value)
  {
    match proxy
    case Rejected => Resolved(None)
    case Resolved(response) =>
      if response.Some? && response.value != "" then Resolved(Some(Trim(response.value))) else Resolved(None)
  }

  /**
   * The truthiness test comes before the trim: an answer made only of
   * whitespace is not null, it is translated to the empty string.
   */
  lemma {:induction false} BlankTranslationIsEmptyNotNull(text: string, targetLang: string, response: string)
    requires response != []
    requires forall i :: 0 <= i < |response| ==> IsWhitespace(response[i])
    ensures TranslateReviewRowContent(text, targetLang, Resolved(Some(response))) == Resolved(Some(""))
  {
  }
}
