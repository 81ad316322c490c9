/**
 * The consultation service: one AI consultation call and a save that, unlike
 * the review save, gives up when the shard phase does not succeed. The
 * broadcast event of the delete is not modelled.
 */
module ConsultationService {
  import opened Options
  import opened Types
  import opened Remote

  /** The answer of the consultation engine and its reasoning. */
  datatype Consultation = Consultation(answer: string, reasoning: string)

  /**
   * callAiConsult: on a success reply, its `data` as the answer and its
   * `reasoning`; on an unset endpoint, a throw or any other status, null.
   * The error the function raises itself for a non-success status is caught
   * by its own handler, so the promise never rejects.
   */
  function CallAiConsult(endpoint: string, reply: Async<GasReply<string>>): (r: Async<Option<Consultation>>)
    ensures r.Resolved?
    ensures r.value.Some? <==> Configured(endpoint) && reply.Resolved? && Succeeded(reply.value)
    ensures r.value.Some? ==>
      r.value.value.answer == reply.value.data && r.value.value.reasoning == reply.value.reasoning
  {
    if !Configured(endpoint) then Resolved(None)
    else match reply
      case Rejected => Resolved(None)
      case Resolved(res) =>
        if Succeeded(res) then Resolved(Some(Consultation(res.data, res.reasoning))) else Resolved(None)
  }

  /**
   * saveConsultation(item, content): post the content to the shard endpoint
   * (`shard` is how that ends); only on a success reply upsert the item with
   * its answer pointer, node URL and `updatedAt` (the clock reading `now`)
   * replaced, and return the upsert's outcome. Everything else gives false.
   */
  function SaveConsultation<C>(endpoint: string, item: ConsultationItem, content: C,
                               shard: Async<GasReply<()>>, now: string, upsert: Async<bool>)
    : (r: SaveTrace<ConsultationItem, C>)
    ensures r.result.Resolved?
    ensures !Configured(endpoint) ==> r == SaveTrace(Resolved(false), None, None)
    ensures Configured(endpoint) ==> r.contentPosted == Some((item, content))
    ensures r.upserted.Some? <==> Configured(endpoint) && shard.Resolved? && Succeeded(shard.value)
    ensures r.upserted.Some? ==>
      && r.upserted.value.(answerJsonId := item.answerJsonId, nodeUrl := item.nodeUrl, updatedAt := item.updatedAt) == item
      && r.upserted.value.answerJsonId == shard.value.fileId
      && r.upserted.value.nodeUrl == shard.value.nodeUrl
      && r.upserted.value.updatedAt == now
    ensures r.upserted.Some? ==> r.result == (if upsert.Resolved? then upsert else Resolved(false))
    ensures r.upserted.None? ==> r.result == Resolved(false)
  {
    if !Configured(endpoint) then SaveTrace(Resolved(false), None, None)
    else
      var posted := Some((item, content));
      match shard
      case Rejected => SaveTrace(Resolved(false), posted, None)
      case Resolved(res) =>
        if Succeeded(res) then
          var updatedItem := item.(answerJsonId := res.fileId, nodeUrl := res.nodeUrl, updatedAt := now);
          SaveTrace(if upsert.Resolved? then upsert else Resolved(false), posted, Some(updatedItem))
        else
          SaveTrace(Resolved(false), posted, None)
  }

  /** deleteConsultation(id): whatever the metadata store's delete of `id` settles with, rejection included. */
  function DeleteConsultation(id: string, metadataDelete: string -> Async<bool>): (r: Async<bool>)
    ensures r == metadataDelete(id)
  {
    metadataDelete(id)
  }
}
