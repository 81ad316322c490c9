/**
 * The two back ends as the services see them. Every awaited call either
 * settles with a value or throws; nothing here performs a call, the outcome
 * of each call is an input of the operation that makes it.
 */
module Remote {
  import opened Options

  /** How an awaited call ends: with a value, or by throwing (network error, body that is not JSON, ...). */
  datatype Async<+T> = Resolved(value: T) | Rejected

  /** The JSON body the content-shard endpoint answers with. */
  datatype GasReply<+D> = GasReply(status: string, data: D, fileId: string, nodeUrl: string, reasoning: string)

  /** The only status value the services treat as success. */
  const SuccessStatus: string := "success"

  predicate Succeeded<D>(reply: GasReply<D>)
  {
    reply.status == SuccessStatus
  }

  /** The endpoint URL constant is truthy, i.e. set and non-empty. */
  predicate Configured(endpoint: string)
  {
    endpoint != ""
  }

  /**
   * What a two-phase save did: the value its promise settles with, the
   * (item, content) pair it posted to the shard endpoint, if it got that far,
   * and the item it handed to the metadata upsert, if it got that far.
   */
  datatype SaveTrace<+I, +C> = SaveTrace(result: Async<bool>, contentPosted: Option<(I, C)>, upserted: Option<I>)
}
