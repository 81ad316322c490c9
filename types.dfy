/**
 * The records the literature-review and consultation features exchange.
 * The repository's own type declarations are not part of this model; the
 * fields below are the ones the modelled code reads or writes. An optional
 * string field of the source (`reviewJsonId?`, `storageNodeUrl?`, ...) is a
 * string here whose absent value is "", which is also how the source's
 * truthiness tests treat it.
 */
module Types {

  /** Metadata of one literature review, as kept in the metadata store. */
  datatype ReviewItem = ReviewItem(
    id: string,
    displayLabel: string,   // `label` in the source; a reserved word in Dafny
    centralQuestion: string,
    reviewJsonId: string,
    storageNodeUrl: string,
    createdAt: string,
    updatedAt: string)

  /** The names `handleUpdateMeta` may be given (`keyof ReviewItem`). */
  datatype MetaField = Id | Label | CentralQuestion | ReviewJsonId | StorageNodeUrl | CreatedAt | UpdatedAt

  function FieldOf(item: ReviewItem, f: MetaField): string
  {
    match f
    case Id => item.id
    case Label => item.displayLabel
    case CentralQuestion => item.centralQuestion
    case ReviewJsonId => item.reviewJsonId
    case StorageNodeUrl => item.storageNodeUrl
    case CreatedAt => item.createdAt
    case UpdatedAt => item.updatedAt
  }

  /** The computed-key spread `{ ...item, [f]: v }`. */
  function WithField(item: ReviewItem, f: MetaField, v: string): ReviewItem
  {
    match f
    case Id => item.(id := v)
    case Label => item.(displayLabel := v)
    case CentralQuestion => item.(centralQuestion := v)
    case ReviewJsonId => item.(reviewJsonId := v)
    case StorageNodeUrl => item.(storageNodeUrl := v)
    case CreatedAt => item.(createdAt := v)
    case UpdatedAt => item.(updatedAt := v)
  }

  /** One row of the extraction matrix: one source against the central question. */
  datatype MatrixRow = MatrixRow(collectionId: string, title: string, answer: string, verbatim: string)

  /** The sharded content of a review. */
  datatype ReviewContent = ReviewContent(matrix: seq<MatrixRow>, finalSynthesis: string)

  /** A library item offered as a source; it carries its own shard pointers. */
  datatype LibraryItem = LibraryItem(id: string, title: string, extractedJsonId: string, storageNodeUrl: string)

  /** What the extraction proxy returns for one source. */
  datatype Extraction = Extraction(answer: string, verbatim: string)

  /** Metadata of one consultation (a single question asked of one collection). */
  datatype ConsultationItem = ConsultationItem(
    id: string,
    collectionId: string,
    question: string,
    answerJsonId: string,
    nodeUrl: string,
    createdAt: string,
    updatedAt: string)
}
