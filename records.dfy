/** The records exchanged with the document store: the rows of the
    `rag_documents` table as the store returns them, and the outcome of one
    store call, in which a non-ok HTTP status and a thrown exception are the
    same `Failed`. */
module Records {

  datatype Option<+T> = None | Some(value: T) {
    function GetOr(default: T): T
    {
      match this
      case Some(v) => v
      case None => default
    }
  }

  datatype Result<+T, +E> = Ok(value: T) | Err(error: E)

  /** A query or chunk embedding as the embedding service returns it. */
  type Embedding = seq<real>

  /** One stored chunk. `embedding` is the column as text (`None` when the
      column is missing or null); `similarity` is present on rows produced by
      the vector match or given a synthetic score. */
  datatype Row = Row(
    id: int,
    filename: string,
    content: string,
    chunkIndex: int,
    embedding: Option<string>,
    createdAt: string,
    similarity: Option<real>)

  datatype StoreOutcome = Failed | Rows(rows: seq<Row>)

  /** A store call that answered with at least one row: the cascade stops there. */
  predicate Hit(o: StoreOutcome)
  {
    o.Rows? && |o.rows| > 0
  }
}
