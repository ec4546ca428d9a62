/** The storage engine as the query host sees it.

    The engine itself (its tables, its indexes, how it answers a query) is
    outside this model; what the host relies on is its interface: open a
    query session, read the fill status, look up a block id by number and
    answer a serialised query at a given head. The chain may move on while
    a session is open, so block-id lookups are told apart by their order
    within the session.
 */
module Storage {

  import opened Ints
  import opened Errors
  import opened DatabaseStatus

  /** An open query session, told apart by the attempt that opened it. */
  datatype Session = Session(attempt: nat)

  datatype Engine = Engine(
    /** `create_query_session`, by the ordinal of the attempt that opens it:
        the database may move on between attempts. */
    open: nat -> Session,
    /** `get_fill_status` in a session. */
    fill: Session -> FillStatus,
    /** `get_block_id`, for the lookup made `i`-th (from zero) in a session:
        the id of the block at a height, if the session holds one there.
        Lookups in one session need not agree, since the chain may move on
        between them. */
    blockId: (Session, nat, u32) -> Option<BlockId>,
    /** `query_database`: the serialised result of a serialised request, read at a head block. */
    query: (Session, seq<byte>, u32) -> Result<seq<byte>>)
}
