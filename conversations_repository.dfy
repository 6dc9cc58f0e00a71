/** The local half of `ConversationsRepositoryImpl`: the reader that sorts one
    user's rows for the label being viewed, the writer that upserts a fetched
    page, and `deleteAll` / `clearConversations`. */
module ConversationsRepository {
  import opened ConversationModel
  import opened Comparators
  import opened LocalStore

  /** The parts of the request parameters the local read and the writer use. */
  datatype GetConversationsParameters = GetConversationsParameters(userId: string, labelId: string)

  /** One conversation of a fetched page, before it is tagged with its user. */
  datatype ConversationResponse = ConversationResponse(id: string, order: int, labels: seq<Label>)

  /** `toListLocal(userId)`: one row per fetched conversation, in page order,
      each carrying the request's user id. */
  function ToListLocal(responses: seq<ConversationResponse>, userId: string): (r: seq<Conv>)
    ensures |r| == |responses|
    ensures forall i :: 0 <= i < |r| ==>
              r[i].userId == userId && r[i].id == responses[i].id &&
              r[i].order == responses[i].order && r[i].labels == responses[i].labels
  {
    seq(|responses|, i requires 0 <= i < |responses| =>
      Conv(responses[i].id, userId, responses[i].order, responses[i].labels))
  }

  /** The comparator's keys for label `labelId`: the matching label's
      context time, then `order`. */
  function LabelKey(labelId: string): Conv -> SortKey
  {
    c => SortKey(ContextTime(c, labelId), c.order)
  }

  /** `list.sortedWith(compareByDescending { contextTime of labelId }
      .thenByDescending { it.order })`. */
  function SortForLabel(list: seq<Conv>, labelId: string): seq<Conv>
  {
    SortedWith(list, LabelKey(labelId))
  }

  /** `geConversationsLocal(params)` over a snapshot of the table. */
  function ConversationsLocal(rows: seq<Conv>, params: GetConversationsParameters): seq<Conv>
  {
    SortForLabel(QueryConversations(rows, params.userId), params.labelId)
  }

  /** The read neither adds nor drops a row: it holds exactly the user's rows. */
  lemma ConversationsLocalPermutes(rows: seq<Conv>, params: GetConversationsParameters)
    ensures forall c :: multiset(ConversationsLocal(rows, params))[c] ==
                        if c.userId == params.userId then multiset(rows)[c] else 0
    ensures forall c :: c in ConversationsLocal(rows, params) <==>
                        c in rows && c.userId == params.userId
  {
    var q := QueryConversations(rows, params.userId);
    var r := ConversationsLocal(rows, params);
    QueryConversationsMeaning(rows, params.userId);
    SortedWithPermutes(q, LabelKey(params.labelId));
    forall c ensures c in r <==> c in rows && c.userId == params.userId {
      assert c in r <==> multiset(r)[c] > 0;
      assert c in q <==> multiset(q)[c] > 0;
    }
  }

  /** Among rows whose key is non-null, context times never increase. */
  lemma ContextTimeNonIncreasing(rows: seq<Conv>, params: GetConversationsParameters)
    ensures var r := ConversationsLocal(rows, params);
            forall i, j :: 0 <= i < j < |r| &&
                           ContextTime(r[i], params.labelId).Some? &&
                           ContextTime(r[j], params.labelId).Some? ==>
                           ContextTime(r[i], params.labelId).value >= ContextTime(r[j], params.labelId).value
  {
    var key := LabelKey(params.labelId);
    var r := ConversationsLocal(rows, params);
    SortedWithSorted(QueryConversations(rows, params.userId), key);
    forall i, j | 0 <= i < j < |r|
      ensures CompareDescending(key(r[i]), key(r[j])) <= 0
    {
    }
  }

  /** A row whose key is null (no label of id `labelId`, or a matching label
      without a context time) comes after every row with a non-null key. */
  lemma NullKeySortsLast(rows: seq<Conv>, params: GetConversationsParameters)
    ensures var r := ConversationsLocal(rows, params);
            forall i, j :: 0 <= i < j < |r| && ContextTime(r[i], params.labelId).None? ==>
                           ContextTime(r[j], params.labelId).None?
  {
    var key := LabelKey(params.labelId);
    var r := ConversationsLocal(rows, params);
    SortedWithSorted(QueryConversations(rows, params.userId), key);
    forall i, j | 0 <= i < j < |r|
      ensures CompareDescending(key(r[i]), key(r[j])) <= 0
    {
    }
  }

  /** Rows with equal keys, both null included, are ordered by `order`
      descending. */
  lemma TiesBrokenByOrder(rows: seq<Conv>, params: GetConversationsParameters)
    ensures var r := ConversationsLocal(rows, params);
            forall i, j :: 0 <= i < j < |r| &&
                           ContextTime(r[i], params.labelId) == ContextTime(r[j], params.labelId) ==>
                           r[i].order >= r[j].order
  {
    var key := LabelKey(params.labelId);
    var r := ConversationsLocal(rows, params);
    SortedWithSorted(QueryConversations(rows, params.userId), key);
    forall i, j | 0 <= i < j < |r|
      ensures CompareDescending(key(r[i]), key(r[j])) <= 0
    {
    }
  }

  /** Rows equal on both keys keep the relative order in which the table
      query returned them. */
  lemma ConversationsLocalStable(rows: seq<Conv>, params: GetConversationsParameters, k: SortKey)
    ensures WithKey(ConversationsLocal(rows, params), LabelKey(params.labelId), k) ==
            WithKey(QueryConversations(rows, params.userId), LabelKey(params.labelId), k)
  {
    SortedWithStable(QueryConversations(rows, params.userId), LabelKey(params.labelId), k);
  }

  /** After the writer stores a fetched page, the read for the same user holds
      the last fetched version of each conversation in the page and the old
      rows of that user the page does not mention, and nothing else. */
  lemma WrittenPageIsRead(rows: seq<Conv>, params: GetConversationsParameters,
                          output: seq<ConversationResponse>)
    requires UniqueIds(rows)
    ensures var written := ToListLocal(output, params.userId);
            forall c :: c in ConversationsLocal(UpsertAll(rows, written), params) <==>
                        c.userId == params.userId &&
                        (LastWithId(written, c.id) == Some(c) ||
                         (LastWithId(written, c.id).None? && c in rows))
  {
    var written := ToListLocal(output, params.userId);
    ConversationsLocalPermutes(UpsertAll(rows, written), params);
    forall c ensures c in UpsertAll(rows, written) <==>
                     LastWithId(written, c.id) == Some(c) ||
                     (LastWithId(written, c.id).None? && c in rows)
    {
      UpsertAllMembers(rows, written, c);
    }
  }

  /** The repository's local side over the conversation DAO. */
  class ConversationsRepositoryImpl {
    const conversationDao: ConversationDao

    constructor (conversationDao: ConversationDao)
      ensures this.conversationDao == conversationDao
    {
      this.conversationDao := conversationDao;
    }

    /** The source-of-truth reader: the user's rows, sorted for the label. */
    function GeConversationsLocal(params: GetConversationsParameters): (r: seq<Conv>)
      reads conversationDao
      ensures forall c :: multiset(r)[c] ==
                          if c.userId == params.userId then multiset(conversationDao.rows)[c] else 0
      ensures forall i, j :: 0 <= i < j < |r| ==>
                CompareDescending(LabelKey(params.labelId)(r[i]), LabelKey(params.labelId)(r[j])) <= 0
    {
      ConversationsLocalPermutes(conversationDao.rows, params);
      SortedWithSorted(QueryConversations(conversationDao.rows, params.userId), LabelKey(params.labelId));
      ConversationsLocal(conversationDao.rows, params)
    }

    /** The source-of-truth writer: the page, tagged with the request's user,
        is upserted into the table. */
    method Writer(params: GetConversationsParameters, output: seq<ConversationResponse>)
      requires conversationDao.Valid()
      modifies conversationDao
      ensures conversationDao.Valid()
      ensures conversationDao.rows == UpsertAll(old(conversationDao.rows), ToListLocal(output, params.userId))
    {
      var conversations := ToListLocal(output, params.userId);
      conversationDao.InsertOrUpdate(conversations);
    }

    /** The source-of-truth `deleteAll`: `conversationDao.clear()`. */
    method DeleteAll()
      modifies conversationDao
      ensures conversationDao.Valid() && conversationDao.rows == []
    {
      conversationDao.Clear();
    }

    /** `clearConversations()`: the store clears its source of truth, after
        which every read is empty, for every user and label. */
    method ClearConversations()
      modifies conversationDao
      ensures conversationDao.Valid() && conversationDao.rows == []
      ensures forall params :: GeConversationsLocal(params) == []
    {
      DeleteAll();
    }
  }
}
