/** The local conversation table behind `ConversationDao`: a per-user query
    ordered by `order` descending, `clear()`, and the upsert `insertOrUpdate`
    inherited from the DAO base class. */
module LocalStore {
  import opened ConversationModel
  import opened Comparators

  /** No two rows share a conversation id (the key assumed for upserts). */
  ghost predicate UniqueIds(rows: seq<Conv>)
  {
    forall i, j :: 0 <= i < j < |rows| ==> rows[i].id != rows[j].id
  }

  /** `WHERE user_id = :userId`: the rows of one user, in table order. */
  function ForUser(rows: seq<Conv>, userId: string): (r: seq<Conv>)
    ensures forall c :: multiset(r)[c] == if c.userId == userId then multiset(rows)[c] else 0
  {
    if rows == [] then []
    else
      assert rows == [rows[0]] + rows[1..];
      (if rows[0].userId == userId then [rows[0]] else []) + ForUser(rows[1..], userId)
  }

  /** The key of `ORDER BY order DESC`: no primary key, `order` descending. */
  function OrderKey(c: Conv): SortKey
  {
    SortKey(None, c.order)
  }

  /** The SQL query of `getConversations(userId)`. SQL leaves the order of
      rows with equal `order` open; this model keeps their table order. */
  function QueryConversations(rows: seq<Conv>, userId: string): seq<Conv>
  {
    SortedWith(ForUser(rows, userId), OrderKey)
  }

  /** The query returns exactly the stored rows of `userId`, with their
      multiplicities, ordered by `order` descending. */
  lemma QueryConversationsMeaning(rows: seq<Conv>, userId: string)
    ensures forall c :: multiset(QueryConversations(rows, userId))[c] ==
                        if c.userId == userId then multiset(rows)[c] else 0
    ensures forall c :: c in QueryConversations(rows, userId) <==> c in rows && c.userId == userId
    ensures var r := QueryConversations(rows, userId);
            forall i, j :: 0 <= i < j < |r| ==> r[i].order >= r[j].order
  {
    var r := QueryConversations(rows, userId);
    SortedWithPermutes(ForUser(rows, userId), OrderKey);
    SortedWithSorted(ForUser(rows, userId), OrderKey);
    forall i, j | 0 <= i < j < |r| ensures r[i].order >= r[j].order {
      assert CompareDescending(OrderKey(r[i]), OrderKey(r[j])) <= 0;
    }
    forall c ensures c in r <==> c in rows && c.userId == userId {
      assert c in r <==> multiset(r)[c] > 0;
      assert c in rows <==> multiset(rows)[c] > 0;
    }
  }

  /** The predicate "the row's conversation id is `id`". */
  function IdIs(id: string): Conv -> bool
  {
    (c: Conv) => c.id == id
  }

  /** The stored row with conversation id `id`, if any. */
  function Lookup(rows: seq<Conv>, id: string): Option<Conv>
  {
    match FirstIndex(rows, IdIs(id))
    case None => None
    case Some(i) => Some(rows[i])
  }

  /** Upsert of one entity keyed by conversation id: a row with the same id
      is replaced in place, otherwise the entity is appended. */
  function Upsert(rows: seq<Conv>, c: Conv): seq<Conv>
  {
    match FirstIndex(rows, IdIs(c.id))
    case Some(i) => rows[i := c]
    case None => rows + [c]
  }

  /** `insertOrUpdate(*entities)`: the entities upserted one after another. */
  function UpsertAll(rows: seq<Conv>, entities: seq<Conv>): seq<Conv>
  {
    if entities == [] then rows
    else Upsert(UpsertAll(rows, entities[..|entities| - 1]), entities[|entities| - 1])
  }

  /** The last entity of the batch that carries conversation id `id`. */
  function LastWithId(entities: seq<Conv>, id: string): (r: Option<Conv>)
    ensures r.Some? ==> r.value.id == id
    ensures r.Some? ==> exists i :: 0 <= i < |entities| && entities[i] == r.value &&
                                    forall k :: i < k < |entities| ==> entities[k].id != id
    ensures r.None? <==> forall k :: 0 <= k < |entities| ==> entities[k].id != id
  {
    if entities == [] then None
    else if entities[|entities| - 1].id == id then Some(entities[|entities| - 1])
    else LastWithId(entities[..|entities| - 1], id)
  }

  /** A table with unique ids holds a row exactly when looking up its id
      finds it. */
  lemma MemberIffLookup(rows: seq<Conv>, c: Conv)
    requires UniqueIds(rows)
    ensures c in rows <==> Lookup(rows, c.id) == Some(c)
  {
    if c in rows {
      var i :| 0 <= i < |rows| && rows[i] == c;
      var k := FirstIndex(rows, IdIs(c.id)).value;
      assert k == i;
    }
  }

  /** After an upsert the entity is what its id looks up to, and every other
      id looks up to what it did before. */
  lemma UpsertLookup(rows: seq<Conv>, c: Conv, id: string)
    ensures Lookup(Upsert(rows, c), id) == if id == c.id then Some(c) else Lookup(rows, id)
  {
    var r := Upsert(rows, c);
    match FirstIndex(rows, IdIs(c.id))
    case Some(i) =>
      if id == c.id {
        FirstIndexAt(r, IdIs(id), i);
      } else {
        match FirstIndex(rows, IdIs(id))
        case Some(j) => FirstIndexAt(r, IdIs(id), j);
        case None => assert FirstIndex(r, IdIs(id)) == None;
      }
    case None =>
      if id == c.id {
        FirstIndexAt(r, IdIs(id), |rows|);
      } else {
        match FirstIndex(rows, IdIs(id))
        case Some(j) => FirstIndexAt(r, IdIs(id), j);
        case None => assert FirstIndex(r, IdIs(id)) == None;
      }
  }

  /** An upsert keeps conversation ids unique. */
  lemma UpsertUniqueIds(rows: seq<Conv>, c: Conv)
    requires UniqueIds(rows)
    ensures UniqueIds(Upsert(rows, c))
  {
  }

  /** `insertOrUpdate` keeps conversation ids unique. */
  lemma {:induction false} UpsertAllUniqueIds(rows: seq<Conv>, entities: seq<Conv>)
    requires UniqueIds(rows)
    ensures UniqueIds(UpsertAll(rows, entities))
  {
    if entities != [] {
      UpsertAllUniqueIds(rows, entities[..|entities| - 1]);
      UpsertUniqueIds(UpsertAll(rows, entities[..|entities| - 1]), entities[|entities| - 1]);
    }
  }

  /** After `insertOrUpdate`, an id looks up to the last entity of the batch
      with that id, or to the old row when the batch has none. */
  lemma {:induction false} UpsertAllLookup(rows: seq<Conv>, entities: seq<Conv>, id: string)
    ensures Lookup(UpsertAll(rows, entities), id) ==
            if LastWithId(entities, id).Some? then LastWithId(entities, id) else Lookup(rows, id)
  {
    if entities != [] {
      var init := entities[..|entities| - 1];
      UpsertAllLookup(rows, init, id);
      UpsertLookup(UpsertAll(rows, init), entities[|entities| - 1], id);
    }
  }

  /** The rows after `insertOrUpdate`: the last entity of each id in the
      batch, and the old rows whose id the batch does not mention. */
  lemma UpsertAllMembers(rows: seq<Conv>, entities: seq<Conv>, c: Conv)
    requires UniqueIds(rows)
    ensures c in UpsertAll(rows, entities) <==>
            LastWithId(entities, c.id) == Some(c) ||
            (LastWithId(entities, c.id).None? && c in rows)
  {
    UpsertAllUniqueIds(rows, entities);
    MemberIffLookup(UpsertAll(rows, entities), c);
    MemberIffLookup(rows, c);
    UpsertAllLookup(rows, entities, c.id);
  }

  /** The Room DAO over the conversation table. */
  class ConversationDao {
    var rows: seq<Conv>

    ghost predicate Valid()
      reads this
    {
      UniqueIds(rows)
    }

    constructor ()
      ensures Valid() && rows == []
    {
      rows := [];
    }

    /** `getConversations(userId)`: a read-only query of the current rows. */
    function GetConversations(userId: string): (r: seq<Conv>)
      reads this
      ensures forall c :: multiset(r)[c] == if c.userId == userId then multiset(rows)[c] else 0
      ensures forall i, j :: 0 <= i < j < |r| ==> r[i].order >= r[j].order
    {
      QueryConversationsMeaning(rows, userId);
      QueryConversations(rows, userId)
    }

    /** `insertOrUpdate(*entities)` inherited from the DAO base class. */
    method InsertOrUpdate(entities: seq<Conv>)
      requires Valid()
      modifies this
      ensures Valid()
      ensures rows == UpsertAll(old(rows), entities)
    {
      UpsertAllUniqueIds(rows, entities);
      rows := UpsertAll(rows, entities);
    }

    /** `DELETE FROM conversations`: the rows of every user go. */
    method Clear()
      modifies this
      ensures Valid() && rows == []
      ensures forall userId :: GetConversations(userId) == []
    {
      rows := [];
    }
  }
}
