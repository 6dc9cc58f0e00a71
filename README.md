# Local conversation store and label-aware read path

This project models the local read/write path for conversations in the
Android mail client:

- **The conversation table behind `ConversationDao`.** It is a class
  (`LocalStore.ConversationDao`) holding a sequence of rows. It offers:
  - the per-user query `getConversations(userId)`, which filters by user and
    orders by `order` descending;
  - `clear()`, which deletes every row of every user;
  - `insertOrUpdate`, inherited from the DAO base class.
- **The repository's source-of-truth hooks.** `ConversationsRepository.ConversationsRepositoryImpl`
  models:
  - the reader `geConversationsLocal`. It takes the user's rows from the DAO
    and sorts them with
    `compareByDescending { labels.find { it.id == labelId }?.contextTime }.thenByDescending { order }`;
  - the writer, which tags a fetched page with the request's user id and
    upserts it;
  - `deleteAll` and `clearConversations`.
- **Kotlin's comparison and sort semantics** (module `Comparators`):
  - `compareValues`, where `null` is lower than every value;
  - descending composite comparison;
  - the stable `sortedWith`, written as an insertion sort.

The record type `Conv(id, userId, order, labels)` stands for both the DAO's
entity and the repository's database model. `Label(id, contextTime)` gives a
label's context time a nullable type. That covers a non-null time too.

What is proved:
- The read is a permutation of the user's stored rows. It never holds
  another user's rows.
- The matching context time never increases along the result.
- A row whose key is null comes after every row whose key is not null.
  The key is null when no label matches, or when the first matching label
  has no context time.
- Ties on context time are ordered by `order`, descending.
- Rows equal on both keys keep the relative order the DAO returned them in,
  because the sort is stable.
- The key is taken from the FIRST label whose id matches.
- The DAO query returns exactly the user's rows, ordered by `order` descending.
- The upsert keeps conversation ids unique. After the upsert, each id holds
  the last version written in the batch. Any other id keeps its old row.
- After a page is written, the read for that user holds the new version of
  each conversation in the page plus the user's untouched old rows, and
  nothing else.
- After `clear()` or `clearConversations()`, every read is empty for every
  user and every label.

## Model

| member | source | states |
|---|---|---|
| ConversationModel.FirstIndex | app/src/main/java/ch/protonmail/android/mailbox/data/ConversationsRepositoryImpl.kt:71 | the scan behind `find` (and the table's lookup by id) returns the first position that matches: no earlier element matches, and nothing is found exactly when no element matches |
| ConversationModel.ContextTime | app/src/main/java/ch/protonmail/android/mailbox/data/ConversationsRepositoryImpl.kt:71 | the sort key is the context time of the first label whose id matches, never a later duplicate's; it is null when no label matches |
| Comparators.CompareValues | app/src/main/java/ch/protonmail/android/mailbox/data/ConversationsRepositoryImpl.kt:70-71 | Kotlin `compareValues` on nullable longs: zero exactly on equal values, negative exactly when the first is null and the second is not or it is numerically smaller |
| Comparators.CompareDescending | app/src/main/java/ch/protonmail/android/mailbox/data/ConversationsRepositoryImpl.kt:70-72 | the composite comparator is zero only on equal keys and negative exactly when the first primary key is larger (null lowest) or the primaries are equal and the first `order` is larger |
| Comparators.SortedWithPermutes | app/src/main/java/ch/protonmail/android/mailbox/data/ConversationsRepositoryImpl.kt:69-72 | `sortedWith` returns a permutation of its input |
| Comparators.SortedWithSorted | app/src/main/java/ch/protonmail/android/mailbox/data/ConversationsRepositoryImpl.kt:69-72 | every pair in the result of `sortedWith` is in comparator order |
| Comparators.SortedWithStable | app/src/main/java/ch/protonmail/android/mailbox/data/ConversationsRepositoryImpl.kt:69-72 | `sortedWith` is stable: the elements with any one key appear in their input order |
| LocalStore.ForUser | app/src/main/java/ch/protonmail/android/mailbox/data/local/ConversationDao.kt:36-37 | the `WHERE user_id = :userId` filter keeps each row of that user with its multiplicity and no row of another user |
| LocalStore.QueryConversationsMeaning | app/src/main/java/ch/protonmail/android/mailbox/data/local/ConversationDao.kt:34-41 | the query holds exactly the stored rows of the user, with multiplicities, ordered by `order` descending |
| LocalStore.ConversationDao.GetConversations | app/src/main/java/ch/protonmail/android/mailbox/data/local/ConversationDao.kt:34-41 | read-only query over the current table: exactly the user's rows, ordered by `order` descending |
| LocalStore.UpsertLookup | app/src/main/java/ch/protonmail/android/mailbox/data/local/ConversationDao.kt:32 | after upserting one entity, its id looks up to it and every other id looks up to what it did before |
| LocalStore.UpsertAllUniqueIds | app/src/main/java/ch/protonmail/android/mailbox/data/local/ConversationDao.kt:32 | `insertOrUpdate` keeps conversation ids unique in the table |
| LocalStore.UpsertAllLookup | app/src/main/java/ch/protonmail/android/mailbox/data/local/ConversationDao.kt:32 | after `insertOrUpdate`, an id looks up to the last entity of the batch with that id, otherwise to its old row |
| LocalStore.UpsertAllMembers | app/src/main/java/ch/protonmail/android/mailbox/data/local/ConversationDao.kt:32 | the table after `insertOrUpdate` holds exactly the last entity per id of the batch and the old rows whose ids the batch does not mention |
| LocalStore.ConversationDao.InsertOrUpdate | app/src/main/java/ch/protonmail/android/mailbox/data/local/ConversationDao.kt:32 | the new table is the old one with the entities upserted in order; unique ids are kept |
| LocalStore.ConversationDao.Clear | app/src/main/java/ch/protonmail/android/mailbox/data/local/ConversationDao.kt:43-44 | `DELETE FROM` empties the table, so the query is empty for every user |
| ConversationsRepository.ToListLocal | app/src/main/java/ch/protonmail/android/mailbox/data/ConversationsRepositoryImpl.kt:54 | the conversion keeps length and order and tags each row with the request's user id |
| ConversationsRepository.ConversationsLocalPermutes | app/src/main/java/ch/protonmail/android/mailbox/data/ConversationsRepositoryImpl.kt:67-69 | the read is a permutation of the DAO rows of `params.userId`: each of that user's rows with its multiplicity, no other user's row |
| ConversationsRepository.ContextTimeNonIncreasing | app/src/main/java/ch/protonmail/android/mailbox/data/ConversationsRepositoryImpl.kt:70-71 | between any two rows whose keys are both non-null, the earlier one's context time is at least the later one's |
| ConversationsRepository.NullKeySortsLast | app/src/main/java/ch/protonmail/android/mailbox/data/ConversationsRepositoryImpl.kt:70-71 | a row whose key is null (no label of the requested id, or a matching label without a context time) is followed only by rows whose key is null, so every row with a non-null key comes before it |
| ConversationsRepository.TiesBrokenByOrder | app/src/main/java/ch/protonmail/android/mailbox/data/ConversationsRepositoryImpl.kt:72 | rows with equal keys, both null included, have non-increasing `order` |
| ConversationsRepository.ConversationsLocalStable | app/src/main/java/ch/protonmail/android/mailbox/data/ConversationsRepositoryImpl.kt:69-72 | rows equal on both keys keep the relative order the DAO query returned them in |
| ConversationsRepository.WrittenPageIsRead | app/src/main/java/ch/protonmail/android/mailbox/data/ConversationsRepositoryImpl.kt:52-55 | after the writer stores a page, the user's read holds exactly the last fetched version of each page conversation and the user's old rows the page does not mention |
| ConversationsRepository.ConversationsRepositoryImpl.GeConversationsLocal | app/src/main/java/ch/protonmail/android/mailbox/data/ConversationsRepositoryImpl.kt:67-74 | the reader returns the user's DAO rows, as a permutation, in comparator order |
| ConversationsRepository.ConversationsRepositoryImpl.Writer | app/src/main/java/ch/protonmail/android/mailbox/data/ConversationsRepositoryImpl.kt:53-55 | the page converted with the request's user id is upserted into the DAO table; unique ids are kept |
| ConversationsRepository.ConversationsRepositoryImpl.DeleteAll | app/src/main/java/ch/protonmail/android/mailbox/data/ConversationsRepositoryImpl.kt:57 | `deleteAll` clears the whole table |
| ConversationsRepository.ConversationsRepositoryImpl.ClearConversations | app/src/main/java/ch/protonmail/android/mailbox/data/ConversationsRepositoryImpl.kt:65 | clearing empties the table, so every later read is empty for every user and label |

## Left out

- The Store4 stream machinery is not modelled
  (ConversationsRepositoryImpl.kt:47-51, 59-63). This covers
  `StoreBuilder`, the fetcher, `StoreRequest.cached`, refresh
  de-duplication, `toDataResult` tagging and `Flow` emission. It is a
  concurrent reactive library whose code is not part of this model. Reads
  are modelled as functions of a table snapshot. The writer and `deleteAll`
  are modelled as the hooks the store calls.
- `clearConversations` calls `store.clearAll()`. The model takes it to call
  the source of truth's `deleteAll`. What else Store4 does there, such as
  cancelling in-flight fetches, is not modelled.
- The network call `api.fetchConversations` and `ConversationApi` are not
  modelled. A fetched page is a parameter of the writer.
- `toDomainModelList` is not modelled. The read returns the sorted rows. The
  conversion is a one-to-one map that keeps order and length.
- `toListLocal` is modelled as a one-to-one map that keeps id, order and
  labels and sets the user id. The other fields of a conversation are not
  modelled.
- `GetConversationsParameters` is reduced to the user id and label id. Its
  pagination fields are not used by the local path.
- LocalStore.ConversationDao.InsertOrUpdate: `insertOrUpdate` comes from the
  DAO base class, which is not part of this model. It is ASSUMED to be an
  upsert keyed by conversation id, applied entity by entity. An existing row
  is replaced in place and a new one is appended.
- LocalStore.QueryConversations: SQL leaves the order of rows with equal
  `order` unspecified. The model keeps table order for such ties. The
  repository's stable sort passes that choice through to rows equal on both
  keys.
- Kotlin `Long` is modelled as an unbounded integer. The read path only
  compares values and never does arithmetic on them, so 64-bit width has no
  effect.
- The background job base class, the ping worker, the account-manager
  migration, dependency-injection modules, the settings view model and the
  locale receiver are not part of this model. They are framework glue, or
  their implementation is not part of this model.
