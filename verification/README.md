# Read-only inode store: the reconciling children iterator

This project models `KVReadOnlyInodeStore`, the read-only view of Alluxio's
inode metadata kept in a key-value store. The interface declares a few
primitives: the point lookup `get(id, name, option)`, the child-id scan
`getChildIds(inodeId, option)`, `getChildId`, `getChild` and `hasChildren`.
On top of them it builds default methods. The one with real logic is
`getChildren(inodeId, option)`. It wraps the scan of (child id, child name)
pairs in an iterator that looks up each pair and keeps at most one resolved
inode in a lookahead field `mNext`. Pairs whose lookup comes back empty are
passed over. A decode failure (`InvalidProtocolBufferException`) is caught
and logged inside `hasNext()`.

Layout:

- `wrappers.dfy`: `Option` (Java's `Optional`), `Result` and `Outcome` (a value or a void call, or the exception thrown instead).
- `inode_types.dfy`: ids as Java `long`, `Inode`, `InodeDirectoryView` (an inode that is a directory), the `(id, name)` pair, `ReadOption`, and `Fetched`, the three outcomes of one lookup: absent, present, undecodable.
- `child_listing.dfy`: what a children listing means, as pure functions:
  - `Resolved` is the filter-map of the scanned pairs through `get`, in scan order.
  - `Seek` is where one `advance` stops.
  - `FirstUndecodable` is the first pair whose value does not decode.
  - Lemmas relate the three.
- `kv_read_only_inode_store.dfy`:
  - The primitives are the function-valued fields of a `Store`.
  - `ChildIdCursor` is the closeable pair iterator that `getChildIds` returns.
  - `ChildrenIterator` is the iterator that `getChildren` returns. It is a class with the field `mNext`; `Advance`, `HasNext`, `Next` and `Close` update it in place.
  - All the delegating default methods are modelled.
  - `ListChildren` is a caller that drains the iterator.

The abstract view of a `ChildrenIterator` is `Pending()`: the buffered
inode followed by `Resolved` of the pairs not yet consumed. Every call keeps
`Pending()`, and a successful `Next` removes exactly its head.

The catch block reads as though undecodable entries were simply skipped.
The code does something different. When the lookup of a pair throws, that
pair has already been consumed and `mNext` is still empty, so that
`hasNext()` call returns false and `next()` throws
`NoSuchElementException`. A caller that stops at the first false
`hasNext()` therefore receives only the inodes listed before the first
undecodable pair (`ListChildren`). A caller that calls `hasNext()` again
resumes after the failing pair and loses nothing else
(`ChildrenIterator.HasNext` keeps `Pending()`). The model follows the code.

## Model

| member | source | states |
|---|---|---|
| `ChildListing.Resolved` | core/server/master/src/main/java/alluxio/master/metastore/KVReadOnlyInodeStore.java:137-142 | the children listing has at most one inode per scanned pair |
| `ChildListing.ResolvedMembers` | core/server/master/src/main/java/alluxio/master/metastore/KVReadOnlyInodeStore.java:137-142 | an inode is listed if and only if the lookup of some scanned pair presents it |
| `ChildListing.ResolvedAppend` | core/server/master/src/main/java/alluxio/master/metastore/KVReadOnlyInodeStore.java:137-142 | the listing of a concatenation of scans is the concatenation of their listings, so scan order is kept |
| `ChildListing.SkippedEntryInvisible` | core/server/master/src/main/java/alluxio/master/metastore/KVReadOnlyInodeStore.java:137-142 | a pair whose lookup is empty or undecodable contributes nothing to the listing `Resolved`: removing it leaves the listing unchanged. An empty lookup also raises no error; an undecodable one makes that hasNext() answer false (see `ChildrenIterator.HasNext` and `ListChildren`) |
| `ChildListing.Seek` | core/server/master/src/main/java/alluxio/master/metastore/KVReadOnlyInodeStore.java:136-143 | one advance from an empty buffer stops at the first pair whose lookup is not empty; every pair before it was absent; with none, the scan is exhausted and every remaining pair was absent |
| `ChildListing.FirstUndecodable` | core/server/master/src/main/java/alluxio/master/metastore/KVReadOnlyInodeStore.java:116-122 | the index of the first pair whose value does not decode, or the scan length when there is none |
| `ChildListing.SeekAgreesWithResolved` | core/server/master/src/main/java/alluxio/master/metastore/KVReadOnlyInodeStore.java:136-143 | the inode a seek buffers is the head of the remaining listing; a decode failure or exhaustion skips no listed inode |
| `ChildListing.SeekBeforeFirstUndecodable` | core/server/master/src/main/java/alluxio/master/metastore/KVReadOnlyInodeStore.java:116-143 | a seek that starts before the first undecodable pair finds the head of the listing up to that pair; it comes back empty only when nothing is left before that pair |
| `ChildListing.UndecodableSplitsListing` | core/server/master/src/main/java/alluxio/master/metastore/KVReadOnlyInodeStore.java:116-122 | a caller that stops at the first undecodable pair misses exactly the inodes listed after it |
| `KVReadOnlyInodeStore.ChildIdCursor.constructor` | core/server/master/src/main/java/alluxio/master/metastore/KVReadOnlyInodeStore.java:82 | a pair cursor opens at the start of the scan and is not closed |
| `KVReadOnlyInodeStore.ChildIdCursor.HasNext` | core/server/master/src/main/java/alluxio/master/metastore/KVReadOnlyInodeStore.java:137 | true exactly when a pair is left; consumes nothing |
| `KVReadOnlyInodeStore.ChildIdCursor.Next` | core/server/master/src/main/java/alluxio/master/metastore/KVReadOnlyInodeStore.java:138 | returns the next pair and consumes it, or throws NoSuchElementException when none is left |
| `KVReadOnlyInodeStore.ChildIdCursor.Close` | core/server/master/src/main/java/alluxio/master/metastore/KVReadOnlyInodeStore.java:145 | the scan is released |
| `KVReadOnlyInodeStore.ChildrenIterator.constructor` | core/server/master/src/main/java/alluxio/master/metastore/KVReadOnlyInodeStore.java:112-114 | the iterator starts with an empty buffer over a fresh cursor on getChildIds(inodeId, option) |
| `KVReadOnlyInodeStore.ChildrenIterator.Advance` | core/server/master/src/main/java/alluxio/master/metastore/KVReadOnlyInodeStore.java:136-143 | with an inode buffered it changes nothing; otherwise it leaves the buffer and position where Seek stops; it throws InvalidProtocolBuffer exactly on a decode failure, after consuming that pair; Pending() is unchanged |
| `KVReadOnlyInodeStore.ChildrenIterator.HasNext` | core/server/master/src/main/java/alluxio/master/metastore/KVReadOnlyInodeStore.java:116-123 | answers whether an inode is now buffered. With one already buffered it stays true and consumes nothing. A decode failure is swallowed: the answer is false and the position is past the failing pair, so the next call resumes there. Pending() is unchanged |
| `KVReadOnlyInodeStore.ChildrenIterator.Next` | core/server/master/src/main/java/alluxio/master/metastore/KVReadOnlyInodeStore.java:126-134 | succeeds if and only if an inode was buffered or the seek finds one. It returns the head of Pending() and removes it, leaving the buffer empty, so each inode is returned once. Otherwise it throws NoSuchElementException. Unless a decode failure intervened, it throws exactly when nothing remains to list |
| `KVReadOnlyInodeStore.ChildrenIterator.Close` | core/server/master/src/main/java/alluxio/master/metastore/KVReadOnlyInodeStore.java:145 | closing the children iterator closes the underlying pair cursor and consumes nothing |
| `KVReadOnlyInodeStore.GetChildIds` | core/server/master/src/main/java/alluxio/master/metastore/KVReadOnlyInodeStore.java:82 | opens a cursor at the start of the store's pairs for (inodeId, option) |
| `KVReadOnlyInodeStore.GetChildIdsDefault` | core/server/master/src/main/java/alluxio/master/metastore/KVReadOnlyInodeStore.java:84-86 | the same with ReadOption.defaults() |
| `KVReadOnlyInodeStore.GetChildIdsOfDirectory` | core/server/master/src/main/java/alluxio/master/metastore/KVReadOnlyInodeStore.java:95-98 | the same for a directory, by its id |
| `KVReadOnlyInodeStore.GetChildren` | core/server/master/src/main/java/alluxio/master/metastore/KVReadOnlyInodeStore.java:111-146 | returns a fresh iterator over a fresh cursor, opened on (inodeId, option); what it will yield is the listing of getChildIds(inodeId, option) through get(id, name, option) |
| `KVReadOnlyInodeStore.GetChildrenFrom` | core/server/master/src/main/java/alluxio/master/metastore/KVReadOnlyInodeStore.java:46-51 | opens getChildren with a read option whose readFrom is fromName and which has no prefix |
| `KVReadOnlyInodeStore.GetChildrenPrefix` | core/server/master/src/main/java/alluxio/master/metastore/KVReadOnlyInodeStore.java:60-65 | opens getChildren with a read option whose prefix is set and which has no readFrom |
| `KVReadOnlyInodeStore.GetChildrenPrefixFrom` | core/server/master/src/main/java/alluxio/master/metastore/KVReadOnlyInodeStore.java:75-80 | opens getChildren with both the prefix and readFrom set |
| `KVReadOnlyInodeStore.GetChildrenDefault` | core/server/master/src/main/java/alluxio/master/metastore/KVReadOnlyInodeStore.java:152-154 | opens getChildren with no cursor and no prefix |
| `KVReadOnlyInodeStore.GetChildrenOfDirectory` | core/server/master/src/main/java/alluxio/master/metastore/KVReadOnlyInodeStore.java:161-164 | opens getChildren on the directory's id with the given option |
| `KVReadOnlyInodeStore.GetChildrenOfDirectoryDefault` | core/server/master/src/main/java/alluxio/master/metastore/KVReadOnlyInodeStore.java:170-173 | opens getChildren on the directory's id with no cursor and no prefix |
| `KVReadOnlyInodeStore.GetDefault` | core/server/master/src/main/java/alluxio/master/metastore/KVReadOnlyInodeStore.java:34-37 | the point lookup with no cursor and no prefix, decode failure included |
| `KVReadOnlyInodeStore.GetChildIdDefault` | core/server/master/src/main/java/alluxio/master/metastore/KVReadOnlyInodeStore.java:188-190 | getChildId with no cursor and no prefix |
| `KVReadOnlyInodeStore.GetChildIdOfDirectory` | core/server/master/src/main/java/alluxio/master/metastore/KVReadOnlyInodeStore.java:198-201 | getChildId on the directory's id |
| `KVReadOnlyInodeStore.GetChildDefault` | core/server/master/src/main/java/alluxio/master/metastore/KVReadOnlyInodeStore.java:216-218 | getChild with no cursor and no prefix |
| `KVReadOnlyInodeStore.GetChildOfDirectory` | core/server/master/src/main/java/alluxio/master/metastore/KVReadOnlyInodeStore.java:226-228 | getChild on the directory's id |
| `KVReadOnlyInodeStore.GetChildOfDirectoryDefault` | core/server/master/src/main/java/alluxio/master/metastore/KVReadOnlyInodeStore.java:236-238 | agrees with the directory overload at the default option, as its documentation promises, when the directory overload is not overridden; the code calls the id overload |
| `KVReadOnlyInodeStore.HasChildrenDefault` | core/server/master/src/main/java/alluxio/master/metastore/KVReadOnlyInodeStore.java:251-253 | hasChildren with no cursor and no prefix |
| `KVReadOnlyInodeStore.DrainStep` | core/server/master/src/main/java/alluxio/master/metastore/KVReadOnlyInodeStore.java:116-134 | one next/hasNext round of a draining caller keeps the invariant: the inodes received, then the buffer, then the listing still owed before the first undecodable pair, make up that listing |
| `KVReadOnlyInodeStore.ListChildren` | core/server/master/src/main/java/alluxio/master/metastore/KVReadOnlyInodeStore.java:111-146 | draining the iterator with hasNext/next yields the listing up to the first undecodable pair, in scan order. When every value decodes, it yields exactly the present results of get for every pair of getChildIds, in order |

## Left out

- Default methods are modelled as the interface writes them, not as an implementation may override them. So `getChild(inode, name)` and `getChildren(inode)` agree with the directory overloads that their documentation names only when those overloads are not overridden.
- The primitives `get`, `getChildIds`, `getChildId`, `getChild` and `hasChildren` have no implementation in the interface. They are fixed functions of a `Store`. Concurrent mutation of the store is therefore not modelled: the weakly consistent iterator is modelled against a store that does not change while it runs.
- `ReadOption` is not part of this model. Its builder chains become the `ReadOption` value with the same fields set. What `readFrom` and `prefix` select is decided by the `getChildIds` implementation, which is not part of this model either.
- The decoding of stored protobuf values is the `Undecodable` lookup outcome. The binary key layout is not modelled.
- `Log.debug` in the catch block, and the message text of `NoSuchElementException`, are not modelled.
- `ChildIdCursor` stands for a `CloseableIterator` whose implementation is not part of this model. Closing it only records that it was closed. Its `hasNext` and `next` after a close are not modelled.
- Java's `Long` arguments are never null in the model. The store's own `close()` (inherited from `Closeable`) has no body in the interface and is not modelled.
- kvstore/src/test/java/alluxio/kvstore/KVStoreCleartTest.java is a driver that talks to a remote store, and core/common/src/main/java/alluxio/heartbeat/HeartbeatTimer.java is a timing interface with no logic. Neither is modelled.
