/**
 * `KVReadOnlyInodeStore`: read-only access to the inode store over a
 * key-value backend. The abstract operations of the interface are the
 * oracles of a `Store`; the default methods are the members below, and the
 * children listing is the iterator class `ChildrenIterator`, which wraps the
 * child-id cursor and looks up each pair it yields.
 */
module KVReadOnlyInodeStore {
  import opened Wrappers
  import opened InodeTypes
  import opened ChildListing

  /** The abstract operations an implementation of the interface supplies. */
  datatype Store = Store(
    get: Getter,                                                  // get(pid, name, option)
    childIds: (Long, ReadOption) -> seq<ChildEntry>,              // what getChildIds(inodeId, option) yields
    childId: (Long, string, ReadOption) -> Option<Long>,          // getChildId(inodeId, name, option)
    child: (Long, string, ReadOption) -> Option<Inode>,           // getChild(inodeId, name, option)
    hasChildren: (InodeDirectoryView, ReadOption) -> bool)        // hasChildren(inode, option)

  /**
   * The closeable iterator of (child id, child name) pairs that
   * `getChildIds` returns, over the pairs of one scan.
   */
  class ChildIdCursor {
    const entries: seq<ChildEntry>
    var pos: nat
    var closed: bool

    ghost predicate Valid()
      reads this
    {
      pos <= |entries|
    }

    /** Freshly opened over `entries`: nothing consumed, not closed. */
    ghost predicate AtStart(entries: seq<ChildEntry>)
      reads this
    {
      Valid() && this.entries == entries && pos == 0 && !closed
    }

    constructor (entries: seq<ChildEntry>)
      ensures AtStart(entries)
    {
      this.entries := entries;
      pos := 0;
      closed := false;
    }

    /** `hasNext()`: whether a pair is left; consumes nothing. */
    method HasNext() returns (b: bool)
      requires Valid()
      ensures b <==> pos < |entries|
    {
      b := pos < |entries|;
    }

    /** `next()`: the next pair, or `NoSuchElementException` when none is left. */
    method Next() returns (r: Result<ChildEntry, Exception>)
      requires Valid()
      modifies this`pos
      ensures Valid()
      ensures old(pos) < |entries| ==> r == Success(entries[old(pos)]) && pos == old(pos) + 1
      ensures old(pos) == |entries| ==> r == Failure(NoSuchElement) && pos == old(pos)
    {
      if pos < |entries| {
        r := Success(entries[pos]);
        pos := pos + 1;
      } else {
        r := Failure(NoSuchElement);
      }
    }

    /** `close()`: releases the scan. */
    method Close()
      modifies this`closed
      ensures closed
    {
      closed := true;
    }
  }

  /**
   * The iterator `getChildren(inodeId, option)` returns: the anonymous
   * `Iterator<Inode>` with its one-inode lookahead `mNext`, together with the
   * closing action `CloseableIterator.create` attaches to it.
   */
  class ChildrenIterator {
    const store: Store
    const inodeId: Long
    const option: ReadOption
    const it: ChildIdCursor
    var mNext: Option<Inode>

    ghost predicate Valid()
      reads this, it
    {
      it.Valid()
    }

    /** Opened by `getChildren(inodeId, option)` and not advanced yet. */
    ghost predicate Opened(store: Store, inodeId: Long, option: ReadOption)
      reads this, it
    {
      && this.store == store && this.inodeId == inodeId && this.option == option
      && it.AtStart(store.childIds(inodeId, option))
      && mNext == None
    }

    /** The buffered inode, if any. */
    ghost function Buffered(): seq<Inode>
      reads this
    {
      if mNext.Some? then [mNext.value] else []
    }

    /**
     * The inodes still to come for a caller that keeps asking: the buffered
     * one, then the listing of the pairs not yet consumed.
     */
    ghost function Pending(): seq<Inode>
      reads this, it
      requires Valid()
    {
      Buffered() + Resolved(store.get, option, it.entries[it.pos..])
    }

    /** Where `advance` would stop from the current position if nothing were buffered. */
    ghost function Ahead(): Seeking
      reads this, it
      requires Valid()
    {
      Seek(store.get, option, it.entries, it.pos)
    }

    /** The buffer and the position are those that seek outcome `s` leaves. */
    ghost predicate Settled(s: Seeking)
      reads this, it
    {
      match s
      case Found(inode, next) => mNext == Some(inode) && it.pos == next
      case Exhausted => mNext == None && it.pos == |it.entries|
      case DecodeFailed(next) => mNext == None && it.pos == next
    }

    constructor (store: Store, inodeId: Long, option: ReadOption, it: ChildIdCursor)
      requires it.AtStart(store.childIds(inodeId, option))
      ensures this.it == it && Opened(store, inodeId, option)
    {
      this.store := store;
      this.inodeId := inodeId;
      this.option := option;
      this.it := it;
      mNext := None;
    }

    /**
     * `advance()`: while nothing is buffered and pairs remain, consumes a pair
     * and looks it up; a present inode is buffered, an empty lookup is passed
     * over, and an undecodable value ends the call with the exception, after
     * its pair has been consumed.
     */
    method Advance() returns (r: Outcome<Exception>)
      requires Valid()
      modifies this, it
      ensures Valid() && it.closed == old(it.closed)
      ensures old(mNext).Some? ==> mNext == old(mNext) && it.pos == old(it.pos)
      ensures old(mNext).None? ==> Settled(old(Ahead()))
      ensures r == if old(mNext).None? && old(Ahead()).DecodeFailed? then Fail(InvalidProtocolBuffer) else Pass
      ensures Pending() == old(Pending())
    {
      SeekAgreesWithResolved(store.get, option, it.entries, it.pos);
      r := Pass;
      while mNext.None?
        invariant Valid() && it.closed == old(it.closed)
        invariant old(mNext).Some? ==> mNext == old(mNext) && it.pos == old(it.pos)
        invariant old(mNext).None? && mNext.Some? ==> old(Ahead()) == Found(mNext.value, it.pos)
        invariant old(mNext).None? && mNext.None? ==> old(Ahead()) == Ahead()
        decreases |it.entries| - it.pos
      {
        var more := it.HasNext();
        if !more {
          break;
        }
        var next := it.Next();
        var e := next.value;
        var found := store.get(e.id, e.name, option);
        match found
        case Present(inode) =>
          mNext := Some(inode);
        case Undecodable =>
          return Fail(InvalidProtocolBuffer);
        case Absent =>
      }
    }

    /**
     * `hasNext()`: advances, catching (and only logging) a decode failure,
     * and answers whether an inode is buffered. With an inode already buffered
     * it consumes nothing; after a decode failure it answers false, and the
     * next call resumes after the failing pair.
     */
    method HasNext() returns (b: bool)
      requires Valid()
      modifies this, it
      ensures Valid() && it.closed == old(it.closed)
      ensures b <==> mNext.Some?
      ensures old(mNext).Some? ==> mNext == old(mNext) && it.pos == old(it.pos)
      ensures old(mNext).None? ==> Settled(old(Ahead()))
      ensures Pending() == old(Pending())
    {
      var outcome := Advance();
      b := mNext.Some?;
    }

    /**
     * `next()`: hands out the buffered inode (advancing first if none is
     * buffered) and clears the buffer, or throws `NoSuchElementException`
     * when `hasNext()` says false.
     */
    method Next() returns (r: Result<Inode, Exception>)
      requires Valid()
      modifies this, it
      ensures Valid() && it.closed == old(it.closed) && mNext == None
      ensures r.Success? <==> old(mNext).Some? || old(Ahead()).Found?
      ensures r.Success? ==> old(Pending()) == [r.value] + Pending()
      ensures old(mNext).Some? ==> r == Success(old(mNext).value) && it.pos == old(it.pos)
      ensures old(mNext).None? && old(Ahead()).Found? ==>
        r == Success(old(Ahead()).inode) && it.pos == old(Ahead()).next
      ensures r.Failure? ==>
        r.error == NoSuchElement && Pending() == old(Pending()) && Settled(old(Ahead()))
      ensures !(old(mNext).None? && old(Ahead()).DecodeFailed?) ==> (r.Failure? <==> old(Pending()) == [])
    {
      SeekAgreesWithResolved(store.get, option, it.entries, it.pos);
      ghost var ahead, pending := Ahead(), Pending();
      assert mNext.None? && ahead.Found? ==> pending != [];
      assert mNext.None? && ahead.Exhausted? ==> pending == [];
      var more := HasNext();
      if !more {
        return Failure(NoSuchElement);
      }
      r := Success(mNext.value);
      mNext := None;
    }

    /** `close()` of the returned iterator: closes the child-id cursor. */
    method Close()
      requires Valid()
      modifies it
      ensures Valid() && it.closed && it.pos == old(it.pos)
    {
      it.Close();
    }
  }

  /** `getChildIds(inodeId, option)`: opens a cursor over the store's pairs for that directory. */
  method GetChildIds(store: Store, inodeId: Long, option: ReadOption) returns (cursor: ChildIdCursor)
    ensures fresh(cursor) && cursor.AtStart(store.childIds(inodeId, option))
  {
    cursor := new ChildIdCursor(store.childIds(inodeId, option));
  }

  /** `getChildIds(inodeId)`: the same with the default read option. */
  method GetChildIdsDefault(store: Store, inodeId: Long) returns (cursor: ChildIdCursor)
    ensures fresh(cursor) && cursor.AtStart(store.childIds(inodeId, ReadOption(None, None)))
  {
    cursor := GetChildIds(store, inodeId, Defaults());
  }

  /** `getChildIds(inode, option)`: the same for a directory, by its id. */
  method GetChildIdsOfDirectory(store: Store, inode: InodeDirectoryView, option: ReadOption)
    returns (cursor: ChildIdCursor)
    ensures fresh(cursor) && cursor.AtStart(store.childIds(inode.id, option))
  {
    cursor := GetChildIds(store, inode.id, option);
  }

  /**
   * `getChildren(inodeId, option)`: an iterator whose inodes, asked for one
   * by one, are the listing of the directory's pairs.
   */
  method GetChildren(store: Store, inodeId: Long, option: ReadOption) returns (iter: ChildrenIterator)
    ensures fresh(iter) && fresh(iter.it) && iter.Opened(store, inodeId, option)
    ensures iter.Valid() && iter.Pending() == Resolved(store.get, option, store.childIds(inodeId, option))
  {
    var it := GetChildIds(store, inodeId, option);
    iter := new ChildrenIterator(store, inodeId, option, it);
    assert it.entries[0..] == it.entries;
  }

  /** `getChildrenFrom(parentId, fromName)`: lists from `fromName` on. */
  method GetChildrenFrom(store: Store, parentId: Long, fromName: string) returns (iter: ChildrenIterator)
    ensures fresh(iter) && fresh(iter.it) && iter.Opened(store, parentId, ReadOption(Some(fromName), None))
  {
    iter := GetChildren(store, parentId, ReadOption(Some(fromName), None));
  }

  /** `getChildrenPrefix(parentId, prefix)`: lists the children whose names start with `prefix`. */
  method GetChildrenPrefix(store: Store, parentId: Long, prefix: string) returns (iter: ChildrenIterator)
    ensures fresh(iter) && fresh(iter.it) && iter.Opened(store, parentId, ReadOption(None, Some(prefix)))
  {
    iter := GetChildren(store, parentId, ReadOption(None, Some(prefix)));
  }

  /** `getChildrenPrefixFrom(parentId, prefix, fromName)`: both filters at once. */
  method GetChildrenPrefixFrom(store: Store, parentId: Long, prefix: string, fromName: string)
    returns (iter: ChildrenIterator)
    ensures fresh(iter) && fresh(iter.it) && iter.Opened(store, parentId, ReadOption(Some(fromName), Some(prefix)))
  {
    iter := GetChildren(store, parentId, ReadOption(Some(fromName), Some(prefix)));
  }

  /** `getChildren(inodeId)`: the default read option. */
  method GetChildrenDefault(store: Store, inodeId: Long) returns (iter: ChildrenIterator)
    ensures fresh(iter) && fresh(iter.it) && iter.Opened(store, inodeId, ReadOption(None, None))
  {
    iter := GetChildren(store, inodeId, Defaults());
  }

  /** `getChildren(inode, option)`: a directory, by its id. */
  method GetChildrenOfDirectory(store: Store, inode: InodeDirectoryView, option: ReadOption)
    returns (iter: ChildrenIterator)
    ensures fresh(iter) && fresh(iter.it) && iter.Opened(store, inode.id, option)
  {
    iter := GetChildren(store, inode.id, option);
  }

  /** `getChildren(inode)`: a directory, by its id, with the default read option. */
  method GetChildrenOfDirectoryDefault(store: Store, inode: InodeDirectoryView) returns (iter: ChildrenIterator)
    ensures fresh(iter) && fresh(iter.it) && iter.Opened(store, inode.id, ReadOption(None, None))
  {
    iter := GetChildren(store, inode.id, Defaults());
  }

  /** `get(id, name)`: the point lookup with no cursor and no prefix. */
  function GetDefault(store: Store, id: Long, name: string): (r: Fetched)
    ensures r == store.get(id, name, ReadOption(None, None))
  {
    store.get(id, name, Defaults())
  }

  /** `getChildId(inodeId, name)`: the default read option. */
  function GetChildIdDefault(store: Store, inodeId: Long, name: string): (r: Option<Long>)
    ensures r == store.childId(inodeId, name, ReadOption(None, None))
  {
    store.childId(inodeId, name, Defaults())
  }

  /** `getChildId(inode, name, option)`: a directory, by its id. */
  function GetChildIdOfDirectory(store: Store, inode: InodeDirectoryView, name: string, option: ReadOption)
    : (r: Option<Long>)
    ensures r == store.childId(inode.id, name, option)
  {
    store.childId(inode.id, name, option)
  }

  /** `getChild(inodeId, name)`: the default read option. */
  function GetChildDefault(store: Store, inodeId: Long, name: string): (r: Option<Inode>)
    ensures r == store.child(inodeId, name, ReadOption(None, None))
  {
    store.child(inodeId, name, Defaults())
  }

  /** `getChild(inode, name, option)`: a directory, by its id. */
  function GetChildOfDirectory(store: Store, inode: InodeDirectoryView, name: string, option: ReadOption)
    : (r: Option<Inode>)
    ensures r == store.child(inode.id, name, option)
  {
    store.child(inode.id, name, option)
  }

  /**
   * `getChild(inode, name)`: documented as the directory overload with the
   * default option; the code calls the id overload directly, which agrees
   * as long as the directory overload is not overridden.
   */
  function GetChildOfDirectoryDefault(store: Store, inode: InodeDirectoryView, name: string): (r: Option<Inode>)
    ensures r == GetChildOfDirectory(store, inode, name, ReadOption(None, None))
  {
    store.child(inode.id, name, Defaults())
  }

  /** `hasChildren(inode)`: the default read option. */
  function HasChildrenDefault(store: Store, inode: InodeDirectoryView): (r: bool)
    ensures r == store.hasChildren(inode, ReadOption(None, None))
  {
    store.hasChildren(inode, Defaults())
  }

  /**
   * One round of a caller that drains an iterator: after handing out `x`
   * with the listing before the first undecodable pair still owed from
   * `pos`, the next seek either buffers that remainder's head or shows that
   * nothing is owed any more.
   */
  lemma DrainStep(get: Getter, option: ReadOption, entries: seq<ChildEntry>, pos: nat,
                  children: seq<Inode>, x: Inode)
    requires pos <= FirstUndecodable(get, option, entries)
    requires var k := FirstUndecodable(get, option, entries);
      children + [x] + Resolved(get, option, entries[pos..k]) == Resolved(get, option, entries[..k])
    ensures var k := FirstUndecodable(get, option, entries);
      match Seek(get, option, entries, pos)
      case Found(inode, next) =>
        next <= k &&
        (children + [x]) + [inode] + Resolved(get, option, entries[next..k])
        == Resolved(get, option, entries[..k])
      case _ =>
        children + [x] == Resolved(get, option, entries[..k])
  {
    var k := FirstUndecodable(get, option, entries);
    SeekBeforeFirstUndecodable(get, option, entries, pos);
    match Seek(get, option, entries, pos)
    case Found(inode, next) =>
      assert (children + [x]) + [inode] + Resolved(get, option, entries[next..k])
        == children + [x] + ([inode] + Resolved(get, option, entries[next..k]));
    case _ =>
  }

  /**
   * A caller that asks `hasNext()` and takes `next()` until `hasNext()`
   * says false, then closes the iterator. It receives the listing of the
   * pairs before the first undecodable one, in scan order, each inode once;
   * when every value decodes, that is the whole listing.
   */
  method ListChildren(store: Store, inodeId: Long, option: ReadOption) returns (children: seq<Inode>)
    ensures var entries := store.childIds(inodeId, option);
      children == Resolved(store.get, option, entries[..FirstUndecodable(store.get, option, entries)])
    ensures var entries := store.childIds(inodeId, option);
      (forall j :: 0 <= j < |entries| ==> Fetch(store.get, option, entries[j]) != Undecodable) ==>
        children == Resolved(store.get, option, entries)
  {
    ghost var entries := store.childIds(inodeId, option);
    ghost var k := FirstUndecodable(store.get, option, entries);
    var iter := GetChildren(store, inodeId, option);
    children := [];
    SeekBeforeFirstUndecodable(store.get, option, entries, 0);
    assert entries[0..k] == entries[..k];
    var more := iter.HasNext();
    while more
      invariant fresh(iter) && fresh(iter.it) && iter.Valid()
      invariant iter.store == store && iter.option == option && iter.it.entries == entries
      invariant more <==> iter.mNext.Some?
      invariant more ==> iter.it.pos <= k
      invariant more ==>
        children + iter.Buffered() + Resolved(store.get, option, entries[iter.it.pos..k])
        == Resolved(store.get, option, entries[..k])
      invariant !more ==> children == Resolved(store.get, option, entries[..k])
      decreases |entries| - iter.it.pos + (if more then 1 else 0)
    {
      ghost var pos := iter.it.pos;
      var r := iter.Next();
      DrainStep(store.get, option, entries, pos, children, r.value);
      children := children + [r.value];
      more := iter.HasNext();
    }
    iter.Close();
    if forall j :: 0 <= j < |entries| ==> Fetch(store.get, option, entries[j]) != Undecodable {
      assert entries[..k] == entries;
    }
  }
}
