/**
 * What a listing of a directory's children means, independently of the
 * iterator that produces it: each (id, name) pair from the child-id scan is
 * looked up with `get`, and the inodes found are presented in scan order.
 */
module ChildListing {
  import opened Wrappers
  import opened InodeTypes

  /** The store's point lookup `get(id, name, option)`. */
  type Getter = (Long, string, ReadOption) -> Fetched

  /** Looks up the inode a listed pair names, with the listing's own read option. */
  function Fetch(get: Getter, option: ReadOption, e: ChildEntry): Fetched
  {
    get(e.id, e.name, option)
  }

  /**
   * The inodes the pairs resolve to, in order: a pair whose lookup finds
   * nothing, or finds a value that does not decode, contributes nothing.
   */
  function Resolved(get: Getter, option: ReadOption, entries: seq<ChildEntry>): (r: seq<Inode>)
    ensures |r| <= |entries|
  {
    if entries == [] then []
    else
      var rest := Resolved(get, option, entries[1..]);
      match Fetch(get, option, entries[0])
      case Present(inode) => [inode] + rest
      case _ => rest
  }

  /** Where one call of `advance` stops when nothing is buffered. */
  datatype Seeking =
    | Found(inode: Inode, next: nat)   // the pair before `next` resolved to `inode`
    | Exhausted                        // the scan ran out
    | DecodeFailed(next: nat)          // the pair before `next` did not decode

  /**
   * Consumes pairs from `pos` until one does not come back absent: the first
   * pair whose lookup is not empty decides the outcome.
   */
  function Seek(get: Getter, option: ReadOption, entries: seq<ChildEntry>, pos: nat): (s: Seeking)
    requires pos <= |entries|
    decreases |entries| - pos
    ensures s.Found? ==>
      pos < s.next <= |entries| && Fetch(get, option, entries[s.next - 1]) == Present(s.inode)
    ensures s.DecodeFailed? ==>
      pos < s.next <= |entries| && Fetch(get, option, entries[s.next - 1]) == Undecodable
    ensures s.Found? || s.DecodeFailed? ==>
      forall j :: pos <= j < s.next - 1 ==> Fetch(get, option, entries[j]) == Absent
    ensures s.Exhausted? ==>
      forall j :: pos <= j < |entries| ==> Fetch(get, option, entries[j]) == Absent
  {
    if pos == |entries| then Exhausted
    else
      match Fetch(get, option, entries[pos])
      case Present(inode) => Found(inode, pos + 1)
      case Undecodable => DecodeFailed(pos + 1)
      case Absent => Seek(get, option, entries, pos + 1)
  }

  /** The index of the first pair whose value does not decode, or `|entries|` if there is none. */
  function FirstUndecodable(get: Getter, option: ReadOption, entries: seq<ChildEntry>): (k: nat)
    ensures k <= |entries|
    ensures forall j :: 0 <= j < k ==> Fetch(get, option, entries[j]) != Undecodable
    ensures k < |entries| ==> Fetch(get, option, entries[k]) == Undecodable
  {
    if entries == [] then 0
    else if Fetch(get, option, entries[0]) == Undecodable then 0
    else 1 + FirstUndecodable(get, option, entries[1..])
  }

  /** An inode is listed exactly when some pair's lookup presents it. */
  lemma {:induction false} ResolvedMembers(get: Getter, option: ReadOption, entries: seq<ChildEntry>, x: Inode)
    ensures x in Resolved(get, option, entries) <==>
      exists j :: 0 <= j < |entries| && Fetch(get, option, entries[j]) == Present(x)
  {
    if entries != [] {
      ResolvedMembers(get, option, entries[1..], x);
      if x in Resolved(get, option, entries[1..]) {
        var j :| 0 <= j < |entries[1..]| && Fetch(get, option, entries[1..][j]) == Present(x);
        assert Fetch(get, option, entries[j + 1]) == Present(x);
      }
      if j :| 0 <= j < |entries| && Fetch(get, option, entries[j]) == Present(x) {
        if j > 0 {
          assert Fetch(get, option, entries[1..][j - 1]) == Present(x);
        }
      }
    }
  }

  /** Listing a concatenation lists each part in turn: the scan order is kept. */
  lemma {:induction false} ResolvedAppend(get: Getter, option: ReadOption, a: seq<ChildEntry>, b: seq<ChildEntry>)
    ensures Resolved(get, option, a + b) == Resolved(get, option, a) + Resolved(get, option, b)
  {
    if a != [] {
      assert (a + b)[0] == a[0];
      assert (a + b)[1..] == a[1..] + b;
      ResolvedAppend(get, option, a[1..], b);
    } else {
      assert a + b == b;
    }
  }

  /** A pair whose lookup is empty or undecodable can be removed without changing the listing. */
  lemma SkippedEntryInvisible(get: Getter, option: ReadOption, a: seq<ChildEntry>, x: ChildEntry, b: seq<ChildEntry>)
    requires !Fetch(get, option, x).Present?
    ensures Resolved(get, option, a + [x] + b) == Resolved(get, option, a + b)
  {
    ResolvedAppend(get, option, a + [x], b);
    ResolvedAppend(get, option, a, [x]);
    ResolvedAppend(get, option, a, b);
    assert Resolved(get, option, [x]) == Resolved(get, option, [x][1..]);
  }

  /**
   * What one seek consumes from the listing: the inode it finds is the head of
   * the rest of the listing, and a decode failure or exhaustion skips nothing
   * that the listing contains.
   */
  lemma {:induction false} SeekAgreesWithResolved(get: Getter, option: ReadOption, entries: seq<ChildEntry>, pos: nat)
    requires pos <= |entries|
    decreases |entries| - pos
    ensures var s := Seek(get, option, entries, pos);
      match s
      case Found(inode, next) =>
        Resolved(get, option, entries[pos..]) == [inode] + Resolved(get, option, entries[next..])
      case DecodeFailed(next) =>
        Resolved(get, option, entries[pos..]) == Resolved(get, option, entries[next..])
      case Exhausted =>
        Resolved(get, option, entries[pos..]) == []
  {
    if pos < |entries| {
      assert entries[pos..][0] == entries[pos];
      assert entries[pos..][1..] == entries[pos + 1..];
      if Fetch(get, option, entries[pos]) == Absent {
        SeekAgreesWithResolved(get, option, entries, pos + 1);
      }
    }
  }

  /**
   * The same, for the part of the scan before the first undecodable pair: a
   * seek from inside it finds the head of that part's listing, or finds
   * nothing only when that part lists nothing more.
   */
  lemma {:induction false} SeekBeforeFirstUndecodable(get: Getter, option: ReadOption, entries: seq<ChildEntry>, pos: nat)
    requires pos <= FirstUndecodable(get, option, entries)
    decreases |entries| - pos
    ensures var k := FirstUndecodable(get, option, entries);
      match Seek(get, option, entries, pos)
      case Found(inode, next) =>
        next <= k &&
        Resolved(get, option, entries[pos..k]) == [inode] + Resolved(get, option, entries[next..k])
      case _ =>
        Resolved(get, option, entries[pos..k]) == []
  {
    var k := FirstUndecodable(get, option, entries);
    if pos < k {
      assert entries[pos..k][0] == entries[pos];
      assert entries[pos..k][1..] == entries[pos + 1..k];
      if Fetch(get, option, entries[pos]) == Absent {
        SeekBeforeFirstUndecodable(get, option, entries, pos + 1);
      }
    }
  }

  /**
   * What a caller that stops at the first undecodable pair misses: exactly the
   * inodes listed after that pair.
   */
  lemma UndecodableSplitsListing(get: Getter, option: ReadOption, entries: seq<ChildEntry>)
    ensures var k := FirstUndecodable(get, option, entries);
      k < |entries| ==>
        Resolved(get, option, entries) ==
        Resolved(get, option, entries[..k]) + Resolved(get, option, entries[k + 1..])
  {
    var k := FirstUndecodable(get, option, entries);
    if k < |entries| {
      assert entries == entries[..k] + [entries[k]] + entries[k + 1..];
      SkippedEntryInvisible(get, option, entries[..k], entries[k], entries[k + 1..]);
      ResolvedAppend(get, option, entries[..k], entries[k + 1..]);
    }
  }
}
