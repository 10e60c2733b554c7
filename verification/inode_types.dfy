/**
 * The values the read-only inode store traffics in: inode ids, inodes, the
 * (child id, child name) pairs of a directory listing, read options, and the
 * outcome of one point lookup.
 */
module InodeTypes {
  import opened Wrappers

  /** A Java `long`. Ids are only compared and passed on, never computed with. */
  type Long = x: int | -0x8000_0000_0000_0000 <= x < 0x8000_0000_0000_0000

  /** An inode; everything beyond its id, name and kind is opaque to this layer. */
  datatype Inode = Inode(id: Long, name: string, isDirectory: bool)

  /** `InodeDirectoryView`: an inode that is a directory. */
  type InodeDirectoryView = i: Inode | i.isDirectory witness Inode(0, "", true)

  /** `Pair<Long, String>` from `getChildIds`: a child's id and its name. */
  datatype ChildEntry = ChildEntry(id: Long, name: string)

  /**
   * `ReadOption`: an optional cursor to list from (inclusive) and an optional
   * name prefix. The builder chain `newBuilder().setReadFrom(..).setPrefix(..).build()`
   * is the constructor below with the given fields set.
   */
  datatype ReadOption = ReadOption(readFrom: Option<string>, prefix: Option<string>)

  /** `ReadOption.defaults()`: no cursor and no prefix. */
  function Defaults(): ReadOption
  {
    ReadOption(None, None)
  }

  /**
   * The outcome of `get(id, name, option)`: an empty `Optional`, a present
   * inode, or an `InvalidProtocolBufferException` from decoding the stored value.
   */
  datatype Fetched = Absent | Present(inode: Inode) | Undecodable

  /** The exceptions this layer throws or catches. */
  datatype Exception = InvalidProtocolBuffer | NoSuchElement
}
