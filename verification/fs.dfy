/**
 * The pieces of the local file system the model touches: a single
 * destination file and a cache directory listing.
 */
module Fs {

  import opened Wrappers

  type byte = b: int | 0 <= b < 256

  /** A file on disk: whether it exists and, if so, its bytes. */
  class File {
    var present: bool
    var content: seq<byte>

    constructor (present: bool, content: seq<byte>)
      ensures this.present == present && this.content == content
    {
      this.present := present;
      this.content := content;
    }

    /** `fs::remove_file`, whose failure the callers ignore. */
    method Remove()
      modifies this
      ensures !present && content == []
    {
      present := false;
      content := [];
    }
  }

  /**
   * One entry of a directory listing: its file name (None when the name
   * is not valid Unicode), whether it is a regular file, and whether
   * deleting it would succeed.
   */
  datatype Entry = Entry(name: Option<string>, isFile: bool, removable: bool)

  /** A directory: whether it exists, whether it can be listed, and its entries. */
  class Directory {
    var present: bool
    var readable: bool
    var entries: seq<Entry>

    constructor (present: bool, readable: bool, entries: seq<Entry>)
      ensures this.present == present && this.readable == readable && this.entries == entries
    {
      this.present := present;
      this.readable := readable;
      this.entries := entries;
    }
  }
}
