/** An abstract directory tree standing for what the file system reports to
    the two collectors. A listing either succeeds, giving the entries in the
    order the operating system returns them, or fails (permissions, I/O). */
module FileTree {
  import opened Paths

  /** What `readdir(..., {withFileTypes: true})` / `os.scandir` report of an
      entry. `Other` covers symbolic links other than to a directory, sockets,
      pipes and devices: Node's `isFile()` and `isDirectory()` are both false
      for them, while Python's `os.walk` lists them among the files. */
  datatype Kind =
    | RegularFile
    | Directory(listing: Listing)
    | SymlinkToDirectory
    | Other

  datatype Listing = Listed(entries: seq<Entry>) | Unreadable

  datatype Entry = Entry(name: string, kind: Kind)

  /** Every name in the tree is one a directory listing can hold. */
  predicate WellFormedListing(l: Listing)
    decreases l
  {
    match l
    case Unreadable => true
    case Listed(es) => forall i :: 0 <= i < |es| ==> WellFormedEntry(es[i])
  }

  predicate WellFormedEntry(e: Entry)
    decreases e
  {
    IsEntryName(e.name) &&
    match e.kind
    case Directory(l) => WellFormedListing(l)
    case _ => true
  }
}
