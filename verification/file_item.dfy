/** One entry of the macOS host's file browser (`FileItem`).

    An item is built from a file URL: its name is the last path component, it
    is hidden when the name starts with a dot, and it is a directory when the
    disk says so. A directory starts with an empty child list, anything else
    with none. Loading a directory's children turns a directory listing into
    items ordered directories first, then by name. The disk and the listing
    are parameters, and the name comparison is an abstract total preorder
    `le` (the localized case-insensitive comparison of the source). */
module Files {
  import opened Basics

  /** A file URL, as its path components. */
  datatype FileUrl = FileUrl(path: seq<string>)

  /** What the disk holds at each existing URL: `true` for a directory. */
  type Disk = map<FileUrl, bool>

  datatype FileItem = FileItem(
    name: string,
    url: FileUrl,
    isDirectory: bool,
    isHidden: bool,
    children: Option<seq<FileItem>>)

  /** The outcome of listing a directory: its entries (hidden ones already
      skipped), or an error. */
  datatype Listing = Listed(urls: seq<FileUrl>) | ListingFailed

  /** `lastPathComponent`; the root path has "/" as its last component. */
  function LastPathComponent(u: FileUrl): string {
    if |u.path| == 0 then "/" else u.path[|u.path| - 1]
  }

  /** `FileItem(url:)`. */
  function NewItem(u: FileUrl, disk: Disk): (r: FileItem)
    ensures r.url == u && r.name == LastPathComponent(u)
    ensures r.isHidden <==> |r.name| > 0 && r.name[0] == '.'
    ensures r.isDirectory <==> u in disk && disk[u]
    ensures r.isDirectory ==> r.children == Some([])
    ensures !r.isDirectory ==> r.children == None
  {
    var name := LastPathComponent(u);
    var isDir := u in disk && disk[u];
    FileItem(name, u, isDir, "." <= name, if isDir then Some([]) else None)
  }

  /** `hasChildren`. */
  function HasChildren(item: FileItem): (r: bool)
    ensures !item.isDirectory ==> !r
    ensures r ==> item.children != None && item.children != Some([])
  {
    item.isDirectory && item.children.Some? && |item.children.value| > 0
  }

  ghost predicate TotalPreorder(le: (string, string) -> bool) {
    && (forall a, b :: le(a, b) || le(b, a))
    && (forall a, b, c :: le(a, b) && le(b, c) ==> le(a, c))
  }

  /** The order of children: a directory comes before a file; items of the
      same kind are ordered by name. */
  predicate Before(le: (string, string) -> bool, x: FileItem, y: FileItem) {
    if x.isDirectory != y.isDirectory then x.isDirectory else le(x.name, y.name)
  }

  predicate Sorted(le: (string, string) -> bool, s: seq<FileItem>) {
    forall i, j :: 0 <= i < j < |s| ==> Before(le, s[i], s[j])
  }

  /** `Before` inherits totality and transitivity from the name order. */
  lemma BeforeIsTotalPreorder(le: (string, string) -> bool)
    requires TotalPreorder(le)
    ensures forall x, y :: Before(le, x, y) || Before(le, y, x)
    ensures forall x, y, z :: Before(le, x, y) && Before(le, y, z) ==> Before(le, x, z)
  {
  }

  function Insert(le: (string, string) -> bool, x: FileItem, s: seq<FileItem>): (r: seq<FileItem>)
    ensures multiset(r) == multiset(s) + multiset{x}
  {
    if |s| == 0 then [x]
    else if Before(le, x, s[0]) then [x] + s
    else
      assert s == [s[0]] + s[1..];
      [s[0]] + Insert(le, x, s[1..])
  }

  lemma {:induction false} InsertSorted(le: (string, string) -> bool, x: FileItem, s: seq<FileItem>)
    requires TotalPreorder(le) && Sorted(le, s)
    ensures Sorted(le, Insert(le, x, s))
  {
    BeforeIsTotalPreorder(le);
    if |s| == 0 {
    } else if Before(le, x, s[0]) {
      var r := [x] + s;
      forall i, j | 0 <= i < j < |r|
        ensures Before(le, r[i], r[j])
      {
        if i == 0 && j > 1 {
          assert Before(le, s[0], s[j - 1]);
        }
      }
    } else {
      var rest := Insert(le, x, s[1..]);
      InsertSorted(le, x, s[1..]);
      var r := [s[0]] + rest;
      forall j | 1 <= j < |r|
        ensures Before(le, s[0], r[j])
      {
        assert r[j] == rest[j - 1];
        assert r[j] in multiset(rest);
        if r[j] != x {
          assert r[j] in multiset(s[1..]);
          var k :| 0 <= k < |s[1..]| && s[1..][k] == r[j];
          assert s[k + 1] == r[j];
        }
      }
      assert Insert(le, x, s) == r;
    }
  }

  /** Insertion sort under `Before`. */
  function Sort(le: (string, string) -> bool, s: seq<FileItem>): (r: seq<FileItem>)
    ensures multiset(r) == multiset(s)
  {
    if |s| == 0 then []
    else
      assert s == [s[0]] + s[1..];
      Insert(le, s[0], Sort(le, s[1..]))
  }

  lemma {:induction false} SortSorted(le: (string, string) -> bool, s: seq<FileItem>)
    requires TotalPreorder(le)
    ensures Sorted(le, Sort(le, s))
  {
    if |s| > 0 {
      SortSorted(le, s[1..]);
      InsertSorted(le, s[0], Sort(le, s[1..]));
    }
  }

  /** The items built from a listing, in listing order. */
  function ItemsOf(urls: seq<FileUrl>, disk: Disk): (r: seq<FileItem>)
    ensures |r| == |urls|
    ensures forall i :: 0 <= i < |urls| ==> r[i] == NewItem(urls[i], disk)
  {
    seq(|urls|, i requires 0 <= i < |urls| => NewItem(urls[i], disk))
  }

  /** `loadChildren`: nothing for a non-directory; an empty list when the
      listing fails; otherwise the listed entries, as a permutation with every
      directory before every file and each kind in ascending name order. */
  function LoadChildren(item: FileItem, listing: Listing, disk: Disk, le: (string, string) -> bool): (r: FileItem)
    requires TotalPreorder(le)
    ensures !item.isDirectory ==> r == item
    ensures item.isDirectory ==> r == item.(children := r.children) && r.children.Some?
    ensures item.isDirectory && listing.ListingFailed? ==> r.children == Some([])
    ensures item.isDirectory && listing.Listed? ==>
      var kids := r.children.value;
      && multiset(kids) == multiset(ItemsOf(listing.urls, disk))
      && (forall i, j :: 0 <= i < j < |kids| && kids[j].isDirectory ==> kids[i].isDirectory)
      && (forall i, j :: 0 <= i < j < |kids| && kids[i].isDirectory == kids[j].isDirectory ==>
            le(kids[i].name, kids[j].name))
  {
    if !item.isDirectory then item
    else match listing
      case ListingFailed => item.(children := Some([]))
      case Listed(urls) =>
        var kids := Sort(le, ItemsOf(urls, disk));
        SortSorted(le, ItemsOf(urls, disk));
        item.(children := Some(kids))
  }

  /** A fresh item never reports children; after loading, a directory has
      children exactly when its listing succeeded and was not empty. */
  lemma HasChildrenAfterLoad(u: FileUrl, listing: Listing, disk: Disk, le: (string, string) -> bool)
    requires TotalPreorder(le)
    ensures !HasChildren(NewItem(u, disk))
    ensures
      var loaded := LoadChildren(NewItem(u, disk), listing, disk, le);
      HasChildren(loaded) <==> (u in disk && disk[u] && listing.Listed? && |listing.urls| > 0)
  {
    var item := NewItem(u, disk);
    if item.isDirectory && listing.Listed? {
      var kids := LoadChildren(item, listing, disk, le).children.value;
      assert |kids| == |multiset(kids)| == |ItemsOf(listing.urls, disk)|;
    }
  }
}
