/** Reading the names of one folder (internal/reaper/studio_files.go, readStudioDirectoryNames):
    the bounded listing in name order, whatever order the directory gives. */
module StudioDirectory {
  import opened Text
  import opened StudioFiles
  import StableSort

  function NameOf(child: Child): string {
    child.name
  }

  ghost predicate DistinctNames(children: seq<Child>) {
    forall i, j :: 0 <= i < j < |children| ==> children[i].name != children[j].name
  }

  /** The most names counted beyond the listed ones: whole reads until the item limit is reached. */
  const OVERFLOW_LIMIT := 102400

  /** What the first read gives. */
  function FirstRead(listing: seq<Child>): seq<Child> {
    if |listing| <= DIRECTORY_ENTRY_LIMIT then listing else listing[..DIRECTORY_ENTRY_LIMIT]
  }

  /** The names of the first read in name order, and how many more there are. */
  ghost predicate IsListing(folder: Folder, listing: seq<Child>) {
    && folder.lists
    && multiset(folder.children) == multiset(FirstRead(listing))
    && (|listing| <= DIRECTORY_ENTRY_LIMIT ==> folder.overflow == 0)
    && (|listing| > DIRECTORY_ENTRY_LIMIT ==>
          var rest := |listing| - DIRECTORY_ENTRY_LIMIT;
          folder.overflow == if rest < OVERFLOW_LIMIT then rest else OVERFLOW_LIMIT)
    && (DistinctNames(listing) ==> StrictlySorted(folder.children))
  }

  /** The loop that counts what lies beyond the first read, `remaining` names. */
  method CountRest(remaining: nat) returns (overflow: nat)
    ensures overflow == if remaining < OVERFLOW_LIMIT then remaining else OVERFLOW_LIMIT
  {
    overflow := 0;
    var more := true;
    while more
      invariant overflow <= remaining && overflow <= OVERFLOW_LIMIT
      invariant overflow % DIRECTORY_ENTRY_LIMIT == 0 || overflow == remaining
      invariant more ==> overflow < WALK_ITEM_LIMIT
      invariant !more ==> overflow == remaining || overflow >= WALK_ITEM_LIMIT
      decreases more, remaining - overflow
    {
      var rest := remaining - overflow;
      var count := if rest < DIRECTORY_ENTRY_LIMIT then rest else DIRECTORY_ENTRY_LIMIT;
      overflow := overflow + count;
      if count == 0 || overflow >= WALK_ITEM_LIMIT {
        more := false;
      }
    }
  }

  lemma SortedListing(listing: seq<Child>, n: nat)
    requires n <= |listing|
    ensures var children := StableSort.Sort(listing[..n], NameOf);
            && multiset(children) == multiset(listing[..n])
            && (DistinctNames(listing) ==> StrictlySorted(children))
  {
    var entries := listing[..n];
    StableSort.SortPermutes(entries, NameOf);
    if DistinctNames(listing) {
      StableSort.SortStrictlyOrders(entries, NameOf);
    }
  }

  /** `read` is the directory in its own order, as far as reads do not fail, in pieces of
      DIRECTORY_ENTRY_LIMIT; None when already the first read fails. */
  method ReadStudioDirectory(read: Option<seq<Child>>) returns (folder: Folder)
    ensures read.None? ==> folder == Folder(false, [], 0)
    ensures read.Some? ==> IsListing(folder, read.value)
  {
    if read.None? {
      return Folder(false, [], 0);
    }
    var listing := read.value;
    var n := if |listing| < DIRECTORY_ENTRY_LIMIT then |listing| else DIRECTORY_ENTRY_LIMIT;
    var entries := listing[..n];
    var overflow := 0;
    if |entries| == DIRECTORY_ENTRY_LIMIT {
      overflow := CountRest(|listing| - n);
    }
    SortedListing(listing, n);
    assert entries == FirstRead(listing);
    folder := Folder(true, StableSort.Sort(entries, NameOf), overflow);
  }
}
