/** The recordings folder and its retention policy. The folder is a tree of
    entries: day folders at the top, a folder per camera inside each day, the
    segment files inside those. Whether deleting a folder succeeds is part of
    the folder's record, since it is decided by the file system. */
module Storage {
  import opened Wrappers
  import opened Strings
  import opened Ordering
  import opened IsoDate
  import opened Models
  import opened Config

  datatype Node =
    | File(name: string, size: nat)
    | Dir(name: string, children: seq<Node>, deleteOk: bool)

  /** The recordings root, which may not exist yet. */
  datatype Root = Missing | Present(entries: seq<Node>)

  function NodeName(n: Node): string {
    n.name
  }

  predicate IsDir(n: Node) {
    n.Dir?
  }

  // ---------------------------------------------------------------- sizes

  /** Sum of the sizes of the regular files in the entries, at any depth. */
  function NodesSize(s: seq<Node>): nat
    decreases s
  {
    if |s| == 0 then 0
    else
      var here := match s[0]
        case File(_, size) => size
        case Dir(_, children, _) => NodesSize(children);
      here + NodesSize(s[1..])
  }

  function NodeSize(n: Node): nat {
    NodesSize([n])
  }

  lemma NodesSizeCons(s: seq<Node>)
    requires |s| > 0
    ensures NodesSize(s) == NodeSize(s[0]) + NodesSize(s[1..])
  {
    assert [s[0]][1..] == [];
  }

  lemma {:induction false} NodesSizeAppend(a: seq<Node>, b: seq<Node>)
    ensures NodesSize(a + b) == NodesSize(a) + NodesSize(b)
    decreases |a|
  {
    if |a| > 0 {
      assert (a + b)[1..] == a[1..] + b;
      assert (a + b)[0] == a[0];
      NodesSizeCons(a + b);
      NodesSizeCons(a);
      NodesSizeAppend(a[1..], b);
    } else {
      assert a + b == b;
    }
  }

  /** `get_recordings_size_bytes`: every regular file counted once; 0 without a root. */
  function RecordingsSize(root: Root): (total: nat)
    ensures root.Missing? ==> total == 0
    ensures root.Present? ==> total == NodesSize(root.entries)
    ensures root.Present? ==> forall i :: 0 <= i < |root.entries| ==> NodeSize(root.entries[i]) <= total
  {
    match root
    case Missing => 0
    case Present(entries) =>
      SizeBoundsEach(entries);
      NodesSize(entries)
  }

  lemma {:induction false} SizeBoundsEach(s: seq<Node>)
    ensures forall i :: 0 <= i < |s| ==> NodeSize(s[i]) <= NodesSize(s)
    decreases |s|
  {
    if |s| > 0 {
      SizeBoundsEach(s[1..]);
      NodesSizeCons(s);
      forall i | 0 <= i < |s| ensures NodeSize(s[i]) <= NodesSize(s) {
        if i > 0 {
          assert s[1..][i - 1] == s[i];
        }
      }
    }
  }

  /** Splitting the entries by any predicate splits the total size. */
  lemma {:induction false} NodesSizeFilter(s: seq<Node>, p: Node -> bool)
    ensures NodesSize(s) == NodesSize(Filter(s, p)) + NodesSize(Filter(s, n => !p(n)))
    decreases |s|
  {
    if |s| > 0 {
      NodesSizeFilter(s[1..], p);
      var q := (n: Node) => !p(n);
      var one := [s[0]];
      assert one[1..] == [];
      if p(s[0]) {
        assert Filter(s, p) == one + Filter(s[1..], p);
        assert Filter(s, q) == Filter(s[1..], q);
        NodesSizeAppend(one, Filter(s[1..], p));
      } else {
        assert Filter(s, q) == one + Filter(s[1..], q);
        assert Filter(s, p) == Filter(s[1..], p);
        NodesSizeAppend(one, Filter(s[1..], q));
      }
    }
  }

  // ---------------------------------------------------------------- age-based cleanup

  /** A top-level entry the age cleanup takes away: a folder named below the
      cutoff (compared as strings) whose deletion succeeds. */
  predicate RemovedByAge(n: Node, cutoff: string) {
    n.Dir? && StrLt(n.name, cutoff) && n.deleteOk
  }

  predicate KeptByAge(cutoff: string, n: Node) {
    !RemovedByAge(n, cutoff)
  }

  /** `cleanup_old_recordings` with the cutoff date string as input. Folders
      are visited in name order, but since a failed deletion only skips that
      folder, the outcome is the same in any order: exactly the deletable
      folders below the cutoff disappear. */
  function CleanupOld(root: Root, cutoff: string): (r: Root)
    ensures root.Missing? ==> r == root
    ensures root.Present? ==> r.Present?
    ensures root.Present? ==> forall n :: n in r.entries <==> n in root.entries && !RemovedByAge(n, cutoff)
    ensures root.Present? ==> IsSubsequence(r.entries, root.entries)
  {
    match root
    case Missing => Missing
    case Present(entries) =>
      FilterIsSubsequence(entries, n => KeptByAge(cutoff, n));
      Present(Filter(entries, n => KeptByAge(cutoff, n)))
  }

  /** The total size shrinks by exactly the size of the removed folders. */
  lemma CleanupOldFrees(entries: seq<Node>, cutoff: string)
    ensures RecordingsSize(CleanupOld(Present(entries), cutoff))
         == NodesSize(entries) - NodesSize(Filter(entries, n => RemovedByAge(n, cutoff)))
  {
    var keep := (n: Node) => KeptByAge(cutoff, n);
    NodesSizeFilter(entries, keep);
    FilterSame(entries, n => !keep(n), n => RemovedByAge(n, cutoff));
  }

  /** For day folders named `YYYY-MM-DD` and a cutoff of the same form, the
      folders removed are exactly the deletable ones dated before the cutoff. */
  lemma CleanupOldByDate(n: Node, cutoff: string)
    requires n.Dir? && IsDateString(n.name) && IsDateString(cutoff)
    ensures RemovedByAge(n, cutoff) <==> Before(n.name, cutoff) && n.deleteOk
  {
    StringOrderIsChronological(n.name, cutoff);
  }

  // ---------------------------------------------------------------- low-disk cleanup

  predicate DeleteOk(n: Node) {
    n.Dir? && n.deleteOk
  }

  /** The deletable folders of a list, in order (`Filter(s, DeleteOk)`, see
      `DeletableIsFilter`). */
  function Deletable(s: seq<Node>): seq<Node>
    decreases |s|
  {
    if |s| == 0 then [] else (if DeleteOk(s[0]) then [s[0]] else []) + Deletable(s[1..])
  }

  lemma {:induction false} DeletableIsFilter(s: seq<Node>)
    ensures Deletable(s) == Filter(s, DeleteOk)
    decreases |s|
  {
    if |s| > 0 {
      DeletableIsFilter(s[1..]);
    }
  }

  /** What the emergency cleanup did: the folders deleted, the final free-space
      estimate, and how many folders of the sorted list it visited. */
  datatype Eviction = Eviction(deleted: seq<Node>, free: int, visited: nat)

  /** The greedy loop over folders in ascending name order: stop as soon as
      the estimate reaches the threshold; a successful deletion adds the
      folder's size to the estimate, a failed one adds nothing. */
  function Evict(dirs: seq<Node>, free: int, minFree: int): (e: Eviction)
    ensures e.visited <= |dirs|
    ensures e.deleted == Deletable(dirs[..e.visited])
    ensures e.free == free + NodesSize(e.deleted)
    ensures e.visited < |dirs| ==> e.free >= minFree
    decreases |dirs|
  {
    if |dirs| == 0 || free >= minFree then
      assert dirs[..0] == [];
      Eviction([], free, 0)
    else
      var d := dirs[0];
      var mine := if DeleteOk(d) then [d] else [];
      var rest := Evict(dirs[1..], free + NodesSize(mine), minFree);
      EvictStep(dirs, rest.visited);
      NodesSizeAppend(mine, rest.deleted);
      Eviction(mine + rest.deleted, rest.free, rest.visited + 1)
  }

  lemma EvictStep(dirs: seq<Node>, k: nat)
    requires 0 <= k < |dirs|
    ensures Deletable(dirs[..k + 1])
         == (if DeleteOk(dirs[0]) then [dirs[0]] else []) + Deletable(dirs[1..][..k])
  {
    assert dirs[..k + 1][1..] == dirs[1..][..k];
  }

  /** The loop did not stop early: before each visited folder the estimate
      was still below the threshold. */
  lemma {:induction false} EvictVisitedWhileLow(dirs: seq<Node>, free: int, minFree: int, k: nat)
    requires k < Evict(dirs, free, minFree).visited
    ensures free + NodesSize(Deletable(dirs[..k])) < minFree
    decreases |dirs|
  {
    assert |dirs| > 0 && free < minFree;
    var d := dirs[0];
    var mine := if DeleteOk(d) then [d] else [];
    var free2 := free + NodesSize(mine);
    var rest := Evict(dirs[1..], free2, minFree);
    assert Evict(dirs, free, minFree).visited == rest.visited + 1;
    if k == 0 {
      assert dirs[..0] == [];
    } else {
      EvictVisitedWhileLow(dirs[1..], free2, minFree, k - 1);
      var tail := Deletable(dirs[1..][..k - 1]);
      assert free2 + NodesSize(tail) < minFree;
      EvictStep(dirs, k - 1);
      NodesSizeAppend(mine, tail);
    }
  }

  /** The folders of the root in ascending name order, as the emergency
      cleanup visits them. */
  function SortedDirs(entries: seq<Node>): (dirs: seq<Node>)
    ensures SortedBy(dirs, NodeName)
    ensures multiset(dirs) == multiset(Filter(entries, IsDir))
  {
    SortBy(Filter(entries, IsDir), NodeName)
  }

  predicate NotIn(deleted: seq<Node>, n: Node) {
    n !in deleted
  }

  datatype LowDisk = LowDisk(root: Root, eviction: Eviction)

  /** `cleanup_if_disk_low` with integer byte counts: nothing without a root
      or with enough free space; otherwise the oldest-first greedy eviction,
      whose deleted folders leave the root. */
  function CleanupIfLow(root: Root, free: int, minFree: int): (r: LowDisk)
    ensures root.Missing? || free >= minFree ==> r == LowDisk(root, Eviction([], free, 0))
    ensures root.Present? && free < minFree ==>
              && r.root.Present?
              && r.eviction == Evict(SortedDirs(root.entries), free, minFree)
              && (forall n :: n in r.root.entries <==> n in root.entries && n !in r.eviction.deleted)
              && IsSubsequence(r.root.entries, root.entries)
    ensures root.Present? && free < minFree ==>
              var dirs := SortedDirs(root.entries);
              forall i, j :: 0 <= i < r.eviction.visited <= j < |dirs| ==>
                StrLe(dirs[i].name, dirs[j].name)
  {
    match root
    case Missing => LowDisk(root, Eviction([], free, 0))
    case Present(entries) =>
      if free >= minFree then LowDisk(root, Eviction([], free, 0))
      else
        var ev := Evict(SortedDirs(entries), free, minFree);
        FilterIsSubsequence(entries, n => NotIn(ev.deleted, n));
        LowDisk(Present(Filter(entries, n => NotIn(ev.deleted, n))), ev)
  }

  /** Every folder the eviction deletes is older (smaller name) than every
      folder it did not reach. */
  lemma EvictionIsOldestFirst(entries: seq<Node>, free: int, minFree: int)
    requires free < minFree
    ensures var dirs := SortedDirs(entries);
      var ev := CleanupIfLow(Present(entries), free, minFree).eviction;
      forall d, j :: d in ev.deleted && ev.visited <= j < |dirs| ==> StrLe(d.name, dirs[j].name)
  {
    var dirs := SortedDirs(entries);
    var ev := CleanupIfLow(Present(entries), free, minFree).eviction;
    assert ev == Evict(dirs, free, minFree);
    DeletedWereVisited(dirs, ev.visited);
    forall d, j | d in ev.deleted && ev.visited <= j < |dirs|
      ensures StrLe(d.name, dirs[j].name)
    {
      var i :| 0 <= i < ev.visited && dirs[i] == d;
    }
  }

  /** A folder deleted among the first `k` is one of the first `k`. */
  lemma DeletedWereVisited(dirs: seq<Node>, k: nat)
    requires k <= |dirs|
    ensures forall d :: d in Deletable(dirs[..k]) ==> exists i :: 0 <= i < k && dirs[i] == d
  {
    DeletableIsFilter(dirs[..k]);
    forall d | d in Deletable(dirs[..k]) ensures exists i :: 0 <= i < k && dirs[i] == d {
      assert d in dirs[..k];
      var i :| 0 <= i < k && dirs[..k][i] == d;
      assert dirs[i] == d;
    }
  }

  // ---------------------------------------------------------------- listings

  predicate IsDateDir(n: Node) {
    n.Dir? && |n.name| == 10
  }

  function Names(s: seq<Node>): (names: seq<string>)
    ensures |names| == |s|
    ensures forall i :: 0 <= i < |s| ==> names[i] == s[i].name
  {
    if |s| == 0 then [] else [s[0].name] + Names(s[1..])
  }

  function Text(s: string): string {
    s
  }

  /** Descending string order. */
  ghost predicate Descending(s: seq<string>) {
    forall i, j :: 0 <= i < j < |s| ==> StrLe(s[j], s[i])
  }

  /** `list_dates`: names of the folders whose name has 10 characters, in
      descending order; nothing without a root. */
  function ListDates(root: Root): (dates: seq<string>)
    ensures root.Missing? ==> dates == []
    ensures root.Present? ==> forall x :: x in dates <==> exists n :: n in root.entries && IsDateDir(n) && n.name == x
    ensures root.Present? ==> multiset(dates) == multiset(Names(Filter(root.entries, IsDateDir)))
    ensures Descending(dates)
  {
    match root
    case Missing => []
    case Present(entries) =>
      var names := Names(Filter(entries, IsDateDir));
      var sorted := SortBy(names, Text);
      ReverseMultiset(sorted);
      SameMembers(Reverse(sorted), names);
      DateNames(entries);
      ReverseDescending(sorted);
      Reverse(sorted)
  }

  lemma SameMembers<T>(a: seq<T>, b: seq<T>)
    requires multiset(a) == multiset(b)
    ensures forall x :: x in a <==> x in b
  {
    forall x ensures x in a <==> x in b {
      assert x in a <==> x in multiset(a);
      assert x in b <==> x in multiset(b);
    }
  }

  /** The names of the date folders are the names of the 10-character folders. */
  lemma DateNames(entries: seq<Node>)
    ensures forall x :: x in Names(Filter(entries, IsDateDir)) <==>
              exists n :: n in entries && IsDateDir(n) && n.name == x
  {
    var dirs := Filter(entries, IsDateDir);
    var names := Names(dirs);
    forall x ensures x in names <==> exists n :: n in entries && IsDateDir(n) && n.name == x {
      if x in names {
        var i :| 0 <= i < |names| && names[i] == x;
        assert dirs[i] in dirs;
      }
      if n :| n in entries && IsDateDir(n) && n.name == x {
        assert n in dirs;
        var i :| 0 <= i < |dirs| && dirs[i] == n;
        assert names[i] == x;
      }
    }
  }

  /** Reversing an ascending list gives a descending one. */
  lemma ReverseDescending(sorted: seq<string>)
    requires SortedBy(sorted, Text)
    ensures Descending(Reverse(sorted))
  {
    var r := Reverse(sorted);
    forall i, j | 0 <= i < j < |r| ensures StrLe(r[j], r[i]) {
      assert r[i] == sorted[|sorted| - 1 - i] && r[j] == sorted[|sorted| - 1 - j];
    }
  }

  /** When the folders are named `YYYY-MM-DD`, the newest day comes first. */
  lemma ListDatesNewestFirst(root: Root)
    requires root.Present?
    requires forall n :: n in root.entries && IsDateDir(n) ==> IsDateString(n.name)
    ensures var dates := ListDates(root);
      forall i, j :: 0 <= i < j < |dates| ==>
        IsDateString(dates[i]) && IsDateString(dates[j]) && !Before(dates[i], dates[j])
  {
    var dates := ListDates(root);
    forall x | x in dates ensures IsDateString(x) {
      var n :| n in root.entries && IsDateDir(n) && n.name == x;
    }
    DescendingDates(dates);
  }

  lemma DescendingDates(dates: seq<string>)
    requires Descending(dates)
    requires forall x :: x in dates ==> IsDateString(x)
    ensures forall i, j :: 0 <= i < j < |dates| ==>
      IsDateString(dates[i]) && IsDateString(dates[j]) && !Before(dates[i], dates[j])
  {
    forall i, j | 0 <= i < j < |dates| ensures !Before(dates[i], dates[j]) {
      assert dates[i] in dates && dates[j] in dates;
      NotBeforeOfLe(dates[i], dates[j]);
    }
  }

  lemma NotBeforeOfLe(a: string, b: string)
    requires IsDateString(a) && IsDateString(b)
    requires StrLe(b, a)
    ensures !Before(a, b)
  {
    StringOrderIsChronological(a, b);
    if StrLt(a, b) {
      StrLtAsymmetric(a, b);
      StrLtIrreflexive(a);
    }
  }

  /** Index of the last `c` in `s`, or -1 (`str.rfind`). */
  function LastIndexOf(s: string, c: char): (i: int)
    ensures -1 <= i < |s|
    ensures i >= 0 ==> s[i] == c
    ensures forall j :: i < j < |s| ==> s[j] != c
    decreases |s|
  {
    if |s| == 0 then -1
    else if s[|s| - 1] == c then |s| - 1
    else LastIndexOf(s[..|s| - 1], c)
  }

  /** `PurePath.suffix`: from the last '.' on, unless that dot starts or ends the name. */
  function Suffix(name: string): (suffix: string)
    ensures suffix == "" || (suffix[0] == '.' && IsSuffix(suffix, name) && |suffix| < |name|)
  {
    var i := LastIndexOf(name, '.');
    if 0 < i < |name| - 1 then name[i..] else ""
  }

  /** So a name counts as a segment file exactly when it ends in ".mp4" and
      has something before that. */
  lemma Mp4Suffix(name: string)
    ensures Suffix(name) == ".mp4" <==> |name| > 4 && IsSuffix(".mp4", name)
  {
    var i := LastIndexOf(name, '.');
    if |name| > 4 && IsSuffix(".mp4", name) {
      assert name[|name| - 4] == '.';
      assert forall j :: |name| - 4 < j < |name| ==> name[j] != '.' by {
        assert name[|name| - 4..] == ".mp4";
        forall j | |name| - 4 < j < |name| ensures name[j] != '.' {
          assert name[j] == name[|name| - 4..][j - (|name| - 4)];
        }
      }
      assert i == |name| - 4;
    }
    if Suffix(name) == ".mp4" {
      assert name[i..] == ".mp4";
    }
  }

  predicate IsMp4(n: Node) {
    Suffix(n.name) == ".mp4"
  }

  datatype FileInfo = FileInfo(name: string, size: nat)

  /** One camera folder of a day, as listed for playback. */
  datatype CameraListing = CameraListing(id: string, name: string, files: seq<FileInfo>)

  function FileInfos(s: seq<Node>): (infos: seq<FileInfo>)
    ensures |infos| == |s|
    ensures forall i :: 0 <= i < |s| ==> infos[i] == FileInfo(s[i].name, NodeSize(s[i]))
  {
    if |s| == 0 then [] else [FileInfo(s[0].name, NodeSize(s[0]))] + FileInfos(s[1..])
  }

  /** The display name of a camera folder: the configured camera's name when
      one has that id, else the folder name. */
  function DisplayName(config: AppConfig, folder: string): (name: string)
    ensures GetCamera(config, folder).Some? ==> name == GetCamera(config, folder).value.name
    ensures GetCamera(config, folder).None? ==> name == folder
  {
    match GetCamera(config, folder)
    case Some(c) => c.name
    case None => folder
  }

  /** The entries of a folder; a file has none. */
  function Children(n: Node): seq<Node> {
    if n.Dir? then n.children else []
  }

  /** The listing for one camera folder: its ".mp4" entries in name order. */
  function ListCamera(config: AppConfig, camDir: Node): (l: CameraListing)
    ensures l.id == camDir.name && l.name == DisplayName(config, camDir.name)
    ensures camDir.Dir? ==> l.files == FileInfos(Filter(SortBy(camDir.children, NodeName), IsMp4))
    ensures forall k :: 0 <= k < |l.files| ==> IsSuffix(".mp4", l.files[k].name)
  {
    var files := Filter(SortBy(Children(camDir), NodeName), IsMp4);
    forall k | 0 <= k < |files| ensures IsSuffix(".mp4", files[k].name) {
      Mp4Suffix(files[k].name);
    }
    CameraListing(camDir.name, DisplayName(config, camDir.name), FileInfos(files))
  }

  function ListCameras(config: AppConfig, camDirs: seq<Node>): (ls: seq<CameraListing>)
    ensures |ls| == |camDirs|
    ensures forall i :: 0 <= i < |camDirs| ==> ls[i] == ListCamera(config, camDirs[i])
  {
    if |camDirs| == 0 then []
    else
      var rest := ListCameras(config, camDirs[1..]);
      [ListCamera(config, camDirs[0])] + rest
  }

  /** Index of the first entry called `name`, or `|s|`. */
  function FindNode(s: seq<Node>, name: string): (i: nat)
    ensures i <= |s|
    ensures i < |s| ==> s[i].name == name
    ensures forall j :: 0 <= j < i ==> s[j].name != name
    decreases |s|
  {
    if |s| == 0 then 0 else if s[0].name == name then 0 else 1 + FindNode(s[1..], name)
  }

  /** `list_cameras_for_date` for a date naming one top-level entry: no entry
      (or no root) gives an empty list; an entry that is a file makes listing
      its contents fail (None); a day folder gives its camera folders in name
      order. */
  function ListCamerasForDate(root: Root, date: string, config: AppConfig): (r: Option<seq<CameraListing>>)
    ensures root.Missing? ==> r == Some([])
    ensures root.Present? && FindNode(root.entries, date) == |root.entries| ==> r == Some([])
    ensures root.Present? && FindNode(root.entries, date) < |root.entries| ==>
              (r.None? <==> root.entries[FindNode(root.entries, date)].File?)
    ensures r.Some? && root.Present? && FindNode(root.entries, date) < |root.entries| ==>
              var day := root.entries[FindNode(root.entries, date)];
              var camDirs := Filter(SortBy(day.children, NodeName), IsDir);
              |r.value| == |camDirs| &&
              forall i :: 0 <= i < |camDirs| ==> r.value[i] == ListCamera(config, camDirs[i])
  {
    match root
    case Missing => Some([])
    case Present(entries) =>
      var i := FindNode(entries, date);
      if i == |entries| then Some([])
      else match entries[i]
        case File(_, _) => None
        case Dir(_, children, _) =>
          var camDirs := Filter(SortBy(children, NodeName), IsDir);
          Some(ListCameras(config, camDirs))
  }

  /** Listing camera folders in sorted order and keeping only folders is the
      same as keeping only folders and sorting them. */
  lemma CameraFoldersSortedEitherWay(children: seq<Node>)
    ensures Filter(SortBy(children, NodeName), IsDir) == SortBy(Filter(children, IsDir), NodeName)
  {
    FilterSortBy(children, NodeName, IsDir);
  }
}
