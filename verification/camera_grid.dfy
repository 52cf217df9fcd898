/** The browser's camera grid: the saved display order, drag-and-drop
    reordering, stepping through cameras in full screen, and the status badge.
    The saved order (kept by the browser) and the ids of the cards on screen
    are inputs. */
module CameraGrid {
  import opened Wrappers
  import opened Ordering
  import opened Models

  /** `indexOf`, with the length standing for -1. */
  function IndexOf<T(==)>(s: seq<T>, x: T): (i: nat)
    ensures i <= |s|
    ensures i < |s| ==> s[i] == x
    ensures forall j :: 0 <= j < i ==> s[j] != x
    ensures i == |s| <==> x !in s
    decreases |s|
  {
    if |s| == 0 then 0
    else if s[0] == x then 0
    else IndexOf(s[1..], x) + 1
  }

  // ---------------------------------------------------------------- saved order

  /** Position of the camera in the saved order; every unlisted camera gets
      the same rank, after all listed ones, as the comparator treats -1. */
  function Rank(order: seq<string>, c: CameraModel): nat {
    IndexOf(order, c.id)
  }

  ghost predicate SortedByKey<T>(s: seq<T>, key: T -> nat) {
    forall i, j :: 0 <= i < j < |s| ==> key(s[i]) <= key(s[j])
  }

  lemma TailSortedByKey<T>(s: seq<T>, key: T -> nat)
    requires |s| > 0 && SortedByKey(s, key)
    ensures SortedByKey(s[1..], key)
  {
    forall i, j | 0 <= i < j < |s| - 1 ensures key(s[1..][i]) <= key(s[1..][j]) {
      assert s[1..][i] == s[i + 1] && s[1..][j] == s[j + 1];
    }
  }

  /** An element with a key no larger than every key may go in front. */
  lemma ConsSortedByKey<T>(x: T, s: seq<T>, key: T -> nat)
    requires SortedByKey(s, key)
    requires forall j :: 0 <= j < |s| ==> key(x) <= key(s[j])
    ensures SortedByKey([x] + s, key)
  {
    var r := [x] + s;
    forall i, j | 0 <= i < j < |r| ensures key(r[i]) <= key(r[j]) {
      assert r[j] == s[j - 1];
      if i > 0 { assert r[i] == s[i - 1]; }
    }
  }

  lemma KeyBelowInserted<T>(x: T, s: seq<T>, t: seq<T>, key: T -> nat)
    requires |s| > 0 && SortedByKey(s, key) && key(s[0]) < key(x)
    requires multiset(t) == multiset(s[1..]) + multiset{x}
    ensures forall j :: 0 <= j < |t| ==> key(s[0]) <= key(t[j])
  {
    forall j | 0 <= j < |t| ensures key(s[0]) <= key(t[j]) {
      assert t[j] in multiset(t);
      if t[j] != x {
        assert t[j] in multiset(s[1..]);
        var k :| 0 <= k < |s| - 1 && s[1..][k] == t[j];
        assert s[k + 1] == t[j];
      }
    }
  }

  /** Insert in front of the first element whose key is not smaller, so that
      among equal keys the inserted element comes first. */
  function InsertByKey<T>(x: T, s: seq<T>, key: T -> nat): (r: seq<T>)
    ensures |r| == |s| + 1
    decreases |s|
  {
    if |s| == 0 then [x]
    else if key(x) <= key(s[0]) then [x] + s
    else [s[0]] + InsertByKey(x, s[1..], key)
  }

  /** Inserting into a sorted list adds exactly the element and keeps it sorted. */
  lemma {:induction false} InsertByKeySorted<T>(x: T, s: seq<T>, key: T -> nat)
    requires SortedByKey(s, key)
    ensures multiset(InsertByKey(x, s, key)) == multiset(s) + multiset{x}
    ensures SortedByKey(InsertByKey(x, s, key), key)
    decreases |s|
  {
    if |s| > 0 {
      if key(x) <= key(s[0]) {
        ConsSortedByKey(x, s, key);
      } else {
        TailSortedByKey(s, key);
        InsertByKeySorted(x, s[1..], key);
        var t := InsertByKey(x, s[1..], key);
        assert s == [s[0]] + s[1..];
        KeyBelowInserted(x, s, t, key);
        ConsSortedByKey(s[0], t, key);
      }
    }
  }

  /** A stable sort by key (insertion sort; `Array.prototype.sort` is stable). */
  function SortByKey<T>(s: seq<T>, key: T -> nat): (r: seq<T>)
    ensures |r| == |s|
    ensures multiset(r) == multiset(s)
    ensures SortedByKey(r, key)
    decreases |s|
  {
    if |s| == 0 then []
    else
      assert s == [s[0]] + s[1..];
      var t := SortByKey(s[1..], key);
      InsertByKeySorted(s[0], t, key);
      InsertByKey(s[0], t, key)
  }

  function RankIn(order: seq<string>): CameraModel -> nat {
    c => Rank(order, c)
  }

  /** `sortCamerasByOrder`: unchanged for an empty saved order; otherwise a
      rearrangement in which listed cameras come first, in listed order, and
      unlisted ones after them. */
  function SortCamerasByOrder(cameras: seq<CameraModel>, order: seq<string>): (r: seq<CameraModel>)
    ensures |order| == 0 ==> r == cameras
    ensures multiset(r) == multiset(cameras)
    ensures forall i, j :: 0 <= i < j < |r| && r[j].id in order ==>
              r[i].id in order && IndexOf(order, r[i].id) <= IndexOf(order, r[j].id)
  {
    if |order| == 0 then cameras
    else
      var r := SortByKey(cameras, RankIn(order));
      assert forall i :: 0 <= i < |r| ==> RankIn(order)(r[i]) == IndexOf(order, r[i].id);
      r
  }

  /** Holds of the elements whose key is `k`. */
  function WithKey<T>(key: T -> nat, k: nat): T -> bool {
    y => key(y) == k
  }

  /** Inserting `x` puts it in front of the elements of its own key, and
      leaves the elements of any key in their order. */
  lemma {:induction false} FilterInsertByKey<T>(x: T, s: seq<T>, key: T -> nat, k: nat)
    ensures Filter(InsertByKey(x, s, key), WithKey(key, k))
         == (if key(x) == k then [x] else []) + Filter(s, WithKey(key, k))
    decreases |s|
  {
    var p := WithKey(key, k);
    if |s| > 0 && key(x) > key(s[0]) {
      FilterInsertByKey(x, s[1..], key, k);
      assert s == [s[0]] + s[1..];
      FilterPassOver(s[0], x, InsertByKey(x, s[1..], key), s[1..], p);
    } else {
      FilterCons(x, s, p);
    }
  }

  /** Passing over an element `a` that does not share the filter with `x`
      keeps `x` where the filter puts it. */
  lemma FilterPassOver<T>(a: T, x: T, t: seq<T>, rest: seq<T>, p: T -> bool)
    requires !(p(a) && p(x))
    requires Filter(t, p) == (if p(x) then [x] else []) + Filter(rest, p)
    ensures Filter([a] + t, p) == (if p(x) then [x] else []) + Filter([a] + rest, p)
  {
    FilterCons(a, t, p);
    FilterCons(a, rest, p);
  }

  /** The sort is stable: elements of equal key keep their input order. */
  lemma {:induction false} SortByKeyStable<T>(s: seq<T>, key: T -> nat, k: nat)
    ensures Filter(SortByKey(s, key), WithKey(key, k)) == Filter(s, WithKey(key, k))
    decreases |s|
  {
    if |s| > 0 {
      SortByKeyStable(s[1..], key, k);
      FilterInsertByKey(s[0], SortByKey(s[1..], key), key, k);
      FilterCons(s[0], s[1..], WithKey(key, k));
      assert s == [s[0]] + s[1..];
    }
  }

  /** So cameras of equal rank, in particular all unlisted ones, keep their
      relative order from the input. */
  lemma SortKeepsEqualRanksInOrder(cameras: seq<CameraModel>, order: seq<string>, k: nat)
    ensures Filter(SortCamerasByOrder(cameras, order), (c: CameraModel) => Rank(order, c) == k)
         == Filter(cameras, (c: CameraModel) => Rank(order, c) == k)
  {
    if |order| > 0 {
      SortByKeyStable(cameras, RankIn(order), k);
      FilterSame(cameras, WithKey(RankIn(order), k), (c: CameraModel) => Rank(order, c) == k);
      FilterSame(SortByKey(cameras, RankIn(order)), WithKey(RankIn(order), k), (c: CameraModel) => Rank(order, c) == k);
    }
  }

  // ---------------------------------------------------------------- drag and drop

  /** `splice(from, 1)` followed by `splice(to, 0, s[from])`. */
  function Move<T>(s: seq<T>, from: nat, to: nat): (r: seq<T>)
    requires from < |s| && to < |s|
    ensures |r| == |s|
    ensures r[to] == s[from]
    ensures r[..to] + r[to + 1..] == s[..from] + s[from + 1..]
  {
    var rest := s[..from] + s[from + 1..];
    rest[..to] + [s[from]] + rest[to..]
  }

  lemma MovePermutes<T>(s: seq<T>, from: nat, to: nat)
    requires from < |s| && to < |s|
    ensures multiset(Move(s, from, to)) == multiset(s)
  {
    var rest := s[..from] + s[from + 1..];
    assert rest[..to] + rest[to..] == rest;
    assert s == s[..from] + [s[from]] + s[from + 1..];
    calc {
      multiset(Move(s, from, to));
      multiset(rest[..to] + [s[from]] + rest[to..]);
      multiset(rest[..to]) + multiset{s[from]} + multiset(rest[to..]);
      multiset(rest[..to] + rest[to..]) + multiset{s[from]};
      multiset(rest) + multiset{s[from]};
      multiset(s[..from]) + multiset(s[from + 1..]) + multiset{s[from]};
      multiset(s);
    }
  }

  /** Moving the element back to where it came from restores the list. */
  lemma MoveBack<T>(s: seq<T>, from: nat, to: nat)
    requires from < |s| && to < |s|
    ensures Move(Move(s, from, to), to, from) == s
  {
    var r := Move(s, from, to);
    var rest := r[..to] + r[to + 1..];
    assert rest == s[..from] + s[from + 1..];
    assert rest[..from] == s[..from];
    assert rest[from..] == s[from + 1..];
    assert s == s[..from] + [s[from]] + s[from + 1..];
  }

  /** `onCamDrop` on the ids of the cards in grid order: nothing is saved
      without a dragged card, for a drop onto itself, or when either id is not
      on screen; otherwise the dragged id is moved to the target's index and
      the new id list is saved. */
  function OnCamDrop(dragged: Option<string>, target: string, ids: seq<string>): (saved: Option<seq<string>>)
    ensures saved.None? <==>
              dragged.None? || dragged.value == "" || dragged.value == target
              || dragged.value !in ids || target !in ids
    ensures saved.Some? ==>
              && |saved.value| == |ids|
              && multiset(saved.value) == multiset(ids)
              && saved.value[IndexOf(ids, target)] == dragged.value
  {
    if dragged.None? || dragged.value == "" || dragged.value == target then None
    else
      var from := IndexOf(ids, dragged.value);
      var to := IndexOf(ids, target);
      if from == |ids| || to == |ids| then None
      else
        MovePermutes(ids, from, to);
        Some(Move(ids, from, to))
  }

  /** Apart from the dragged id, the saved list keeps the other ids in their
      old order. */
  lemma DropKeepsOthersInOrder(dragged: string, target: string, ids: seq<string>)
    requires OnCamDrop(Some(dragged), target, ids).Some?
    ensures var saved := OnCamDrop(Some(dragged), target, ids).value;
      var from := IndexOf(ids, dragged);
      var to := IndexOf(ids, target);
      saved[..to] + saved[to + 1..] == ids[..from] + ids[from + 1..]
  {
  }

  // ---------------------------------------------------------------- full screen

  /** JavaScript's `%` for a positive divisor: the remainder takes the sign
      of the dividend. */
  function JsRem(a: int, b: int): (r: int)
    requires b > 0
    ensures a >= 0 ==> 0 <= r < b
    ensures a < 0 ==> -b < r <= 0
  {
    if a >= 0 then a % b else -((-a) % b)
  }

  /** `fsNavigate`: with at most one camera the index stays; otherwise it
      becomes `(index + direction + n) % n`. */
  function FsNavigate(index: int, direction: int, n: nat): (r: int)
    ensures n <= 1 ==> r == index
    ensures n > 1 && 0 <= index + direction + n ==> 0 <= r < n
  {
    if n <= 1 then index else JsRem(index + direction + n, n)
  }

  /** From a valid index a step forward goes to the next camera, wrapping
      from the last to the first, and a step back to the previous one,
      wrapping from the first to the last. */
  lemma NavigateWraps(index: int, n: nat)
    requires n > 1 && 0 <= index < n
    ensures FsNavigate(index, 1, n) == (if index == n - 1 then 0 else index + 1)
    ensures FsNavigate(index, -1, n) == (if index == 0 then n - 1 else index - 1)
  {
    assert FsNavigate(index, 1, n) == (index + 1 + n) % n;
    assert FsNavigate(index, -1, n) == (index - 1 + n) % n;
    if index == n - 1 { ModDouble(n); } else { ModUp(index + 1 + n, n); }
    if index == 0 { ModSame(index - 1 + n, n); } else { ModUp(index - 1 + n, n); }
  }

  lemma ModUp(x: int, n: int)
    requires 0 < n <= x < 2 * n
    ensures x % n == x - n
  {
  }

  lemma ModDouble(n: int)
    requires 0 < n
    ensures (2 * n) % n == 0
  {
    ModUp(2 * n - 1, n);
  }

  lemma ModSame(x: int, n: int)
    requires 0 <= x < n
    ensures x % n == x
  {
  }

  /** One step forward and one back return to the same camera, either way round. */
  lemma NavigateForthAndBack(index: int, n: nat)
    requires n > 1 && 0 <= index < n
    ensures FsNavigate(FsNavigate(index, 1, n), -1, n) == index
    ensures FsNavigate(FsNavigate(index, -1, n), 1, n) == index
  {
    NavigateWraps(index, n);
    NavigateWraps(FsNavigate(index, 1, n), n);
    NavigateWraps(FsNavigate(index, -1, n), n);
  }

  // ---------------------------------------------------------------- badge

  const RecordingBadge := "<span class=\"badge badge-recording\">Gravando</span>"
  const OnlineBadge := "<span class=\"badge badge-online\">Online</span>"
  const OfflineBadge := "<span class=\"badge badge-offline\">Offline</span>"
  const ErrorBadge := "<span class=\"badge badge-error\">Erro</span>"

  function Badge(s: CameraStatus): string {
    match s
    case Recording => RecordingBadge
    case Online => OnlineBadge
    case Offline => OfflineBadge
    case Error => ErrorBadge
  }

  /** `statusBadgeHtml` (and the identical `statusBadge` of the discovery
      page): the badge of the status the text names, the offline badge for
      any other text. */
  function StatusBadgeHtml(status: string): (html: string)
    ensures StatusFromValue(status).Some? ==> html == Badge(StatusFromValue(status).value)
    ensures StatusFromValue(status).None? ==> html == OfflineBadge
  {
    if status == "recording" then RecordingBadge
    else if status == "online" then OnlineBadge
    else if status == "offline" then OfflineBadge
    else if status == "error" then ErrorBadge
    else OfflineBadge
  }

  /** Each status shows its own badge, and different statuses show different ones. */
  lemma BadgeOfStatus(s: CameraStatus, t: CameraStatus)
    ensures StatusBadgeHtml(StatusValue(s)) == Badge(s)
    ensures s != t ==> Badge(s) != Badge(t)
  {
    StatusValueRoundTrip(s);
    assert RecordingBadge[25] == 'r' && OnlineBadge[25] == 'o' && OfflineBadge[25] == 'o' && ErrorBadge[25] == 'e';
    assert OnlineBadge[26] == 'n' && OfflineBadge[26] == 'f';
  }
}
