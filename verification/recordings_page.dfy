/** The recordings page of the browser: day and time labels, and which
    camera cards are shown. */
module RecordingsPage {
  import opened Strings
  import opened Ordering
  import opened IsoDate
  import opened Storage

  /** A field of an array destructuring; a missing one renders as "undefined". */
  function FieldOr(parts: seq<string>, k: nat): string {
    if k < |parts| then parts[k] else "undefined"
  }

  /** `formatDate`: the first three '-'-separated fields, in reverse order
      joined by '/'. */
  function FormatDate(d: string): string {
    var parts := Split(d, '-');
    FieldOr(parts, 2) + "/" + FieldOr(parts, 1) + "/" + FieldOr(parts, 0)
  }

  /** For `YYYY-MM-DD` the label is `DD/MM/YYYY`. */
  lemma FormatDateOfDay(d: string)
    requires IsDateString(d)
    ensures FormatDate(d) == d[8..10] + "/" + d[5..7] + "/" + d[0..4]
  {
    var y, m, day := d[0..4], d[5..7], d[8..10];
    assert d == y + ['-'] + m + ['-'] + day;
    assert '-' !in y && '-' !in m && '-' !in day by {
      assert forall i :: 0 <= i < 4 ==> IsDigit(y[i]);
      assert forall i :: 0 <= i < 2 ==> IsDigit(m[i]) && IsDigit(day[i]);
    }
    SplitThree(y, m, day, '-');
  }

  /** Text without '-' has no month or day: both render as "undefined". */
  lemma FormatDateWithoutDashes(d: string)
    requires '-' !in d
    ensures FormatDate(d) == "undefined/undefined/" + d
  {
    SplitNoSeparator(d, '-');
  }

  // ---------------------------------------------------------------- time labels

  /** `rec_` followed by `\d\d-\d\d-\d\d` starts at `i`. */
  predicate MatchAt(s: string, i: nat) {
    && i + 12 <= |s|
    && s[i..i + 4] == "rec_"
    && IsDigit(s[i + 4]) && IsDigit(s[i + 5]) && s[i + 6] == '-'
    && IsDigit(s[i + 7]) && IsDigit(s[i + 8]) && s[i + 9] == '-'
    && IsDigit(s[i + 10]) && IsDigit(s[i + 11])
  }

  /** Leftmost match at or after `from`, or the length when there is none. */
  function FirstMatch(s: string, from: nat): (i: nat)
    requires from <= |s|
    ensures from <= i <= |s|
    ensures i < |s| ==> MatchAt(s, i)
    ensures forall j :: from <= j < i ==> !MatchAt(s, j)
    ensures i == |s| ==> forall j :: from <= j ==> !MatchAt(s, j)
    decreases |s| - from
  {
    if from == |s| then |s|
    else if MatchAt(s, from) then from
    else FirstMatch(s, from + 1)
  }

  /** `formatTime`: the three digit pairs of the leftmost match joined by ':',
      or the file name unchanged when nothing matches. */
  function FormatTime(filename: string): (r: string)
    ensures (forall j :: !MatchAt(filename, j)) ==> r == filename
    ensures var i := FirstMatch(filename, 0);
      i < |filename| ==>
        && |r| == 8 && r[2] == ':' && r[5] == ':'
        && r[..2] == filename[i + 4..i + 6]
        && r[3..5] == filename[i + 7..i + 9]
        && r[6..] == filename[i + 10..i + 12]
  {
    var i := FirstMatch(filename, 0);
    if i == |filename| then filename
    else filename[i + 4..i + 6] + ":" + filename[i + 7..i + 9] + ":" + filename[i + 10..i + 12]
  }

  /** Two decimal digits, zero-padded (`%H`, `%M`, `%S`). */
  function TwoDigits(n: nat): (s: string)
    requires n < 100
    ensures |s| == 2 && IsDigit(s[0]) && IsDigit(s[1])
  {
    [DigitChar(n / 10), DigitChar(n % 10)]
  }

  /** The segment name the recorder gives a segment started at h:m:s. */
  function SegmentName(h: nat, m: nat, s: nat): string
    requires h < 24 && m < 60 && s < 60
  {
    "rec_" + TwoDigits(h) + "-" + TwoDigits(m) + "-" + TwoDigits(s) + ".mp4"
  }

  /** The label of a segment the recorder wrote is its start time. */
  lemma FormatTimeOfSegment(h: nat, m: nat, s: nat)
    requires h < 24 && m < 60 && s < 60
    ensures FormatTime(SegmentName(h, m, s)) == TwoDigits(h) + ":" + TwoDigits(m) + ":" + TwoDigits(s)
  {
    var name := SegmentName(h, m, s);
    assert name[0..4] == "rec_";
    assert MatchAt(name, 0);
    assert FirstMatch(name, 0) == 0;
    assert name[4..6] == TwoDigits(h) && name[7..9] == TwoDigits(m) && name[10..12] == TwoDigits(s);
  }

  // ---------------------------------------------------------------- file list

  datatype View = EmptyState | Cards(cameras: seq<CameraListing>)

  function WithId(id: string): CameraListing -> bool {
    (c: CameraListing) => c.id == id
  }

  predicate NoFiles(c: CameraListing) {
    |c.files| == 0
  }

  /** `renderFiles`: with no camera selected every card is shown, otherwise
      only cards with the selected id; the empty state replaces them when
      there is no card or none has a file. */
  function RenderFiles(filter: string, cameras: seq<CameraListing>): (v: View)
    ensures filter == "" && v.Cards? ==> v.cameras == cameras
    ensures filter != "" && v.Cards? ==> v.cameras == Filter(cameras, WithId(filter))
    ensures v.Cards? ==> |v.cameras| > 0 && exists i :: 0 <= i < |v.cameras| && |v.cameras[i].files| > 0
  {
    var shown := if filter != "" then Filter(cameras, WithId(filter)) else cameras;
    if |shown| == 0 || forall c :: c in shown ==> NoFiles(c) then EmptyState
    else Cards(shown)
  }

  /** The empty state shows exactly when no card that passes the filter has a file. */
  lemma EmptyStateExactly(filter: string, cameras: seq<CameraListing>)
    ensures RenderFiles(filter, cameras).EmptyState? <==>
              forall c :: c in cameras && (filter == "" || c.id == filter) ==> |c.files| == 0
  {
    var shown := if filter != "" then Filter(cameras, WithId(filter)) else cameras;
    assert forall c :: c in shown <==> c in cameras && (filter == "" || c.id == filter) by {
      if filter != "" {
        forall c ensures c in shown <==> c in cameras && c.id == filter {
          assert WithId(filter)(c) <==> c.id == filter;
        }
      }
    }
    assert RenderFiles(filter, cameras).EmptyState? <==> forall c :: c in shown ==> NoFiles(c);
  }
}
