/**
 * Choosing the file to stream from a torrent's file list, as frontend/app.js
 * does it: the scan for the largest video in `selectLargestVideoFile` and
 * `handleTorrentFiles`, the fallback to the largest file overall, the
 * priority change that deselects every other file, and the in-place sort by
 * descending size that `displayTorrentInfo` applies before the scan on the
 * `ready` path.
 */
module FileSelection {
  import opened Wrappers
  import opened Seqs
  import MediaClassifier

  /**
   * A torrent file: its path inside the torrent (which tells the file
   * objects of one torrent apart), its name, its length in bytes and whether
   * the page last called `select()` (rather than `deselect()`) on it. The
   * selection the engine makes for the whole torrent when it is added is not
   * part of this flag.
   */
  datatype MediaFile = MediaFile(path: string, name: string, length: nat, selected: bool)

  /** No two files of the list share a path, as within one torrent. */
  ghost predicate DistinctPaths(files: seq<MediaFile>) {
    forall a, b :: 0 <= a < b < |files| ==> files[a].path != files[b].path
  }

  predicate IsVideoFile(f: MediaFile) {
    MediaClassifier.IsVideo(f.name)
  }

  /**
   * `i` is the file the video scan settles on: a non-empty video no other
   * video outgrows, with every earlier video strictly smaller (the scan only
   * replaces its pick on a strictly larger length, starting from 0).
   */
  ghost predicate IsVideoPick(files: seq<MediaFile>, i: int) {
    && 0 <= i < |files|
    && IsVideoFile(files[i])
    && files[i].length > 0
    && (forall j :: 0 <= j < |files| && IsVideoFile(files[j]) ==> files[j].length <= files[i].length)
    && (forall j :: 0 <= j < i && IsVideoFile(files[j]) ==> files[j].length < files[i].length)
  }

  /** Some video in the list has a non-zero length. */
  ghost predicate HasPlayableVideo(files: seq<MediaFile>) {
    exists i :: 0 <= i < |files| && IsVideoFile(files[i]) && files[i].length > 0
  }

  /** `i` is the first of the longest files among the first `k`. */
  ghost predicate IsFirstLargestIn(files: seq<MediaFile>, k: int, i: int) {
    && 0 <= i < k <= |files|
    && (forall j :: 0 <= j < k ==> files[j].length <= files[i].length)
    && (forall j :: 0 <= j < i ==> files[j].length < files[i].length)
  }

  /** The loop of `handleTorrentFiles` (and the `forEach` of `selectLargestVideoFile`). */
  method LargestVideo(files: seq<MediaFile>) returns (pick: Option<nat>)
    ensures pick.Some? <==> HasPlayableVideo(files)
    ensures pick.Some? ==> IsVideoPick(files, pick.value)
  {
    pick := None;
    var largestSize: nat := 0;
    var i := 0;
    while i < |files|
      invariant 0 <= i <= |files|
      invariant pick.None? ==> largestSize == 0
      invariant pick.None? <==> !exists j :: 0 <= j < i && IsVideoFile(files[j]) && files[j].length > 0
      invariant pick.Some? ==> pick.value < i && largestSize == files[pick.value].length
      invariant pick.Some? ==> IsVideoFile(files[pick.value]) && largestSize > 0
      invariant forall j :: 0 <= j < i && IsVideoFile(files[j]) ==> files[j].length <= largestSize
      invariant pick.Some? ==> forall j :: 0 <= j < pick.value && IsVideoFile(files[j]) ==> files[j].length < largestSize
    {
      var file := files[i];
      if IsVideoFile(file) && file.length > largestSize {
        pick := Some(i);
        largestSize := file.length;
      }
      i := i + 1;
    }
  }

  /**
   * The `reduce` fallback of `handleTorrentFiles`, from the file at `k` on:
   * an empty accumulator or a strictly longer file replaces the pick.
   */
  function ReduceLargest(files: seq<MediaFile>, k: nat, largest: Option<nat>): (r: Option<nat>)
    requires k <= |files|
    requires largest.None? <==> k == 0
    requires largest.Some? ==> IsFirstLargestIn(files, k, largest.value)
    ensures r.None? <==> files == []
    ensures r.Some? ==> IsFirstLargestIn(files, |files|, r.value)
    decreases |files| - k
  {
    if k == |files| then largest
    else
      var file := files[k];
      var next := if largest.None? || file.length > files[largest.value].length then Some(k) else largest;
      ReduceLargest(files, k + 1, next)
  }

  /** The scan's answer is determined by the list: at most one index qualifies. */
  lemma VideoPickUnique(files: seq<MediaFile>, i: int, j: int)
    requires IsVideoPick(files, i) && IsVideoPick(files, j)
    ensures i == j
  {
  }

  lemma FirstLargestUnique(files: seq<MediaFile>, k: int, i: int, j: int)
    requires IsFirstLargestIn(files, k, i) && IsFirstLargestIn(files, k, j)
    ensures i == j
  {
    assert files[i].length == files[j].length;
  }

  /** Whether a file may be chosen does not depend on its selection flag. */
  predicate SameFile(a: MediaFile, b: MediaFile) {
    a.path == b.path && a.name == b.name && a.length == b.length
  }

  /**
   * The priority change of `handleTorrentFiles`: every file other than
   * `target` is deselected, and `target` is selected.
   */
  function Prioritize(files: seq<MediaFile>, target: nat): (r: seq<MediaFile>)
    requires target < |files|
    ensures |r| == |files|
    ensures forall i :: 0 <= i < |r| ==> SameFile(r[i], files[i])
    ensures forall i :: 0 <= i < |r| ==> (r[i].selected <==> i == target)
  {
    seq(|files|, i requires 0 <= i < |files| => files[i].(selected := i == target))
  }

  /** Prioritizing again for the same target changes nothing; a later target overrides an earlier one. */
  lemma PrioritizeIdempotent(files: seq<MediaFile>, a: nat, b: nat)
    requires a < |files| && b < |files|
    ensures Prioritize(Prioritize(files, a), a) == Prioritize(files, a)
    ensures Prioritize(Prioritize(files, a), b) == Prioritize(files, b)
  {
  }

  /**
   * `handleTorrentFiles`: the largest non-empty video, else the first largest
   * file, becomes the only selected file; an empty list changes nothing.
   */
  method HandleTorrentFiles(files: seq<MediaFile>) returns (target: Option<nat>, result: seq<MediaFile>)
    ensures target.None? <==> files == []
    ensures HasPlayableVideo(files) ==> target.Some? && IsVideoPick(files, target.value)
    ensures !HasPlayableVideo(files) && target.Some? ==> IsFirstLargestIn(files, |files|, target.value)
    ensures target.None? ==> result == files
    ensures target.Some? ==> target.value < |files| && result == Prioritize(files, target.value)
  {
    target := LargestVideo(files);
    if target.None? {
      target := ReduceLargest(files, 0, None);
    }
    if target.Some? {
      result := Prioritize(files, target.value);
    } else {
      result := files;
    }
  }

  /** What `selectLargestVideoFile` ends with. */
  datatype Selection = Silent | NoVideo | AutoSelect(index: nat)

  /**
   * `selectLargestVideoFile`: nothing for a missing or empty file list, a
   * notice when no video has content, otherwise the scan's pick is displayed.
   */
  method SelectLargestVideoFile(files: Option<seq<MediaFile>>) returns (outcome: Selection)
    ensures outcome.Silent? <==> files.None? || files.value == []
    ensures outcome.AutoSelect? <==> files.Some? && HasPlayableVideo(files.value)
    ensures outcome.AutoSelect? ==> IsVideoPick(files.value, outcome.index)
  {
    if files.None? || |files.value| == 0 {
      return Silent;
    }
    var pick := LargestVideo(files.value);
    if pick.Some? {
      outcome := AutoSelect(pick.value);
    } else {
      outcome := NoVideo;
    }
  }

  /** Puts `x` in front of the first file that is not longer, keeping the order of equals. */
  function Insert(x: MediaFile, s: seq<MediaFile>): (r: seq<MediaFile>)
    ensures multiset(r) == multiset(s) + multiset{x}
    ensures |r| == |s| + 1
    ensures forall y :: y in r <==> y == x || y in s
  {
    if s == [] || s[0].length <= x.length then [x] + s
    else
      assert s == [s[0]] + s[1..];
      [s[0]] + Insert(x, s[1..])
  }

  predicate SortedBySizeDesc(s: seq<MediaFile>) {
    forall i, j :: 0 <= i < j < |s| ==> s[i].length >= s[j].length
  }

  lemma {:induction false} InsertSorted(x: MediaFile, s: seq<MediaFile>)
    requires SortedBySizeDesc(s)
    ensures SortedBySizeDesc(Insert(x, s))
  {
    if s != [] && s[0].length > x.length {
      InsertSorted(x, s[1..]);
      var r := Insert(x, s[1..]);
      assert Insert(x, s) == [s[0]] + r;
      forall k | 0 <= k < |r| ensures s[0].length >= r[k].length {
        assert r[k] in r;
        if r[k] != x {
          var j :| 0 <= j < |s[1..]| && s[1..][j] == r[k];
          assert s[j + 1] == r[k];
        }
      }
    }
  }

  /**
   * The in-place sort of `displayTorrentInfo` with comparator
   * `b.length - a.length`; `Array.prototype.sort` is stable, which this
   * insertion sort reproduces.
   */
  function SortBySizeDesc(s: seq<MediaFile>): (r: seq<MediaFile>)
    ensures |r| == |s|
  {
    if s == [] then [] else Insert(s[0], SortBySizeDesc(s[1..]))
  }

  /** The sort keeps every file, as often as it occurs. */
  lemma {:induction false} SortPermutes(s: seq<MediaFile>)
    ensures multiset(SortBySizeDesc(s)) == multiset(s)
  {
    if s != [] {
      var rest := SortBySizeDesc(s[1..]);
      SortPermutes(s[1..]);
      MultisetCons(s);
      assert SortBySizeDesc(s) == Insert(s[0], rest);
    }
  }

  /** The sorted list runs from the longest file to the shortest. */
  lemma {:induction false} SortSorts(s: seq<MediaFile>)
    ensures SortedBySizeDesc(SortBySizeDesc(s))
  {
    if s != [] {
      SortSorts(s[1..]);
      InsertSorted(s[0], SortBySizeDesc(s[1..]));
    }
  }

  /** Filtering by a predicate that holds only for files of one length. */
  ghost predicate UniformLength(p: MediaFile -> bool, s: seq<MediaFile>, len: nat) {
    forall f :: f in s && p(f) ==> f.length == len
  }

  lemma FilterCons(p: MediaFile -> bool, x: MediaFile, s: seq<MediaFile>)
    ensures Filter(p, [x] + s) == (if p(x) then [x] else []) + Filter(p, s)
  {
    assert ([x] + s)[1..] == s;
  }

  lemma {:induction false} FilterInsert(p: MediaFile -> bool, x: MediaFile, s: seq<MediaFile>)
    requires p(x) ==> UniformLength(p, s, x.length)
    ensures Filter(p, Insert(x, s)) == Filter(p, [x] + s)
  {
    if s != [] && s[0].length > x.length {
      var y, tail := s[0], s[1..];
      assert s == [y] + tail;
      assert !p(x) || !p(y);
      assert p(x) ==> UniformLength(p, tail, x.length);
      FilterInsert(p, x, tail);
      FilterCons(p, y, Insert(x, tail));
      FilterCons(p, x, tail);
      FilterCons(p, y, tail);
      FilterCons(p, x, s);
    }
  }

  /**
   * The sort is stable: the files satisfying a predicate that only files of
   * one length satisfy keep their relative order.
   */
  lemma {:induction false} SortKeepsEqualLengthOrder(p: MediaFile -> bool, s: seq<MediaFile>, len: nat)
    requires UniformLength(p, s, len)
    ensures Filter(p, SortBySizeDesc(s)) == Filter(p, s)
  {
    if s != [] {
      var rest := SortBySizeDesc(s[1..]);
      assert s == [s[0]] + s[1..];
      assert UniformLength(p, s[1..], len);
      SortKeepsEqualLengthOrder(p, s[1..], len);
      SortPermutes(s[1..]);
      forall f | f in rest && p(f) ensures f.length == len {
        assert f in multiset(s[1..]);
      }
      FilterInsert(p, s[0], rest);
      FilterConcat(p, [s[0]], rest);
      FilterConcat(p, [s[0]], s[1..]);
    }
  }

  /** The first element of `s` satisfying `p` heads `Filter(p, s)`. */
  lemma {:induction false} FilterHead(p: MediaFile -> bool, s: seq<MediaFile>, i: nat)
    requires i < |s| && p(s[i])
    requires forall j :: 0 <= j < i ==> !p(s[j])
    ensures Filter(p, s) != [] && Filter(p, s)[0] == s[i]
  {
    if i > 0 {
      FilterHead(p, s[1..], i - 1);
    }
  }

  /** A longest non-empty video is the first longest video in the list. */
  lemma PickHeadsLongestVideos(files: seq<MediaFile>, i: int)
    requires IsVideoPick(files, i)
    ensures var p := (f: MediaFile) => IsVideoFile(f) && f.length == files[i].length;
      Filter(p, files) != [] && Filter(p, files)[0] == files[i] && UniformLength(p, files, files[i].length)
  {
    var p := (f: MediaFile) => IsVideoFile(f) && f.length == files[i].length;
    FilterHead(p, files, i);
  }

  /** Sorting keeps the set of files, so the scan finds a video after the sort exactly when before it. */
  lemma SortKeepsPlayableVideo(files: seq<MediaFile>)
    ensures HasPlayableVideo(SortBySizeDesc(files)) <==> HasPlayableVideo(files)
  {
    var sorted := SortBySizeDesc(files);
    SortPermutes(files);
    if HasPlayableVideo(files) {
      var i :| 0 <= i < |files| && IsVideoFile(files[i]) && files[i].length > 0;
      assert files[i] in multiset(sorted);
      var j :| 0 <= j < |sorted| && sorted[j] == files[i];
    }
    if HasPlayableVideo(sorted) {
      var j :| 0 <= j < |sorted| && IsVideoFile(sorted[j]) && sorted[j].length > 0;
      assert sorted[j] in multiset(files);
      var i :| 0 <= i < |files| && files[i] == sorted[j];
    }
  }

  /**
   * The sort in `displayTorrentInfo` does not change which file the scan
   * picks: among equally long videos, the stable sort keeps the first one first.
   */
  lemma SortKeepsVideoPick(files: seq<MediaFile>, i: int, j: int)
    requires IsVideoPick(files, i)
    requires IsVideoPick(SortBySizeDesc(files), j)
    ensures SortBySizeDesc(files)[j] == files[i]
    ensures DistinctPaths(files) ==>
      forall k :: 0 <= k < |files| && files[k].path == SortBySizeDesc(files)[j].path ==> k == i
  {
    SortedPickIsPick(files, i, j);
    if DistinctPaths(files) {
      forall k | 0 <= k < |files| && files[k].path == SortBySizeDesc(files)[j].path
        ensures k == i
      {
        assert files[k].path == files[i].path;
      }
    }
  }

  /** The file picked from the sorted list is the one picked from the original. */
  lemma SortedPickIsPick(files: seq<MediaFile>, i: int, j: int)
    requires IsVideoPick(files, i)
    requires IsVideoPick(SortBySizeDesc(files), j)
    ensures SortBySizeDesc(files)[j] == files[i]
  {
    var sorted := SortBySizeDesc(files);
    SortPermutes(files);
    assert files[i] in multiset(sorted);
    var i' :| 0 <= i' < |sorted| && sorted[i'] == files[i];
    assert sorted[j] in multiset(files);
    var j' :| 0 <= j' < |files| && files[j'] == sorted[j];
    assert sorted[j].length == files[i].length;
    var len := files[i].length;
    var p := (f: MediaFile) => IsVideoFile(f) && f.length == len;
    PickHeadsLongestVideos(files, i);
    PickHeadsLongestVideos(sorted, j);
    SortKeepsEqualLengthOrder(p, files, len);
  }

  /**
   * The `ready` handler: `displayTorrentInfo` sorts the list in place when the
   * info panel exists, then `selectLargestVideoFile` scans the list as it now is.
   */
  method OnReady(files: seq<MediaFile>, hasInfoPanel: bool) returns (shown: seq<MediaFile>, outcome: Selection)
    ensures shown == if hasInfoPanel then SortBySizeDesc(files) else files
    ensures outcome.AutoSelect? <==> HasPlayableVideo(files)
    ensures outcome.AutoSelect? ==> outcome.index < |shown| && exists i :: IsVideoPick(files, i) && shown[outcome.index] == files[i]
    ensures outcome.AutoSelect? && DistinctPaths(files) ==>
      forall k :: 0 <= k < |files| && files[k].path == shown[outcome.index].path ==> IsVideoPick(files, k)
  {
    shown := if hasInfoPanel then SortBySizeDesc(files) else files;
    SortKeepsPlayableVideo(files);
    outcome := SelectLargestVideoFile(Some(shown));
    if outcome.AutoSelect? {
      var pick := LargestVideo(files);
      if hasInfoPanel {
        SortKeepsVideoPick(files, pick.value, outcome.index);
      } else {
        VideoPickUnique(files, pick.value, outcome.index);
      }
      assert IsVideoPick(files, pick.value);
      if DistinctPaths(files) {
        forall k | 0 <= k < |files| && files[k].path == shown[outcome.index].path
          ensures IsVideoPick(files, k)
        {
          assert files[k].path == files[pick.value].path;
        }
      }
    }
  }
}
