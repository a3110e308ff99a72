/**
 * Which torrents the WebTorrent client holds as the page loads new ones, as
 * `loadTorrent` and `loadTorrentFromFile` in frontend/app.js manage them. The
 * client is reduced to its list of live torrents; `client.add` is a
 * parameter saying whether it returned a torrent or threw.
 */
module Session {
  import opened Wrappers
  import Seqs

  type TorrentId = nat

  datatype Level = System | Warning | Error

  /** A line `addMessageToUI` shows. */
  datatype Report = Report(level: Level, text: string)

  /**
   * `hasClient`: the client was initialized; `live`: torrents the client
   * holds; `destroyed`: torrents destroyed so far; `current`: the page's
   * `currentTorrent`.
   */
  datatype Session = Session(hasClient: bool, live: seq<TorrentId>, destroyed: seq<TorrentId>, current: Option<TorrentId>)

  /** What `client.add` did. */
  datatype AddOutcome = Added(id: TorrentId) | Threw(message: string)

  datatype Outcome = Outcome(session: Session, reports: seq<Report>)

  const NoClientText := "WebTorrent client not initialized"
  const NoMagnetText := "No magnet URI provided"

  const ConnectingPrefix := "Connecting to peers for: "

  /** The first 50 characters of the source text, followed by an ellipsis whatever its length. */
  function ConnectingText(source: string): (r: string)
    ensures |r| == |ConnectingPrefix| + (if |source| < 50 then |source| else 50) + 3
    ensures r[..|ConnectingPrefix|] == ConnectingPrefix
    ensures r[|ConnectingPrefix|..|r| - 3] == source[..if |source| < 50 then |source| else 50]
    ensures r[|r| - 3..] == "..."
  {
    ConnectingPrefix + source[..if |source| < 50 then |source| else 50] + "..."
  }

  /** The progress line names the source by its first 50 characters and nothing else. */
  lemma ConnectingTextKeepsFirstFifty(a: string, b: string)
    ensures ConnectingText(a) == ConnectingText(b) <==>
      a[..if |a| < 50 then |a| else 50] == b[..if |b| < 50 then |b| else 50]
  {
    if ConnectingText(a) == ConnectingText(b) {
      var r := ConnectingText(a);
      assert r[|ConnectingPrefix|..|r| - 3] == a[..if |a| < 50 then |a| else 50];
      assert r[|ConnectingPrefix|..|r| - 3] == b[..if |b| < 50 then |b| else 50];
    }
  }

  /**
   * The `magnetURI` argument of `loadTorrent`: missing, a magnet link (from
   * the URL, the input box or a sample button), or the `ArrayBuffer` the drop
   * handler reads from a `.torrent` file.
   */
  datatype Source = Missing | Magnet(uri: string) | Descriptor

  /** JavaScript truthiness of the argument: missing or empty text is falsy, a buffer object never is. */
  predicate Truthy(source: Source) {
    source.Descriptor? || (source.Magnet? && source.uri != "")
  }

  /** `String(magnetURI)`: the link itself, or what an `ArrayBuffer` converts to. */
  function SourceText(source: Source): (r: string)
    requires Truthy(source)
    ensures source.Magnet? ==> r == source.uri
  {
    if source.Magnet? then source.uri else "[object ArrayBuffer]"
  }

  /**
   * The message of the `TypeError` V8 raises for `magnetURI.substring(0, 50)`
   * when the argument is a buffer, which has no `substring`.
   */
  const SubstringTypeErrorText := "magnetURI.substring is not a function"

  /**
   * `loadTorrent` as intended: without a client or a source nothing changes
   * but an error line; otherwise every live torrent is destroyed before the
   * new one is added, and the new one becomes the current torrent whatever
   * kind of source it came from. The progress line shows the source converted
   * to text.
   */
  function LoadTorrent(s: Session, source: Source, add: AddOutcome): (r: Outcome)
    ensures !s.hasClient || !Truthy(source) ==> r.session == s && |r.reports| == 1 && r.reports[0].level == Error
    ensures !s.hasClient ==> r.reports == [Report(Error, NoClientText)]
    ensures s.hasClient && !Truthy(source) ==> r.reports == [Report(Error, NoMagnetText)]
    ensures s.hasClient && Truthy(source) && add.Added? ==> r.reports == [Report(System, ConnectingText(SourceText(source)))]
    ensures s.hasClient && Truthy(source) && add.Threw? ==> r.reports == [Report(Error, "Failed to load torrent: " + add.message)]
    ensures s.hasClient && Truthy(source) ==>
      && r.session.destroyed == s.destroyed + s.live
      && r.session.hasClient
      && (add.Added? ==> r.session.live == [add.id] && r.session.current == Some(add.id) && |r.reports| == 1 && r.reports[0].level == System)
      && (add.Threw? ==> r.session.live == [] && r.session.current == s.current && |r.reports| == 1 && r.reports[0].level == Error)
  {
    if !s.hasClient then Outcome(s, [Report(Error, NoClientText)])
    else if !Truthy(source) then Outcome(s, [Report(Error, NoMagnetText)])
    else
      var cleared := s.(live := [], destroyed := s.destroyed + s.live);
      match add
      case Added(id) =>
        Outcome(cleared.(live := [id], current := Some(id)), [Report(System, ConnectingText(SourceText(source)))])
      case Threw(message) =>
        Outcome(cleared, [Report(Error, "Failed to load torrent: " + message)])
  }

  /**
   * `client.torrents.forEach(t => t.destroy())` as it runs when each
   * `destroy` splices the torrent out of the array being iterated: `forEach`
   * fixes the number of steps (`bound`) up front, visits index `k` of the
   * array as it is now, and skips indices that are no longer present. The
   * result is what is left in the array and what was destroyed, in order.
   */
  function ForEachDestroy(live: seq<TorrentId>, k: nat, bound: nat): (r: (seq<TorrentId>, seq<TorrentId>))
    ensures |r.0| + |r.1| == |live|
    decreases bound - k
  {
    if k >= bound || k >= |live| then (live, [])
    else
      var next := ForEachDestroy(live[..k] + live[k + 1..], k + 1, bound);
      (next.0, [live[k]] + next.1)
  }

  /** The elements at odd positions 1, 3, 5, … */
  function OddPositions(s: seq<TorrentId>): (r: seq<TorrentId>)
    ensures |r| == |s| / 2
  {
    if |s| < 2 then [] else [s[1]] + OddPositions(s[2..])
  }

  /** The elements at even positions 0, 2, 4, … */
  function EvenPositions(s: seq<TorrentId>): (r: seq<TorrentId>)
    ensures |r| == (|s| + 1) / 2
  {
    if |s| < 2 then s else [s[0]] + EvenPositions(s[2..])
  }

  /**
   * With `kept` already visited and skipped over, the loop destroys the
   * elements of `rest` at even positions and leaves those at odd positions.
   */
  lemma {:induction false} ForEachDestroyHalves(kept: seq<TorrentId>, rest: seq<TorrentId>, bound: nat)
    requires |kept| + |rest| <= bound
    ensures ForEachDestroy(kept + rest, |kept|, bound) == (kept + OddPositions(rest), EvenPositions(rest))
    decreases |rest|
  {
    var live := kept + rest;
    var k := |kept|;
    if rest == [] {
      assert live == kept;
    } else {
      assert live[k] == rest[0];
      var after := live[..k] + live[k + 1..];
      assert live[..k] == kept;
      assert live[k + 1..] == rest[1..];
      if |rest| == 1 {
        assert after == kept;
        var next := ForEachDestroy(after, k + 1, bound);
        assert next == (kept, []);
        assert ForEachDestroy(live, k, bound) == (next.0, [live[k]] + next.1);
        assert [live[k]] + next.1 == [rest[0]];
        assert OddPositions(rest) == [] && EvenPositions(rest) == [rest[0]];
        assert kept + [] == kept;
      } else {
        assert after == (kept + [rest[1]]) + rest[2..];
        ForEachDestroyHalves(kept + [rest[1]], rest[2..], bound);
        assert kept + [rest[1]] + OddPositions(rest[2..]) == kept + OddPositions(rest);
      }
    }
  }

  /**
   * The loop as written destroys only the torrents at even positions of the
   * list it started from; every other torrent stays live.
   */
  lemma {:induction false} ForEachDestroyLeavesHalf(live: seq<TorrentId>)
    ensures ForEachDestroy(live, 0, |live|) == (OddPositions(live), EvenPositions(live))
  {
    var none: seq<TorrentId> := [];
    ForEachDestroyHalves(none, live, |live|);
    assert none + live == live;
    assert none + OddPositions(live) == OddPositions(live);
  }

  /**
   * `loadTorrent` as written: the destroy loop skips every other torrent,
   * and for a dropped `.torrent` buffer the progress line throws after
   * `client.add` returned, so the catch reports the `TypeError` and
   * `currentTorrent = torrent` never runs.
   */
  function LoadTorrentAsWritten(s: Session, source: Source, add: AddOutcome): (r: Outcome)
    ensures !s.hasClient || !Truthy(source) ==> r == LoadTorrent(s, source, add)
    ensures s.hasClient && Truthy(source) ==>
      var loop := ForEachDestroy(s.live, 0, |s.live|);
      && r.session.destroyed == s.destroyed + loop.1
      && (add.Added? ==> r.session.live == loop.0 + [add.id])
      && (add.Added? && source.Magnet? ==> r.session.current == Some(add.id) && r.reports == [Report(System, ConnectingText(source.uri))])
      && (add.Threw? ==> r.reports == [Report(Error, "Failed to load torrent: " + add.message)])
      && (add.Added? && source.Descriptor? ==> r.session.current == s.current && r.reports == [Report(Error, "Failed to load torrent: " + SubstringTypeErrorText)])
      && (add.Threw? ==> r.session.live == loop.0 && r.session.current == s.current)
  {
    if !s.hasClient || !Truthy(source) then LoadTorrent(s, source, add)
    else
      var loop := ForEachDestroy(s.live, 0, |s.live|);
      var cleared := s.(live := loop.0, destroyed := s.destroyed + loop.1);
      match add
      case Added(id) =>
        if source.Magnet? then
          Outcome(cleared.(live := loop.0 + [id], current := Some(id)), [Report(System, ConnectingText(source.uri))])
        else
          Outcome(cleared.(live := loop.0 + [id]), [Report(Error, "Failed to load torrent: " + SubstringTypeErrorText)])
      case Threw(message) =>
        Outcome(cleared, [Report(Error, "Failed to load torrent: " + message)])
  }

  /**
   * While the client holds at most one torrent, the loop as written and the
   * intended one leave the same torrents; for a magnet link the two loads
   * agree completely.
   */
  lemma AsWrittenAgreesOnSingle(s: Session, source: Source, add: AddOutcome)
    requires |s.live| <= 1
    ensures LoadTorrentAsWritten(s, source, add).session.live == LoadTorrent(s, source, add).session.live
    ensures LoadTorrentAsWritten(s, source, add).session.destroyed == LoadTorrent(s, source, add).session.destroyed
    ensures !source.Descriptor? ==> LoadTorrentAsWritten(s, source, add) == LoadTorrent(s, source, add)
  {
    ForEachDestroyLeavesHalf(s.live);
  }

  /**
   * Through `loadTorrent` alone the client never holds more than one
   * torrent, so the loop as written has nothing to skip.
   */
  lemma AsWrittenKeepsSingle(s: Session, source: Source, add: AddOutcome)
    requires |s.live| <= 1
    ensures |LoadTorrentAsWritten(s, source, add).session.live| <= 1
  {
    ForEachDestroyLeavesHalf(s.live);
  }

  /**
   * After two file loads the client holds two torrents; a magnet load as
   * written then destroys only the first, so the second stays live beside
   * the new one.
   */
  lemma SecondTorrentSurvives()
    ensures LoadTorrentAsWritten(Session(true, [1, 2], [], None), Magnet("magnet:?xt=urn:btih:0"), Added(3)).session.live == [2, 3]
    ensures LoadTorrent(Session(true, [1, 2], [], None), Magnet("magnet:?xt=urn:btih:0"), Added(3)).session.live == [3]
  {
    ForEachDestroyLeavesHalf([1, 2]);
    assert OddPositions([1, 2]) == [2];
  }

  /**
   * A dropped `.torrent` file as written: the new torrent joins the client
   * but never becomes current, and the page reports a failure instead of
   * the progress line. The intended load makes it current.
   */
  lemma DroppedFileNeverCurrent(s: Session, id: TorrentId)
    requires s.hasClient && s.current != Some(id)
    ensures var r := LoadTorrentAsWritten(s, Descriptor, Added(id));
      id in r.session.live && r.session.current != Some(id) && r.reports[0].level == Error
    ensures var r := LoadTorrent(s, Descriptor, Added(id));
      r.session.live == [id] && r.session.current == Some(id) && r.reports[0].level == System
  {
  }

  /** Removes every occurrence of `id`. */
  function Without(s: seq<TorrentId>, id: TorrentId): (r: seq<TorrentId>)
    ensures id !in r
    ensures forall x :: x in r <==> x in s && x != id
    ensures |r| <= |s|
  {
    if s == [] then []
    else (if s[0] == id then [] else [s[0]]) + Without(s[1..], id)
  }

  /**
   * `loadTorrentFromFile` up to the `client.add` call: only `currentTorrent`
   * is destroyed, and that before the client is checked. Destroying a torrent
   * that is already destroyed does nothing. The added torrent joins the
   * client at once but becomes current only in the callback
   * (`FileTorrentReady`).
   */
  function LoadTorrentFromFile(s: Session, add: AddOutcome): (r: Outcome)
    ensures r.session.current == None
    ensures r.session.hasClient == s.hasClient
    ensures s.current.Some? && s.current.value in s.live ==> r.session.destroyed == s.destroyed + [s.current.value]
    ensures s.current.Some? && (add.Threw? || add.id != s.current.value) ==> s.current.value !in r.session.live
    ensures s.current.None? || s.current.value !in s.live ==> r.session.destroyed == s.destroyed
    ensures forall x :: x in s.live && Some(x) != s.current ==> x in r.session.live
    ensures s.hasClient && add.Added? ==> add.id in r.session.live
    ensures forall x :: x in r.session.live ==> x in s.live || (s.hasClient && add.Added? && x == add.id)
  {
    var cleared :=
      if s.current.Some? then
        var gone := if s.current.value in s.live then [s.current.value] else [];
        s.(live := Without(s.live, s.current.value), destroyed := s.destroyed + gone, current := None)
      else s;
    var loading := Report(System, "Loading torrent from file...");
    if !s.hasClient then Outcome(cleared, [loading, Report(Error, NoClientText)])
    else
      match add
      case Added(id) => Outcome(cleared.(live := cleared.live + [id]), [loading])
      case Threw(message) =>
        Outcome(cleared, [loading, Report(Error, "Failed to load torrent from file: " + message)])
  }

  /** No torrent is held twice: the client refuses a torrent it already holds. */
  ghost predicate Distinct(s: seq<TorrentId>) {
    forall i, j :: 0 <= i < j < |s| ==> s[i] != s[j]
  }

  /** The tail of a list without repeats has no repeats and does not hold the head. */
  lemma DistinctTail(s: seq<TorrentId>)
    requires Distinct(s) && s != []
    ensures Distinct(s[1..]) && s[0] !in s[1..]
  {
    var t := s[1..];
    forall i, j | 0 <= i < j < |t| ensures t[i] != t[j] {
      assert t[i] == s[i + 1] && t[j] == s[j + 1];
    }
    forall i | 0 <= i < |t| ensures t[i] != s[0] {
      assert t[i] == s[i + 1];
    }
  }

  /** Removing a torrent held at most once takes exactly that one copy out. */
  lemma {:induction false} WithoutDistinct(s: seq<TorrentId>, id: TorrentId)
    requires Distinct(s)
    ensures multiset(Without(s, id)) + (if id in s then multiset{id} else multiset{}) == multiset(s)
  {
    if s != [] {
      var y, t := s[0], s[1..];
      DistinctTail(s);
      WithoutDistinct(t, id);
      Seqs.MultisetCons(s);
      if y == id {
        assert Without(s, id) == Without(t, id);
        assert id !in t;
      } else {
        assert Without(s, id) == [y] + Without(t, id);
        assert id in s <==> id in t;
      }
    }
  }

  /**
   * A file load accounts for every torrent: those live before are either
   * still live or were destroyed, and the added one is live.
   */
  lemma FileLoadAccounting(s: Session, add: AddOutcome)
    requires Distinct(s.live)
    ensures var r := LoadTorrentFromFile(s, add).session;
      multiset(r.live) + multiset(r.destroyed)
      == multiset(s.live) + multiset(s.destroyed) + (if s.hasClient && add.Added? then multiset{add.id} else multiset{})
  {
    if s.current.Some? {
      WithoutDistinct(s.live, s.current.value);
    }
  }

  /** The `client.add` callback of `loadTorrentFromFile`: the torrent becomes current. */
  function FileTorrentReady(s: Session, id: TorrentId): (r: Session)
    ensures r.current == Some(id) && r.live == s.live && r.destroyed == s.destroyed
  {
    s.(current := Some(id))
  }

  /** The client holds at most one torrent, and it is the current one. */
  ghost predicate SingleTorrent(s: Session) {
    |s.live| <= 1 && (s.live != [] ==> s.current == Some(s.live[0]))
  }

  /**
   * Magnet loads keep the client down to one torrent, whatever it held
   * before, and every torrent it held is accounted for as destroyed.
   */
  lemma LoadTorrentReplacesSession(s: Session, source: Source, add: AddOutcome)
    requires SingleTorrent(s) || (s.hasClient && Truthy(source))
    ensures SingleTorrent(LoadTorrent(s, source, add).session)
    ensures multiset(LoadTorrent(s, source, add).session.live) + multiset(LoadTorrent(s, source, add).session.destroyed)
      == multiset(s.live) + multiset(s.destroyed) + (if s.hasClient && Truthy(source) && add.Added? then multiset{add.id} else multiset{})
  {
  }

  /**
   * Loading two files before either callback runs leaves two torrents in the
   * client: `loadTorrentFromFile` destroys only `currentTorrent`, which is not
   * yet set.
   */
  lemma FileLoadsCanOverlap()
    ensures var s0 := Session(true, [], [], None);
      var s1 := LoadTorrentFromFile(s0, Added(1)).session;
      var s2 := LoadTorrentFromFile(s1, Added(2)).session;
      s2.live == [1, 2] && !SingleTorrent(s2)
  {
  }

  /** A magnet load afterwards brings the client back to a single torrent. */
  lemma MagnetLoadAfterFiles(s: Session, id: TorrentId)
    requires s.hasClient
    ensures var r := LoadTorrent(s, Magnet("magnet:?xt=urn:btih:0"), Added(id)).session;
      r.live == [id] && SingleTorrent(r) && forall x :: x in s.live ==> x in r.destroyed
  {
  }

  /**
   * With no client, a file load still destroys the current torrent first.
   * The page never reaches this state (the client is made at start-up, and
   * without it no torrent is ever added); the lemma shows the order of the
   * two steps in `loadTorrentFromFile`.
   */
  lemma FileLoadDestroysBeforeClientCheck(id: TorrentId, add: AddOutcome)
    ensures var s := Session(false, [id], [], Some(id));
      var r := LoadTorrentFromFile(s, add);
      r.session.live == [] && r.session.destroyed == [id] && r.reports[|r.reports| - 1] == Report(Error, NoClientText)
  {
  }
}
