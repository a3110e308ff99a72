/**
 * Message helpers of frontend/app.js: the display truncation in `addMessageToUI`,
 * the wording chosen for WebTorrent client errors, and the filter that lets only
 * tracker warnings through to the user.
 */
module Messages {
  import opened Wrappers
  import opened Text

  const DisplayLimit: nat := 100
  const Ellipsis: string := "..."

  /** The text shown for a message: over 100 characters, its first 97 and an ellipsis. */
  function DisplayText(text: string): (r: string)
    ensures |r| <= DisplayLimit
    ensures |text| <= DisplayLimit ==> r == text
    ensures |text| > DisplayLimit ==> |r| == DisplayLimit && r == text[..97] + Ellipsis
  {
    if |text| > DisplayLimit then text[..97] + Ellipsis else text
  }

  /** A message is shown verbatim exactly when it fits, and shortening a shown text again changes nothing. */
  lemma DisplayTextKeepsShortOnly(text: string)
    ensures DisplayText(text) == text <==> |text| <= DisplayLimit
    ensures DisplayText(DisplayText(text)) == DisplayText(text)
    ensures HasPrefix(text, DisplayText(text)[..|DisplayText(text)| - (if |text| > DisplayLimit then 3 else 0)])
  {
  }

  /** How a client error is reported, in the priority order the checks are made. */
  datatype ClientErrorKind = NetworkError | ConnectionTimeout | PeersLost | OtherError

  predicate MentionsNetwork(m: string) {
    Contains(m, "XMLHttpRequest") || Contains(m, "CORS") || Contains(m, "Failed to fetch")
  }

  predicate MentionsTimeout(m: string) {
    Contains(m, "timeout") || Contains(m, "timed out")
  }

  predicate MentionsLostPeer(m: string) {
    Contains(m, "peer") && (Contains(m, "disconnect") || Contains(m, "lost"))
  }

  function ClassifyClientError(m: string): (k: ClientErrorKind)
    ensures k == NetworkError <==> MentionsNetwork(m)
    ensures k == ConnectionTimeout <==> !MentionsNetwork(m) && MentionsTimeout(m)
    ensures k == PeersLost <==> !MentionsNetwork(m) && !MentionsTimeout(m) && MentionsLostPeer(m)
  {
    if MentionsNetwork(m) then NetworkError
    else if MentionsTimeout(m) then ConnectionTimeout
    else if MentionsLostPeer(m) then PeersLost
    else OtherError
  }

  // The fixed texts of the three recognised categories: a heading or lead sentence, then the explanation.
  const NetworkErrorText := "Network error: " + "Unable to connect to tracker (CORS issue). This is a browser security limitation."
  const TimeoutErrorText := "Connection timeout: " + "The tracker or peer is not responding."
  const PeersLostText := "Lost connection to peers. " + "The download may be slow or stalled."

  /** The user-facing text for a client error with message `m`. */
  function ClientErrorText(m: string): (r: string)
    ensures ClassifyClientError(m) == NetworkError <==> r == NetworkErrorText
    ensures ClassifyClientError(m) == ConnectionTimeout <==> r == TimeoutErrorText
    ensures ClassifyClientError(m) == PeersLost <==> r == PeersLostText
    ensures ClassifyClientError(m) == OtherError <==> HasPrefix(r, "WebTorrent error: ")
    ensures ClassifyClientError(m) == OtherError ==> r[|"WebTorrent error: "|..] == m
  {
    assert NetworkErrorText[0] == 'N' && TimeoutErrorText[0] == 'C' && PeersLostText[0] == 'L';
    match ClassifyClientError(m)
    case NetworkError => NetworkErrorText
    case ConnectionTimeout => TimeoutErrorText
    case PeersLost => PeersLostText
    case OtherError => "WebTorrent error: " + m
  }

  /** Earlier rules outrank later ones. */
  function Rank(k: ClientErrorKind): nat {
    match k
    case NetworkError => 0
    case ConnectionTimeout => 1
    case PeersLost => 2
    case OtherError => 3
  }

  /**
   * Surrounding an error message with more text can only move it to an
   * earlier-checked category: every rule tests for the presence of words.
   */
  lemma ClassifyMonotone(m: string, before: string, after: string)
    ensures Rank(ClassifyClientError(before + m + after)) <= Rank(ClassifyClientError(m))
  {
    var big := before + m + after;
    MentionsPersist(m, before, after);
    if MentionsNetwork(m) {
      assert ClassifyClientError(big) == NetworkError;
    } else if MentionsTimeout(m) {
      assert Rank(ClassifyClientError(big)) <= 1;
    } else if MentionsLostPeer(m) {
      assert Rank(ClassifyClientError(big)) <= 2;
    }
  }

  /** Each category's words are still present in the surrounded message. */
  lemma MentionsPersist(m: string, before: string, after: string)
    ensures MentionsNetwork(m) ==> MentionsNetwork(before + m + after)
    ensures MentionsTimeout(m) ==> MentionsTimeout(before + m + after)
    ensures MentionsLostPeer(m) ==> MentionsLostPeer(before + m + after)
  {
    WordPersists(m, "XMLHttpRequest", before, after);
    WordPersists(m, "CORS", before, after);
    WordPersists(m, "Failed to fetch", before, after);
    WordPersists(m, "timeout", before, after);
    WordPersists(m, "timed out", before, after);
    WordPersists(m, "peer", before, after);
    WordPersists(m, "disconnect", before, after);
    WordPersists(m, "lost", before, after);
  }

  lemma WordPersists(m: string, w: string, before: string, after: string)
    ensures Contains(m, w) ==> Contains(before + m + after, w)
  {
    if Contains(m, w) {
      ContainsExtended(m, w, before, after);
    }
  }

  /**
   * The client `warning` handler: only a present, non-empty message that
   * mentions "tracker" (case-sensitively) reaches the user, prefixed.
   */
  function TrackerWarning(message: Option<string>): (r: Option<string>)
    ensures r.Some? <==> message.Some? && message.value != "" && Contains(message.value, "tracker")
    ensures r.Some? ==> r.value == "Tracker issue: " + message.value
  {
    if message.Some? && message.value != "" && Contains(message.value, "tracker") then
      Some("Tracker issue: " + message.value)
    else
      None
  }

  /** Whatever is surfaced still mentions "tracker", and a capitalised "Tracker" alone is suppressed. */
  lemma TrackerWarningSurfacesTrackerOnly(message: Option<string>)
    ensures TrackerWarning(message).Some? ==> Contains(TrackerWarning(message).value, "tracker")
    ensures TrackerWarning(Some("Tracker announce failed")) == None
  {
    if TrackerWarning(message).Some? {
      ContainsExtended(message.value, "tracker", "Tracker issue: ", "");
      assert "Tracker issue: " + message.value + "" == TrackerWarning(message).value;
    }
    NoLowerTracker();
  }

  lemma NoLowerTracker()
    ensures !Contains("Tracker announce failed", "tracker")
  {
    var s := "Tracker announce failed";
    forall i | 0 <= i < |s| ensures s[i] != 't' {
    }
    forall i | 0 <= i && i + 7 <= |s| ensures !OccursAt(s, "tracker", i) {
      assert s[i..i + 7][0] == s[i];
    }
  }
}
