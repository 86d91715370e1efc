/**
 * The anime detail screen's client-side logic: turning an episode tap into a
 * watched mark and a playback hand-off, reconciling the watched map with the
 * server's snapshot, and the "My List" status label and colour.
 *
 * Network replies and storage reads are inputs; navigation and alerts are
 * results. A JavaScript string that is missing or falsy is the empty string;
 * an array or object is None where its absence makes the code throw.
 */
module AnimeScreen {

  import opened Wrappers
  import opened WatchedStore
  import JsText

  // ---------------------------------------------------------------------------
  // Episode manifest (the reply of GET /fetchEpisode)
  // ---------------------------------------------------------------------------

  /** One entry of `sources`; `url` is "" when missing. */
  datatype Source = Source(url: string)

  /** One entry of `tracks`. */
  datatype Track = Track(kind: string, labelText: string, file: string)

  /**
   * `data.data`. `sources` is None when it is null or undefined, since
   * `sources[0]` then throws; any other value without an element 0 is the
   * empty list and leads to "No HLS source". `tracks` is None when it is not
   * an array, since `.filter` then throws.
   */
  datatype ServersData = ServersData(sources: Option<seq<Source>>, tracks: Option<seq<Track>>)

  /** `serverRes.data`: the success flag and the payload, which may be absent. */
  datatype ManifestReply = ManifestReply(success: bool, data: Option<ServersData>)

  /** The subtitle entries shown in the choice modal. */
  datatype Subtitle = Subtitle(id: string, labelText: string, file: string)

  datatype Alert = Alert(title: string, message: string)

  const CaptionsKind := "captions"

  const ServersFailedAlert := Alert("Error", "Failed to fetch servers for this episode.")
  const NoHlsAlert := Alert("Error", "No HLS source found")
  const NoSubtitlesAlert := Alert("No Subtitles", "No subtitles available for this episode.")
  const SourcesFailedAlert := Alert("Error", "Failed to fetch episode sources")
  const MissingUrlAlert := Alert("Error", "Video URL or Subtitle URL is missing.")
  const NoStreamAlert := Alert("Error", "Streaming source is not available.")

  /** `tracks.filter(track => track.kind === 'captions')`. */
  function Captions(tracks: seq<Track>): (r: seq<Track>)
    ensures |r| <= |tracks|
    ensures forall i :: 0 <= i < |r| ==> r[i].kind == CaptionsKind
    ensures forall t :: t in r <==> t in tracks && t.kind == CaptionsKind
  {
    if tracks == [] then []
    else if tracks[0].kind == CaptionsKind then [tracks[0]] + Captions(tracks[1..])
    else Captions(tracks[1..])
  }

  /** Keeping the caption tracks of two lists one after the other keeps their order. */
  lemma {:induction false} CaptionsAppend(a: seq<Track>, b: seq<Track>)
    ensures Captions(a + b) == Captions(a) + Captions(b)
  {
    if a == [] {
      assert a + b == b;
    } else {
      assert (a + b)[1..] == a[1..] + b;
      CaptionsAppend(a[1..], b);
    }
  }

  /** `captionTracks.map((track, index) => ({ id: index.toString(), ... }))`. */
  function SubtitlesFrom(caps: seq<Track>, first: nat): (r: seq<Subtitle>)
    ensures |r| == |caps|
    ensures forall i :: 0 <= i < |r| ==>
              r[i] == Subtitle(JsText.NatToString(first + i), caps[i].labelText, caps[i].file)
  {
    if caps == [] then []
    else [Subtitle(JsText.NatToString(first), caps[0].labelText, caps[0].file)] + SubtitlesFrom(caps[1..], first + 1)
  }

  /** What a manifest leads to before the hand-off guard is consulted. */
  datatype Resolution =
    | Rejected(alert: Alert)
      // an alert, no hand-off and no subtitle state
    | Direct(hlsSource: string, subtitles: seq<Subtitle>)
      // exactly one caption track: hand off at once
    | Choose(hlsSource: string, subtitles: seq<Subtitle>)
      // two or more: open the subtitle choice modal

  /**
   * The decision chain of handleEpisodePress after the manifest arrived:
   * success flag, first source, caption filter, then one track or many.
   * A payload that makes the code throw (no data, no sources or tracks array)
   * ends in the catch-all alert.
   */
  function Resolve(reply: ManifestReply): (r: Resolution)
    ensures !reply.success ==> r == Rejected(ServersFailedAlert)
    ensures reply.success && (reply.data.None? || reply.data.value.sources.None?) ==>
              r == Rejected(SourcesFailedAlert)
    ensures && reply.success && reply.data.Some? && reply.data.value.sources.Some?
            && |reply.data.value.sources.value| > 0 && reply.data.value.sources.value[0].url != ""
            && reply.data.value.tracks.None? ==>
              r == Rejected(SourcesFailedAlert)
    ensures r.Direct? || r.Choose? ==>
              && reply.success && reply.data.Some?
              && reply.data.value.sources.Some? && reply.data.value.tracks.Some?
              && |reply.data.value.sources.value| > 0
              && r.hlsSource == reply.data.value.sources.value[0].url && r.hlsSource != ""
              && r.subtitles == SubtitlesFrom(Captions(reply.data.value.tracks.value), 0)
    ensures r.Direct? ==> |r.subtitles| == 1
    ensures r.Choose? ==> |r.subtitles| >= 2
  {
    if !reply.success then Rejected(ServersFailedAlert)
    else if reply.data.None? || reply.data.value.sources.None? then Rejected(SourcesFailedAlert)
    else
      var servers := reply.data.value;
      var hls := if |servers.sources.value| > 0 then servers.sources.value[0].url else "";
      if hls == "" then Rejected(NoHlsAlert)
      else if servers.tracks.None? then Rejected(SourcesFailedAlert)
      else
        var caps := Captions(servers.tracks.value);
        if |caps| == 0 then Rejected(NoSubtitlesAlert)
        else
          var subs := SubtitlesFrom(caps, 0);
          if |subs| == 1 then Direct(hls, subs) else Choose(hls, subs)
  }

  /** A well-formed reply whose first source has no URL is "No HLS source". */
  lemma NoHlsSource(reply: ManifestReply)
    requires reply.success && reply.data.Some? && reply.data.value.sources.Some?
    requires |reply.data.value.sources.value| == 0 || reply.data.value.sources.value[0].url == ""
    ensures Resolve(reply) == Rejected(NoHlsAlert)
  {
  }

  /** A reply whose tracks hold no caption track is "No Subtitles", never an empty hand-off. */
  lemma NoCaptionsMeansNoSubtitles(reply: ManifestReply)
    requires reply.success && reply.data.Some?
    requires reply.data.value.sources.Some? && |reply.data.value.sources.value| > 0
    requires reply.data.value.sources.value[0].url != ""
    requires reply.data.value.tracks.Some?
    requires forall t :: t in reply.data.value.tracks.value ==> t.kind != CaptionsKind
    ensures Resolve(reply) == Rejected(NoSubtitlesAlert)
  {
  }

  /** Exactly one caption track goes straight to the hand-off with its file. */
  lemma OneCaptionHandsOff(reply: ManifestReply)
    requires reply.success && reply.data.Some?
    requires reply.data.value.sources.Some? && |reply.data.value.sources.value| > 0
    requires reply.data.value.sources.value[0].url != ""
    requires reply.data.value.tracks.Some? && |Captions(reply.data.value.tracks.value)| == 1
    ensures Resolve(reply).Direct?
    ensures Resolve(reply).hlsSource == reply.data.value.sources.value[0].url
    ensures Resolve(reply).subtitles[0].file == Captions(reply.data.value.tracks.value)[0].file
  {
  }

  /** Two or more caption tracks open the choice, numbered "0", "1", ... in track order. */
  lemma ManyCaptionsOpenChoice(reply: ManifestReply, i: nat)
    requires reply.success && reply.data.Some?
    requires reply.data.value.sources.Some? && |reply.data.value.sources.value| > 0
    requires reply.data.value.sources.value[0].url != ""
    requires reply.data.value.tracks.Some? && |Captions(reply.data.value.tracks.value)| >= 2
    requires i < |Captions(reply.data.value.tracks.value)|
    ensures Resolve(reply).Choose?
    ensures |Resolve(reply).subtitles| == |Captions(reply.data.value.tracks.value)|
    ensures Resolve(reply).subtitles[i].id == JsText.NatToString(i)
    ensures Resolve(reply).subtitles[i].file == Captions(reply.data.value.tracks.value)[i].file
  {
  }

  /** The ids "0", "1", ... are pairwise different, so the modal's keys are unique. */
  lemma {:induction false} SubtitleIdsDistinct(caps: seq<Track>, i: nat, j: nat)
    requires i < j < |caps|
    ensures SubtitlesFrom(caps, 0)[i].id != SubtitlesFrom(caps, 0)[j].id
  {
    JsText.NatToStringRoundTrip(i);
    JsText.NatToStringRoundTrip(j);
  }

  // ---------------------------------------------------------------------------
  // Hand-off to the stream screen (openVideoWithStreamScreen)
  // ---------------------------------------------------------------------------

  datatype HandOff = Navigate(videoUrl: string, subtitleUrl: string) | Refused(alert: Alert)

  function OpenVideo(videoUrl: string, subtitleUrl: string): (r: HandOff)
    ensures r.Navigate? <==> videoUrl != "" && subtitleUrl != ""
    ensures r.Navigate? ==> r.videoUrl == videoUrl && r.subtitleUrl == subtitleUrl
    ensures r.Refused? ==> r.alert == MissingUrlAlert
  {
    if videoUrl == "" || subtitleUrl == "" then Refused(MissingUrlAlert)
    else Navigate(videoUrl, subtitleUrl)
  }

  // ---------------------------------------------------------------------------
  // My List status
  // ---------------------------------------------------------------------------

  datatype StatusOption = StatusOption(labelText: string, value: string)

  const StatusOptions: seq<StatusOption> := [
    StatusOption("Want to Watch", "want_to_watch"),
    StatusOption("Watching Now", "watching_now"),
    StatusOption("Done Watching", "done_watching"),
    StatusOption("Complete it Later", "complete_later"),
    StatusOption("I Don't Want to Complete It", "dont_want")
  ]

  const AddToListLabel := "Add to My List"

  /** `options.find(option => option.value === status)`. */
  function FindOption(options: seq<StatusOption>, status: Option<string>): (r: Option<StatusOption>)
    ensures r.Some? ==> r.value in options && status == Some(r.value.value)
    ensures r.None? ==> forall o :: o in options ==> status != Some(o.value)
  {
    if options == [] then None
    else if status == Some(options[0].value) then Some(options[0])
    else FindOption(options[1..], status)
  }

  /** getMyListLabel: the option's label, or "Add to My List" when nothing matches (null included). */
  function MyListLabel(status: Option<string>): (r: string)
    ensures (exists o :: o in StatusOptions && status == Some(o.value)) ==>
              exists o :: o in StatusOptions && status == Some(o.value) && r == o.labelText
    ensures (forall o :: o in StatusOptions ==> status != Some(o.value)) ==> r == AddToListLabel
  {
    var found := FindOption(StatusOptions, status);
    if found.Some? then found.value.labelText else AddToListLabel
  }

  /** Each of the five statuses shows its own label; anything else shows the default. */
  lemma MyListLabelCases(status: Option<string>)
    ensures status == Some("want_to_watch") ==> MyListLabel(status) == "Want to Watch"
    ensures status == Some("watching_now") ==> MyListLabel(status) == "Watching Now"
    ensures status == Some("done_watching") ==> MyListLabel(status) == "Done Watching"
    ensures status == Some("complete_later") ==> MyListLabel(status) == "Complete it Later"
    ensures status == Some("dont_want") ==> MyListLabel(status) == "I Don't Want to Complete It"
    ensures (forall o :: o in StatusOptions ==> status != Some(o.value)) ==> MyListLabel(status) == AddToListLabel
    ensures status.None? ==> MyListLabel(status) == AddToListLabel
  {
  }

  /** getStatusColor: one colour per status, white otherwise. */
  function StatusColor(status: Option<string>): (r: string)
    ensures (forall o :: o in StatusOptions ==> status != Some(o.value)) <==> r == "#ffffff"
  {
    match status
    case Some("want_to_watch") => "#fbc02d"
    case Some("watching_now") => "#42a5f5"
    case Some("done_watching") => "#66bb6a"
    case Some("complete_later") => "#ab47bc"
    case Some("dont_want") => "#ef5350"
    case _ => "#ffffff"
  }

  /** The label and the colour agree on which statuses are known. */
  lemma LabelAndColourAgree(status: Option<string>)
    ensures MyListLabel(status) == AddToListLabel <==> StatusColor(status) == "#ffffff"
  {
  }

  // ---------------------------------------------------------------------------
  // The screen's state and handlers
  // ---------------------------------------------------------------------------

  /** `GET /fetchEpisode`: the request threw (transport error, non-2xx) or replied. */
  datatype ManifestFetch = FetchThrew | Fetched(reply: ManifestReply)

  /** `GET /data`: threw, or replied with `userData?.watchedEpisodes` (None when falsy). */
  datatype SnapshotFetch = SnapshotThrew | Snapshot(watchedEpisodes: Option<seq<ServerEntry>>)

  /** What the user sees at the end of an episode tap. */
  datatype TapOutcome = Alerted(alert: Alert) | Played(videoUrl: string, subtitleUrl: string) | ModalOpened

  /** `GET /list`: not ok or threw (None), or `data.animeStatus?.status` ("" when falsy). */
  datatype StatusFetch = StatusUnavailable | StatusReply(status: string)

  /** `POST /list` with the stored token. */
  datatype StatusUpdate = NoToken | UpdateFailed | UpdateOk

  datatype StatusOutcome = LoginRequired(alert: Alert) | StatusKept | StatusChanged

  const NoTokenAlert := Alert("Error", "No token found. Please log in again.")

  class Screen {
    /** `String(item?.mal_id)`, the key of this anime in the watched map. */
    const animeIdKey: AnimeKey
    /** The logged-in user, if any. */
    const userId: Option<string>

    var watched: WatchedMap
    /** The last map handed to saveWatchedEpisodesMap, if any. */
    var persisted: Option<WatchedMap>
    var isEpisodeLoading: bool
    var availableSubtitles: seq<Subtitle>
    var currentHlsSource: Option<string>
    var isSubtitleModalVisible: bool
    var selectedSubtitle: Option<Subtitle>
    var myListStatus: Option<string>
    var isModalVisible: bool

    constructor (animeIdKey: AnimeKey, userId: Option<string>)
      ensures this.animeIdKey == animeIdKey && this.userId == userId
      ensures watched == map[] && persisted.None?
      ensures !isEpisodeLoading && availableSubtitles == [] && currentHlsSource.None?
      ensures !isSubtitleModalVisible && selectedSubtitle.None?
      ensures myListStatus.None? && !isModalVisible
    {
      this.animeIdKey := animeIdKey;
      this.userId := userId;
      watched := map[];
      persisted := None;
      isEpisodeLoading := false;
      availableSubtitles := [];
      currentHlsSource := None;
      isSubtitleModalVisible := false;
      selectedSubtitle := None;
      myListStatus := None;
      isModalVisible := false;
    }

    /** loadWatchedEpisodesMap: a stored map replaces the in-memory one; otherwise nothing changes. */
    method LoadWatchedEpisodesMap(stored: StoredValue)
      modifies this`watched
      ensures watched == Load(old(watched), stored)
    {
      if stored.Stored? {
        watched := stored.m;
      }
    }

    /**
     * fetchUserWatchedEpisodes: skipped when logged out; otherwise the
     * snapshot is turned into serverMap and merged into the current map,
     * which is also written to storage.
     */
    method FetchUserWatchedEpisodes(fetch: SnapshotFetch) returns (requested: bool)
      modifies this`watched, this`persisted
      ensures requested == JsText.Truthy(userId)
      ensures !requested || fetch.SnapshotThrew? || fetch.watchedEpisodes.None? ==>
                watched == old(watched) && persisted == old(persisted)
      ensures requested && fetch.Snapshot? && fetch.watchedEpisodes.Some? ==>
                && watched == Merged(old(watched), ServerMapOf(fetch.watchedEpisodes.value))
                && persisted == Some(watched)
    {
      requested := JsText.Truthy(userId);
      if !requested {
        return;
      }
      if fetch.Snapshot? && fetch.watchedEpisodes.Some? {
        var serverMap := BuildServerMap(fetch.watchedEpisodes.value);
        var merged := MergeSnapshot(watched, serverMap);
        persisted := Some(merged);
        watched := merged;
      }
    }

    /** The local-map updater of handleEpisodePress, with its storage write. */
    method MarkLocally(episodeNumber: Episode)
      modifies this`watched, this`persisted
      ensures watched == MarkWatched(old(watched), animeIdKey, episodeNumber)
      ensures persisted == Some(watched)
    {
      var updated := MarkWatched(watched, animeIdKey, episodeNumber);
      persisted := Some(updated);
      watched := updated;
    }

    /**
     * handleEpisodePress: when logged in, POST /watched first (`postOk` says
     * whether it returned); then the local mark; then the manifest, resolved
     * through Resolve and, for a single caption track, the hand-off guard.
     * `manifestRequested` says whether GET /fetchEpisode was issued.
     */
    method HandleEpisodePress(episodeNumber: Episode, postOk: bool, fetch: ManifestFetch)
      returns (outcome: TapOutcome, manifestRequested: bool)
      modifies this`watched, this`persisted, this`isEpisodeLoading, this`availableSubtitles,
               this`currentHlsSource, this`isSubtitleModalVisible
      ensures !isEpisodeLoading
      ensures manifestRequested == (!JsText.Truthy(userId) || postOk)
      // a failed POST: no local mark, no manifest, the catch-all alert
      ensures !manifestRequested ==>
                && watched == old(watched) && persisted == old(persisted)
                && outcome == Alerted(SourcesFailedAlert)
      // the mark, once made, stays whatever the manifest does
      ensures manifestRequested ==>
                watched == MarkWatched(old(watched), animeIdKey, episodeNumber) && persisted == Some(watched)
      ensures manifestRequested && fetch.FetchThrew? ==> outcome == Alerted(SourcesFailedAlert)
      ensures manifestRequested && fetch.Fetched? ==>
                match Resolve(fetch.reply)
                case Rejected(a) => outcome == Alerted(a)
                case Direct(hls, subs) =>
                  outcome == (match OpenVideo(hls, subs[0].file)
                              case Navigate(v, s) => Played(v, s)
                              case Refused(a) => Alerted(a))
                case Choose(_, _) => outcome == ModalOpened
      // subtitle state changes only once a stream and a caption track exist
      ensures manifestRequested && fetch.Fetched? && !Resolve(fetch.reply).Rejected? ==>
                && availableSubtitles == Resolve(fetch.reply).subtitles
                && currentHlsSource == Some(Resolve(fetch.reply).hlsSource)
                && isSubtitleModalVisible == (Resolve(fetch.reply).Choose? || old(isSubtitleModalVisible))
      ensures !(manifestRequested && fetch.Fetched? && !Resolve(fetch.reply).Rejected?) ==>
                && availableSubtitles == old(availableSubtitles)
                && currentHlsSource == old(currentHlsSource)
                && isSubtitleModalVisible == old(isSubtitleModalVisible)
    {
      isEpisodeLoading := true;
      manifestRequested := !JsText.Truthy(userId) || postOk;
      if !manifestRequested {
        // the awaited POST threw: straight to the catch block
        outcome := Alerted(SourcesFailedAlert);
        isEpisodeLoading := false;
        return;
      }
      MarkLocally(episodeNumber);
      if fetch.FetchThrew? {
        outcome := Alerted(SourcesFailedAlert);
        isEpisodeLoading := false;
        return;
      }
      var resolution := Resolve(fetch.reply);
      match resolution {
        case Rejected(a) =>
          outcome := Alerted(a);
        case Direct(hls, subs) =>
          availableSubtitles := subs;
          currentHlsSource := Some(hls);
          var handOff := OpenVideo(hls, subs[0].file);
          outcome := match handOff
            case Navigate(v, s) => Played(v, s)
            case Refused(a) => Alerted(a);
        case Choose(hls, subs) =>
          availableSubtitles := subs;
          currentHlsSource := Some(hls);
          isSubtitleModalVisible := true;
          outcome := ModalOpened;
      }
      isEpisodeLoading := false;
    }

    /** A press on one entry of the subtitle modal. */
    method ChooseSubtitle(item: Subtitle) returns (outcome: TapOutcome)
      modifies this`selectedSubtitle, this`isSubtitleModalVisible
      ensures currentHlsSource.Some? && currentHlsSource.value != "" ==>
                && selectedSubtitle == Some(item) && !isSubtitleModalVisible
                && outcome == (match OpenVideo(currentHlsSource.value, item.file)
                               case Navigate(v, s) => Played(v, s)
                               case Refused(a) => Alerted(a))
      ensures !(currentHlsSource.Some? && currentHlsSource.value != "") ==>
                && selectedSubtitle == old(selectedSubtitle)
                && isSubtitleModalVisible == old(isSubtitleModalVisible)
                && outcome == Alerted(NoStreamAlert)
    {
      if currentHlsSource.Some? && currentHlsSource.value != "" {
        selectedSubtitle := Some(item);
        isSubtitleModalVisible := false;
        var handOff := OpenVideo(currentHlsSource.value, item.file);
        outcome := match handOff
          case Navigate(v, s) => Played(v, s)
          case Refused(a) => Alerted(a);
      } else {
        outcome := Alerted(NoStreamAlert);
      }
    }

    /** fetchMyListStatus: a truthy status in the reply is stored; anything else changes nothing. */
    method FetchMyListStatus(fetch: StatusFetch)
      modifies this`myListStatus
      ensures fetch.StatusReply? && fetch.status != "" ==> myListStatus == Some(fetch.status)
      ensures !(fetch.StatusReply? && fetch.status != "") ==> myListStatus == old(myListStatus)
    {
      if fetch.StatusReply? && fetch.status != "" {
        myListStatus := Some(fetch.status);
      }
    }

    /**
     * handleStatusSelection: updateMyListStatus then close the modal. Without
     * a stored token the user is sent to the login screen; the status only
     * changes when the POST succeeded.
     */
    method HandleStatusSelection(status: string, update: StatusUpdate) returns (outcome: StatusOutcome)
      modifies this`myListStatus, this`isModalVisible
      ensures !isModalVisible
      ensures update.NoToken? ==> outcome == LoginRequired(NoTokenAlert) && myListStatus == old(myListStatus)
      ensures update.UpdateFailed? ==> outcome == StatusKept && myListStatus == old(myListStatus)
      ensures update.UpdateOk? ==> outcome == StatusChanged && myListStatus == Some(status)
    {
      match update {
        case NoToken => outcome := LoginRequired(NoTokenAlert);
        case UpdateFailed => outcome := StatusKept;
        case UpdateOk =>
          myListStatus := Some(status);
          outcome := StatusChanged;
      }
      isModalVisible := false;
    }
  }
}
