/**
 * The audit object (`YouTubeVideoPlayerAudit`): its construction guard and
 * defaults, the loop that binds one player per iframe id once the player
 * API is ready, the `userActed` state-change callback, and the
 * `ServerStorage` sink it saves records to.
 *
 * The YouTube player API is opaque here: a `Player` stands for a
 * `YT.Player` handle, whose current time and video id are host state that
 * the callback reads at the moment it is notified.
 */
module Audit {
  import opened Wrappers
  import opened Discovery
  import opened PlayerState

  const DEFAULT_URL: string := "http://www.myserver.com"
  const DEFAULT_USER_ID: string := "anonymous"

  /** A playback position as the player reports it: a double, kept as its IEEE-754 bit pattern and never interpreted. */
  datatype Timecode = Timecode(bits: bv64)

  /** The object `userActed` hands to the sink. */
  datatype ActionRecord = ActionRecord(userAction: string, timecode: Timecode, videoId: string)

  /** What the sink reports for one saved record: the record under the sink's user id. */
  datatype SavedEntry = SavedEntry(userId: string, record: ActionRecord)

  /** The settings `ServerStorage` is built from. */
  datatype StorageOptions = StorageOptions(url: string, userId: string)

  /** The constructor's options object; `None` is a property that is absent (or the whole object missing). */
  datatype Options = Options(
    userId: Option<string>,
    url: Option<string>,
    ids: Option<seq<string>>,
    players: Option<seq<Player>>)

  /** A state-change notification: the new state and the player it comes from. */
  datatype StateChange = StateChange(data: int, target: Player)

  /** How `userActed` ends: `Dropped` where it returns `false`, `Saved` where it falls off the end after saving. */
  datatype Outcome = Dropped | Saved

  /**
   * JavaScript's `value || default` on a string option: an absent value and
   * the empty string are both falsy and give the default.
   */
  function OrDefault(value: Option<string>, default: string): string
  {
    if value.Some? && value.value != "" then value.value else default
  }

  /** The storage settings the constructor derives from its options. */
  function StorageOptionsFor(options: Options): (r: StorageOptions)
    ensures r.url != "" && r.userId != ""
    ensures options.url.Some? && options.url.value != "" ==> r.url == options.url.value
    ensures options.userId.Some? && options.userId.value != "" ==> r.userId == options.userId.value
    ensures options.url.None? || options.url.value == "" ==> r.url == DEFAULT_URL
    ensures options.userId.None? || options.userId.value == "" ==> r.userId == DEFAULT_USER_ID
  {
    StorageOptions(OrDefault(options.url, DEFAULT_URL), OrDefault(options.userId, DEFAULT_USER_ID))
  }

  /** With no options at all, the sink posts to the placeholder server as the anonymous user. */
  lemma StorageDefaults()
    ensures StorageOptionsFor(Options(None, None, None, None)) == StorageOptions("http://www.myserver.com", "anonymous")
  {
  }

  /**
   * `options.ids || this.getYoutubePlayers()`: an explicit id list, even an
   * empty one, is always used (an array is truthy); otherwise the page is
   * searched, which yields `None` when it has no iframe at all.
   */
  function ResolveIds(ids: Option<seq<string>>, page: seq<Iframe>): (r: Option<seq<string>>)
    ensures ids.Some? ==> r == ids
    ensures ids.None? ==> (r.None? <==> |page| == 0)
    ensures ids.None? && r.Some? ==> r.value == MatchingIds(page)
  {
    if ids.Some? then ids
    else if |page| == 0 then None
    else Some(MatchingIds(page))
  }

  /**
   * `this.iframeIds === []` compares references, and the literal `[]` is a
   * new array each time it is evaluated, so the comparison never holds.
   */
  predicate IsFreshEmptyArray(ids: seq<string>)
  {
    false
  }

  /** The construction guard `!this.iframeIds || this.iframeIds === []`. */
  predicate StopsSetup(iframeIds: Option<seq<string>>)
  {
    iframeIds.None? || IsFreshEmptyArray(iframeIds.value)
  }

  /**
   * Setup stops exactly when no ids were supplied and the page has no iframe:
   * an empty id list, supplied or discovered, lets setup proceed.
   */
  lemma GuardStopsOnlyWithoutIds(ids: Option<seq<string>>, page: seq<Iframe>)
    ensures StopsSetup(ResolveIds(ids, page)) <==> ids.None? && |page| == 0
  {
  }

  /** The storage sink. Its console output is modelled as a log of saved entries. */
  class ServerStorage {
    const url: string
    const userId: string
    ghost var log: seq<SavedEntry>

    constructor(options: StorageOptions)
      ensures url == options.url && userId == options.userId
      ensures log == []
    {
      url := options.url;
      userId := options.userId;
      log := [];
    }

    /** Save one record: it is reported once, under this sink's user id. */
    method Save(obj: ActionRecord)
      modifies this
      ensures log == old(log) + [SavedEntry(userId, obj)]
    {
      log := log + [SavedEntry(userId, obj)];
    }
  }

  /**
   * A bound `YT.Player`: the iframe id it was created for and the audit whose
   * `userActed` its state-change listener calls. Its current time and video
   * id are kept up to date by the player itself.
   */
  class Player {
    const elementId: string
    const listener: YouTubeVideoPlayerAudit
    var currentTime: Timecode
    var videoId: string

    constructor(elementId: string, listener: YouTubeVideoPlayerAudit)
      ensures this.elementId == elementId && this.listener == listener
    {
      this.elementId := elementId;
      this.listener := listener;
    }

    /** This player was created for iframe `id` and its listener calls `audit`. */
    predicate BoundTo(id: string, audit: YouTubeVideoPlayerAudit)
    {
      elementId == id && listener == audit
    }

    /**
     * The `onStateChange` listener given to the player when it is bound: it
     * passes the notification, whose target is this player, on to the
     * listening audit's `userActed`.
     */
    method StateChanged(data: int) returns (outcome: Outcome)
      requires listener.Valid() && listener.serverStorage != null
      modifies listener.serverStorage
      ensures outcome == Dropped <==> Classify(data).None?
      ensures outcome == Dropped ==> listener.serverStorage.log == old(listener.serverStorage.log)
      ensures outcome == Saved ==>
                listener.serverStorage.log == old(listener.serverStorage.log) + [SavedEntry(listener.serverStorage.userId,
                  ActionRecord(ActionName(Classify(data).value), currentTime, videoId))]
    {
      outcome := listener.UserActed(StateChange(data, this));
    }
  }

  class YouTubeVideoPlayerAudit {
    var iframeIds: Option<seq<string>>
    var players: Option<seq<Player>>
    var serverStorage: ServerStorage?
    /** Whether construction printed the "No YouTube player detected" warning. */
    ghost var warned: bool

    /**
     * Either the guard stopped setup, with a warning and no sink, or setup
     * proceeded with a list of ids to bind and a sink to save to.
     */
    ghost predicate Valid()
      reads this
    {
      (warned <==> StopsSetup(iframeIds)) &&
      (serverStorage != null <==> !StopsSetup(iframeIds)) &&
      (serverStorage != null ==> iframeIds.Some?)
    }

    /**
     * Resolve the iframe ids and, unless the guard stops setup, keep the
     * supplied players and create the storage sink. `page` is the document's
     * iframes. When the guard stops setup it warns, and the object exists
     * all the same, with no players and no sink.
     */
    constructor(options: Options, page: seq<Iframe>)
      ensures Valid()
      ensures iframeIds == ResolveIds(options.ids, page)
      ensures warned <==> StopsSetup(iframeIds)
      ensures StopsSetup(iframeIds) ==> players.None? && serverStorage == null
      ensures !StopsSetup(iframeIds) ==>
                players == options.players && serverStorage != null && fresh(serverStorage) &&
                serverStorage.url == StorageOptionsFor(options).url &&
                serverStorage.userId == StorageOptionsFor(options).userId &&
                serverStorage.log == []
    {
      var ids := options.ids;
      if ids.None? {
        ids := GetYoutubePlayers(page);
      }
      iframeIds := ids;
      if StopsSetup(ids) {
        warned := true;
        players := None;
        serverStorage := null;
      } else {
        warned := false;
        players := options.players;
        serverStorage := new ServerStorage(StorageOptionsFor(options));
      }
    }

    /**
     * The body of the player-API ready callback: create one player per iframe
     * id, in order, each listening with this audit, and append them to the
     * players list (started empty when none was supplied).
     */
    method OnPlayerApiReady()
      requires Valid() && serverStorage != null
      modifies this`players
      ensures Valid()
      ensures players.Some?
      ensures |players.value| == |old(players).GetOr([])| + |iframeIds.value|
      ensures players.value[..|old(players).GetOr([])|] == old(players).GetOr([])
      ensures forall k :: 0 <= k < |iframeIds.value| ==>
                players.value[|old(players).GetOr([])| + k].BoundTo(iframeIds.value[k], this)
      ensures forall k :: |old(players).GetOr([])| <= k < |players.value| ==> fresh(players.value[k])
      ensures forall j, k :: |old(players).GetOr([])| <= j < k < |players.value| ==>
                players.value[j] != players.value[k]
    {
      var prior := players.GetOr([]);
      players := Some(prior);
      var ids := iframeIds.value;
      for i := 0 to |ids|
        invariant players.Some? && |players.value| == |prior| + i
        invariant players.value[..|prior|] == prior
        invariant forall k :: 0 <= k < i ==> players.value[|prior| + k].BoundTo(ids[k], this)
        invariant forall k :: |prior| <= k < |players.value| ==> fresh(players.value[k])
        invariant forall j, k :: |prior| <= j < k < |players.value| ==> players.value[j] != players.value[k]
      {
        var player := new Player(ids[i], this);
        var before := players.value;
        players := Some(before + [player]);
        assert forall k :: 0 <= k < |before| ==> players.value[k] == before[k];
      }
      assert prior == old(players).GetOr([]) && ids == iframeIds.value;
    }

    /**
     * The state-change callback: a playing or paused state is saved, once,
     * with the player's current time and video id at this notification;
     * every other state is dropped and nothing is saved.
     */
    method UserActed(event: StateChange) returns (outcome: Outcome)
      requires Valid() && serverStorage != null
      modifies serverStorage
      ensures Valid()
      ensures outcome == Dropped <==> Classify(event.data).None?
      ensures outcome == Dropped ==> serverStorage.log == old(serverStorage.log)
      ensures outcome == Saved ==>
                serverStorage.log == old(serverStorage.log) + [SavedEntry(serverStorage.userId,
                  ActionRecord(ActionName(Classify(event.data).value), event.target.currentTime, event.target.videoId))]
    {
      var action := Classify(event.data);
      if action.None? {
        return Dropped;
      }
      var data := ActionRecord(ActionName(action.value), event.target.currentTime, event.target.videoId);
      serverStorage.Save(data);
      return Saved;
    }
  }
}
