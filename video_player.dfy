/**
 * The video player component: its state, the click gate on play/pause, the persistence of the
 * click counter in the tab's session storage, and the other control handlers.
 *
 * The gate itself is a pure function of the state a click sees (`Decide`, `Click`); the
 * component is a class whose handlers update its fields, and `HandlePlayPause` is proved to
 * perform exactly `Click`.
 */
module VideoPlayer {
  import opened Wrappers
  import opened JsStrings
  import opened ApiTypes
  import opened PlayerSource
  import PublicSettings

  /** The session storage key holding the number of redirects opened so far. */
  const ClickCountKey := "videoClickCount"

  /** A JavaScript number as the click counter can hold it: an integer, or NaN from `parseInt`. */
  datatype Count = Num(n: int) | NaN

  /** `count < limit`: false for NaN. */
  predicate Below(count: Count, limit: int) {
    count.Num? && count.n < limit
  }

  /** `count + 1`. */
  function Increment(count: Count): Count {
    match count
    case Num(n) => Num(n + 1)
    case NaN => NaN
  }

  /** `count.toString()`. */
  function CountText(count: Count): string {
    match count
    case Num(n) => IntToString(n)
    case NaN => "NaN"
  }

  /**
   * The count after the mount-time load: a non-empty stored value replaces the count with
   * `parseInt(stored, 10)`; a missing or empty one leaves it.
   */
  function LoadedCount(stored: Option<string>, current: Count): Count {
    if stored.Some? && stored.value != "" then
      match ParseInt(stored.value)
      case Some(n) => Num(n)
      case None => NaN
    else current
  }

  /** `sessionStorage.getItem(key)` on a map of items. */
  function Lookup(items: map<string, string>, key: string): Option<string> {
    if key in items then Some(items[key]) else None
  }

  /** What a play/pause click does. */
  datatype Decision = Redirect(url: string) | Toggle

  /** The gate: open the redirect URL while under the threshold, otherwise toggle playback. */
  function Decide(mounted: bool, settings: Option<Policy>, count: Count): Decision {
    if !mounted || settings.None? || !settings.value.enableRedirects then Toggle
    else if settings.value.enableRedirects && Below(count, settings.value.redirectClicks)
      && settings.value.redirectUrl != ""
    then Redirect(settings.value.redirectUrl)
    else Toggle
  }

  /** The side effects the component asks the browser or the media element for, in order. */
  datatype Effect =
    | OpenTab(url: string)       // `window.open(url, '_blank')`
    | SeekTo(fraction: real)     // the media element's `seekTo`
    | RequestFullscreen          // the container's `requestFullscreen`
    | ExitFullscreen             // `document.exitFullscreen()`

  /** The part of the state a play/pause click reads or changes. */
  datatype ClickState = ClickState(playing: bool, count: Count, storage: map<string, string>, effects: seq<Effect>)

  /** One play/pause click. */
  function Click(mounted: bool, settings: Option<Policy>, s: ClickState): ClickState {
    match Decide(mounted, settings, s.count)
    case Redirect(url) =>
      var next := Increment(s.count);
      s.(count := next, storage := s.storage[ClickCountKey := CountText(next)], effects := s.effects + [OpenTab(url)])
    case Toggle =>
      s.(playing := !s.playing)
  }

  /** `k` clicks in a row with the same settings. */
  function Clicks(mounted: bool, settings: Option<Policy>, s: ClickState, k: nat): ClickState {
    if k == 0 then s else Click(mounted, settings, Clicks(mounted, settings, s, k - 1))
  }

  /** The gate in words: a click redirects exactly when all of the source's conditions hold. */
  lemma GateRule(mounted: bool, settings: Option<Policy>, count: Count)
    ensures Decide(mounted, settings, count).Redirect? <==>
      && mounted && settings.Some? && settings.value.enableRedirects
      && count.Num? && count.n < settings.value.redirectClicks
      && settings.value.redirectUrl != ""
    ensures Decide(mounted, settings, count).Redirect? ==>
      Decide(mounted, settings, count).url == settings.value.redirectUrl
  {
  }

  /** `b` is at least `a` as counts go: NaN stays NaN, numbers never go down. */
  predicate AtLeast(a: Count, b: Count) {
    match a
    case NaN => b.NaN?
    case Num(m) => b.Num? && b.n >= m
  }

  /** A redirecting click from a count of `n`: one more, stored, and one more tab. */
  lemma RedirectStep(mounted: bool, settings: Option<Policy>, s: ClickState, n: int)
    requires s.count == Num(n) && Decide(mounted, settings, s.count).Redirect?
    ensures Click(mounted, settings, s) == s.(count := Num(n + 1),
      storage := s.storage[ClickCountKey := IntToString(n + 1)],
      effects := s.effects + [OpenTab(Decide(mounted, settings, s.count).url)])
  {
  }

  /** A toggling click changes playback only. */
  lemma ToggleStep(mounted: bool, settings: Option<Policy>, s: ClickState)
    requires Decide(mounted, settings, s.count).Toggle?
    ensures Click(mounted, settings, s) == s.(playing := !s.playing)
  {
  }

  /** Clicking never lowers the counter, and rises it by one exactly when it redirects. */
  lemma ClickCounts(mounted: bool, settings: Option<Policy>, s: ClickState)
    ensures var t := Click(mounted, settings, s);
      && AtLeast(s.count, t.count)
      && (Decide(mounted, settings, s.count).Redirect? <==> t.count != s.count)
      && (t.count != s.count ==> t.count == Num(s.count.n + 1) && t.playing == s.playing)
      && (t.count == s.count ==> t.playing != s.playing && t.storage == s.storage && t.effects == s.effects)
  {
  }

  /** Over any number of clicks the counter never goes down. */
  lemma {:induction false} ClicksNeverLower(mounted: bool, settings: Option<Policy>, s: ClickState, k: nat)
    ensures AtLeast(s.count, Clicks(mounted, settings, s, k).count)
  {
    if k > 0 {
      ClicksNeverLower(mounted, settings, s, k - 1);
      ClickCounts(mounted, settings, Clicks(mounted, settings, s, k - 1));
    }
  }

  /** How many redirects a counter at `c` still owes for a threshold `limit`. */
  function Owed(c: int, limit: int): nat {
    if c < limit then limit - c else 0
  }

  function Min(a: nat, b: nat): nat { if a <= b then a else b }

  /** `n` copies of `x`. */
  function Repeat<T>(x: T, n: nat): (r: seq<T>)
    ensures |r| == n && forall i :: 0 <= i < n ==> r[i] == x
  {
    if n == 0 then [] else Repeat(x, n - 1) + [x]
  }

  /**
   * The threshold behaviour with redirects enabled to a non-empty URL, starting from a count
   * of `c`: the first `Owed(c, limit)` clicks each open the redirect (advancing the counter,
   * storing it and leaving playback alone); every later click toggles playback.
   */
  lemma ThresholdSequence(p: Policy, s: ClickState, c: int, k: nat)
    requires p.enableRedirects && p.redirectUrl != "" && s.count == Num(c)
    ensures var r := Owed(c, p.redirectClicks);
      var e := Clicks(true, Some(p), s, k);
      && e.count == Num(c + Min(k, r))
      && Decide(true, Some(p), e.count) == (if k < r then Redirect(p.redirectUrl) else Toggle)
      && e.effects == s.effects + Repeat(OpenTab(p.redirectUrl), Min(k, r))
      && e.playing == (if k <= r then s.playing else s.playing != ((k - r) % 2 == 1))
      && (Min(k, r) > 0 ==> e.storage == s.storage[ClickCountKey := IntToString(c + Min(k, r))])
      && (Min(k, r) == 0 ==> e.storage == s.storage)
  {
    ThresholdCount(p, s, c, k);
    ThresholdRest(p, s, c, k);
  }

  /** The counter part of the threshold behaviour, and what the next click will do. */
  lemma {:induction false} ThresholdCount(p: Policy, s: ClickState, c: int, k: nat)
    requires p.enableRedirects && p.redirectUrl != "" && s.count == Num(c)
    ensures var r := Owed(c, p.redirectClicks);
      var e := Clicks(true, Some(p), s, k);
      && e.count == Num(c + Min(k, r))
      && Decide(true, Some(p), e.count) == (if k < r then Redirect(p.redirectUrl) else Toggle)
  {
    if k > 0 {
      ThresholdCount(p, s, c, k - 1);
    }
  }

  /** Playback, effects and storage under the threshold behaviour. */
  lemma ThresholdRest(p: Policy, s: ClickState, c: int, k: nat)
    requires p.enableRedirects && p.redirectUrl != "" && s.count == Num(c)
    ensures var r := Owed(c, p.redirectClicks);
      var e := Clicks(true, Some(p), s, k);
      && e.effects == s.effects + Repeat(OpenTab(p.redirectUrl), Min(k, r))
      && e.playing == (if k <= r then s.playing else s.playing != ((k - r) % 2 == 1))
      && (Min(k, r) > 0 ==> e.storage == s.storage[ClickCountKey := IntToString(c + Min(k, r))])
      && (Min(k, r) == 0 ==> e.storage == s.storage)
  {
    ThresholdEffects(p, s, c, k);
    ThresholdPlaying(p, s, c, k);
    ThresholdStorage(p, s, c, k);
  }

  lemma {:induction false} ThresholdEffects(p: Policy, s: ClickState, c: int, k: nat)
    requires p.enableRedirects && p.redirectUrl != "" && s.count == Num(c)
    ensures Clicks(true, Some(p), s, k).effects == s.effects + Repeat(OpenTab(p.redirectUrl), Min(k, Owed(c, p.redirectClicks)))
  {
    if k > 0 {
      ThresholdEffects(p, s, c, k - 1);
      ThresholdCount(p, s, c, k - 1);
      EffectsStep(p, s, c, Clicks(true, Some(p), s, k - 1), k);
    }
  }

  /** One more click of the threshold behaviour appends a tab exactly while redirects are owed. */
  lemma EffectsStep(p: Policy, s: ClickState, c: int, prev: ClickState, k: nat)
    requires p.enableRedirects && p.redirectUrl != "" && 0 < k
    requires prev.count == Num(c + Min(k - 1, Owed(c, p.redirectClicks)))
    requires prev.effects == s.effects + Repeat(OpenTab(p.redirectUrl), Min(k - 1, Owed(c, p.redirectClicks)))
    ensures Click(true, Some(p), prev).effects == s.effects + Repeat(OpenTab(p.redirectUrl), Min(k, Owed(c, p.redirectClicks)))
  {
    var tab := OpenTab(p.redirectUrl);
    var r := Owed(c, p.redirectClicks);
    if k <= r {
      RedirectStep(true, Some(p), prev, c + k - 1);
      assert Repeat(tab, k) == Repeat(tab, k - 1) + [tab];
    } else {
      ToggleStep(true, Some(p), prev);
    }
  }

  lemma {:induction false} ThresholdPlaying(p: Policy, s: ClickState, c: int, k: nat)
    requires p.enableRedirects && p.redirectUrl != "" && s.count == Num(c)
    ensures var r := Owed(c, p.redirectClicks);
      Clicks(true, Some(p), s, k).playing == (if k <= r then s.playing else s.playing != ((k - r) % 2 == 1))
  {
    if k > 0 {
      var r := Owed(c, p.redirectClicks);
      ThresholdPlaying(p, s, c, k - 1);
      ThresholdCount(p, s, c, k - 1);
      if k > r {
        Parity(k - 1 - r);
      }
    }
  }

  lemma {:induction false} ThresholdStorage(p: Policy, s: ClickState, c: int, k: nat)
    requires p.enableRedirects && p.redirectUrl != "" && s.count == Num(c)
    ensures var m := Min(k, Owed(c, p.redirectClicks));
      var e := Clicks(true, Some(p), s, k);
      && (m > 0 ==> e.storage == s.storage[ClickCountKey := IntToString(c + m)])
      && (m == 0 ==> e.storage == s.storage)
  {
    if k > 0 {
      var r := Owed(c, p.redirectClicks);
      var prev := Clicks(true, Some(p), s, k - 1);
      ThresholdStorage(p, s, c, k - 1);
      ThresholdCount(p, s, c, k - 1);
      assert Clicks(true, Some(p), s, k) == Click(true, Some(p), prev);
      if k <= r {
        assert Min(k, r) == k;
        RedirectStep(true, Some(p), prev, c + k - 1);
        if k > 1 {
          Overwrite(s.storage, ClickCountKey, IntToString(c + k - 1), IntToString(c + k));
        }
      } else {
        ToggleStep(true, Some(p), prev);
        assert Min(k, r) == Min(k - 1, r);
      }
    }
  }

  /** A second write to a key replaces the first. */
  lemma Overwrite(m: map<string, string>, key: string, a: string, b: string)
    ensures m[key := a][key := b] == m[key := b]
  {
  }

  /** Adding one flips parity. */
  lemma Parity(n: nat)
    ensures ((n + 1) % 2 == 1) == !(n % 2 == 1)
  {
  }

  /** The first click after a count of `limit` or more plays: nothing is owed. */
  lemma ThresholdReached(p: Policy, s: ClickState)
    requires s.count.Num? && s.count.n >= p.redirectClicks
    ensures Click(true, Some(p), s) == s.(playing := !s.playing)
  {
  }

  /** A garbage stored count parses to NaN, and a NaN counter never redirects. */
  lemma NaNNeverRedirects(mounted: bool, settings: Option<Policy>)
    ensures Decide(mounted, settings, NaN) == Toggle
  {
  }

  /** A stored counter is read back as the number that was written. */
  lemma StoredCountReadBack(n: int, current: Count)
    ensures LoadedCount(Some(IntToString(n)), current) == Num(n)
  {
    ParseIntToString(n);
    assert IntToString(n) != "" by {
      if n < 0 {
        assert IntToString(n) == "-" + NatToString(-n);
      }
    }
  }

  /**
   * The counter agrees with what session storage holds: a player that mounts from this
   * storage loads exactly this count.
   */
  predicate Synced(s: ClickState) {
    LoadedCount(Lookup(s.storage, ClickCountKey), s.count) == s.count
  }

  /** Clicking keeps the counter and the stored value in agreement. */
  lemma ClickKeepsSynced(mounted: bool, settings: Option<Policy>, s: ClickState)
    requires Synced(s)
    ensures Synced(Click(mounted, settings, s))
  {
    match Decide(mounted, settings, s.count)
    case Redirect(_) =>
      StoredCountReadBack(s.count.n + 1, Increment(s.count));
    case Toggle =>
  }

  /** Loading at mount makes them agree, whatever was there before. */
  lemma LoadSyncs(s: ClickState)
    ensures Synced(s.(count := LoadedCount(Lookup(s.storage, ClickCountKey), s.count)))
  {
  }

  /** The outcome of `fetch('/api/settings/public')` and `response.json()`. */
  datatype FetchOutcome =
    | Responded(status: int, body: Policy)  // the response and its parsed body
    | Failed                                // the fetch rejected or the body did not parse

  /** The settings after the fetch settles: set on an ok status, kept otherwise, defaults on failure. */
  function AfterFetch(settings: Option<Policy>, outcome: FetchOutcome): Option<Policy> {
    match outcome
    case Responded(status, body) => if 200 <= status <= 299 then Some(body) else settings
    case Failed => Some(DefaultPolicy)
  }

  /** A fetch that fails, or answers with an error status before any settings arrived, never gates a click. */
  lemma FetchFailureNeverGates(outcome: FetchOutcome, mounted: bool, count: Count)
    requires outcome.Failed? || !(200 <= outcome.status <= 299)
    ensures Decide(mounted, AfterFetch(None, outcome), count) == Toggle
  {
  }

  /**
   * Against the real endpoint the fetch always succeeds, so the player holds exactly the
   * stored policy, or the default one when the store has no row or fails.
   */
  lemma PublicEndpointFeedsPlayer(settings: Option<Policy>, read: PublicSettings.StoreRead, mounted: bool, count: Count)
    ensures var reply := PublicSettings.Get(read);
      AfterFetch(settings, Responded(reply.status, reply.body)) == Some(reply.body)
    ensures !read.Found? ==>
      var reply := PublicSettings.Get(read);
      Decide(mounted, AfterFetch(settings, Responded(reply.status, reply.body)), count) == Toggle
  {
  }

  /** The tab's session storage, shared by every player mounted in the tab. */
  class SessionStorage {
    var items: map<string, string>

    constructor ()
      ensures items == map[]
    {
      items := map[];
    }
  }

  /** The component: its props, its state hooks and the effects it has asked for. */
  class Player {
    const url: string
    const thumbnail: string
    const title: string
    const storage: SessionStorage

    var playing: bool
    var muted: bool
    var volume: real
    var played: real
    var duration: real
    var fullscreen: bool
    var showControls: bool
    var settings: Option<Policy>
    var clickCount: Count
    var mounted: bool
    /** The pending controls timeout, holding the `playing` value it captured. */
    var hideTimer: Option<bool>
    var effects: seq<Effect>

    /** The first render: the `useState` initial values, with nothing requested yet. */
    constructor (url: string, thumbnail: string, title: string, storage: SessionStorage)
      ensures this.url == url && this.thumbnail == thumbnail && this.title == title && this.storage == storage
      ensures !playing && !muted && volume == 0.8 && played == 0.0 && duration == 0.0
      ensures !fullscreen && showControls && settings == None && clickCount == Num(0) && !mounted
      ensures hideTimer == None && effects == []
    {
      this.url := url;
      this.thumbnail := thumbnail;
      this.title := title;
      this.storage := storage;
      playing := false;
      muted := false;
      volume := 0.8;
      played := 0.0;
      duration := 0.0;
      fullscreen := false;
      showControls := true;
      settings := None;
      clickCount := Num(0);
      mounted := false;
      hideTimer := None;
      effects := [];
    }

    /** What the component renders on a page served from `hostname`. */
    function Show(hostname: string): View
      reads this
    {
      Render(url, thumbnail, mounted, hostname)
    }

    /** The volume slider's position: zero while muted. */
    function SliderVolume(): real
      reads this
    {
      if muted then 0.0 else volume
    }

    /** The state a play/pause click works on. */
    function ClickView(): ClickState
      reads this, storage
    {
      ClickState(playing, clickCount, storage.items, effects)
    }

    /** The mount effects: mark mounted, then load the stored count (the fetch settles later). */
    method Mount()
      modifies this`mounted, this`clickCount
      ensures mounted
      ensures clickCount == LoadedCount(Lookup(storage.items, ClickCountKey), old(clickCount))
      ensures Synced(ClickView())
    {
      mounted := true;
      var stored := Lookup(storage.items, ClickCountKey);
      if stored.Some? && stored.value != "" {
        match ParseInt(stored.value)
        case Some(n) => clickCount := Num(n);
        case None => clickCount := NaN;
      }
      LoadSyncs(old(ClickView()));
    }

    /** `fetchSettings` settling. */
    method ReceiveSettings(outcome: FetchOutcome)
      modifies this`settings
      ensures settings == AfterFetch(old(settings), outcome)
    {
      match outcome
      case Responded(status, body) =>
        if 200 <= status <= 299 {
          settings := Some(body);
        }
      case Failed =>
        settings := Some(Policy(false, "", 3));
    }

    /** `handlePlayPause`: the gated click. */
    method HandlePlayPause()
      modifies this`playing, this`clickCount, this`effects, storage`items
      ensures ClickView() == Click(mounted, settings, old(ClickView()))
      ensures old(Synced(ClickView())) ==> Synced(ClickView())
    {
      if Synced(ClickView()) {
        ClickKeepsSynced(mounted, settings, ClickView());
      }
      if !mounted || settings.None? || !settings.value.enableRedirects {
        playing := !playing;
        return;
      }
      if settings.value.enableRedirects && Below(clickCount, settings.value.redirectClicks)
        && settings.value.redirectUrl != ""
      {
        var newCount := Increment(clickCount);
        clickCount := newCount;
        storage.items := storage.items[ClickCountKey := CountText(newCount)];
        effects := effects + [OpenTab(settings.value.redirectUrl)];
        return;
      }
      playing := !playing;
    }

    /** `handleProgress`: the played fraction the media element reports. */
    method HandleProgress(fraction: real)
      modifies this`played
      ensures played == fraction
    {
      played := fraction;
    }

    /** `handleDuration`. */
    method HandleDuration(seconds: real)
      modifies this`duration
      ensures duration == seconds
    {
      duration := seconds;
    }

    /** `handleSeek`: the slider's value becomes the played fraction and is sent to the element. */
    method HandleSeek(value: real)
      modifies this`played, this`effects
      ensures played == value && effects == old(effects) + [SeekTo(value)]
    {
      played := value;
      effects := effects + [SeekTo(value)];
    }

    /** `handleVolumeChange`: a volume of exactly zero mutes, any other unmutes. */
    method HandleVolumeChange(value: real)
      modifies this`volume, this`muted
      ensures volume == value && muted == (value == 0.0)
      ensures SliderVolume() == value
    {
      volume := value;
      muted := value == 0.0;
    }

    /** `toggleMute`: the stored volume is kept, so unmuting restores it. */
    method ToggleMute()
      modifies this`muted
      ensures muted == !old(muted)
      ensures !muted ==> SliderVolume() == volume
    {
      muted := !muted;
    }

    /** `toggleFullscreen`, given whether the document currently has a fullscreen element. */
    method ToggleFullscreen(documentFullscreen: bool)
      modifies this`fullscreen, this`effects
      ensures fullscreen == !documentFullscreen
      ensures effects == old(effects) + [if documentFullscreen then ExitFullscreen else RequestFullscreen]
    {
      if !documentFullscreen {
        effects := effects + [RequestFullscreen];
        fullscreen := true;
      } else {
        effects := effects + [ExitFullscreen];
        fullscreen := false;
      }
    }

    /** `handleMouseMove`: show the controls and restart the hide timeout, which captures `playing` now. */
    method HandleMouseMove()
      modifies this`showControls, this`hideTimer
      ensures showControls && hideTimer == Some(playing)
    {
      showControls := true;
      hideTimer := Some(playing);
    }

    /** The hide timeout firing: it hides the controls only if playback was on when it was set. */
    method ControlsTimeout()
      requires hideTimer.Some?
      modifies this`showControls, this`hideTimer
      ensures hideTimer == None
      ensures showControls == (old(showControls) && !old(hideTimer).value)
    {
      if hideTimer.value {
        showControls := false;
      }
      hideTimer := None;
    }

    /** `onMouseLeave`: hide the controls if playing. */
    method HandleMouseLeave()
      modifies this`showControls
      ensures showControls == (old(showControls) && !playing)
    {
      if playing {
        showControls := false;
      }
    }
  }

  /**
   * A tab with redirects enabled for three clicks: the first three clicks each open the
   * sponsor page and the fourth starts playback; a player mounted afterwards in the same tab
   * resumes with the count of three, so its first click plays at once.
   */
  method GatedSessionScenario() returns (playingAfterEach: seq<bool>, tabsOpened: nat, resumed: Count, resumedPlays: bool)
    ensures playingAfterEach == [false, false, false, true]
    ensures tabsOpened == 3
    ensures resumed == Num(3)
    ensures resumedPlays
  {
    var policy := Policy(true, "https://sponsor.example/", 3);
    var storage := new SessionStorage();
    var p := new Player("https://cdn.example/clip.mp4", "", "Clip", storage);
    p.Mount();
    p.ReceiveSettings(Responded(200, policy));
    var start := p.ClickView();
    assert start == ClickState(false, Num(0), map[], []);
    playingAfterEach := ClickTimes(p, 4);
    FourGatedClicks(policy, start);
    tabsOpened := |p.effects|;
    resumed, resumedPlays := Remount(storage, policy);
  }

  /** Four clicks from a fresh state with a threshold of three: three tabs, then playback. */
  lemma FourGatedClicks(policy: Policy, start: ClickState)
    requires policy.enableRedirects && policy.redirectUrl != "" && policy.redirectClicks == 3
    requires start == ClickState(false, Num(0), map[], [])
    ensures !Clicks(true, Some(policy), start, 1).playing && !Clicks(true, Some(policy), start, 2).playing
    ensures !Clicks(true, Some(policy), start, 3).playing
    ensures Clicks(true, Some(policy), start, 4).playing
    ensures |Clicks(true, Some(policy), start, 4).effects| == 3
    ensures Lookup(Clicks(true, Some(policy), start, 4).storage, ClickCountKey) == Some(IntToString(3))
  {
    ThresholdSequence(policy, start, 0, 1);
    ThresholdSequence(policy, start, 0, 2);
    ThresholdSequence(policy, start, 0, 3);
    ThresholdSequence(policy, start, 0, 4);
  }

  /** `n` play/pause clicks on `p`, recording whether it plays after each. */
  method ClickTimes(p: Player, n: nat) returns (playingAfterEach: seq<bool>)
    modifies p`playing, p`clickCount, p`effects, p.storage`items
    ensures p.ClickView() == Clicks(p.mounted, p.settings, old(p.ClickView()), n)
    ensures |playingAfterEach| == n
    ensures forall j :: 0 <= j < n ==>
      playingAfterEach[j] == Clicks(p.mounted, p.settings, old(p.ClickView()), j + 1).playing
  {
    ghost var start := p.ClickView();
    ghost var mounted, settings := p.mounted, p.settings;
    playingAfterEach := [];
    var i := 0;
    while i < n
      invariant 0 <= i <= n
      invariant p.mounted == mounted && p.settings == settings
      invariant p.ClickView() == Clicks(mounted, settings, start, i)
      invariant |playingAfterEach| == i
      invariant forall j :: 0 <= j < i ==> playingAfterEach[j] == Clicks(mounted, settings, start, j + 1).playing
    {
      p.HandlePlayPause();
      ghost var now := p.ClickView();
      assert now == Clicks(mounted, settings, start, i + 1);
      playingAfterEach := playingAfterEach + [p.playing];
      i := i + 1;
    }
  }

  /** A new player mounted in a tab whose storage holds a count of three, then clicked once. */
  method Remount(storage: SessionStorage, policy: Policy) returns (resumed: Count, plays: bool)
    requires Lookup(storage.items, ClickCountKey) == Some(IntToString(3))
    requires policy.redirectClicks == 3
    modifies storage
    ensures resumed == Num(3) && plays
  {
    var q := new Player("https://cdn.example/other.mp4", "", "Other", storage);
    q.Mount();
    StoredCountReadBack(3, Num(0));
    resumed := q.clickCount;
    q.ReceiveSettings(Responded(200, policy));
    q.HandlePlayPause();
    plays := q.playing;
  }

  /**
   * The hide timeout reads the `playing` value captured at the mouse move: moving the mouse
   * while paused and then starting playback leaves the controls shown when it fires.
   */
  method StaleTimeoutScenario() returns (controlsShown: bool, playing: bool)
    ensures playing && controlsShown
  {
    var storage := new SessionStorage();
    var p := new Player("https://cdn.example/clip.mp4", "", "Clip", storage);
    p.Mount();
    p.ReceiveSettings(Responded(200, DefaultPolicy));
    p.HandleMouseMove();
    p.HandlePlayPause();
    p.ControlsTimeout();
    controlsShown := p.showControls;
    playing := p.playing;
  }
}
