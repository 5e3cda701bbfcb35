/** The player widget as a value: its whole state, and one function per
    operation giving the state after it. The class in module Widget is proved
    to implement each of these. */
module WidgetSpec {
  import opened Types
  import opened Overlay
  import opened Navigation
  import opened Playback

  /** `mpv_end_file_reason`. */
  datatype EndReason = Eof | Stop | Quit | EndError | Redirect

  datatype MpvProperty = TimePos | Duration | OtherProperty

  /** The mpv events the widget distinguishes; a property change carries its
      value in whole seconds when mpv delivered it as a double. */
  datatype MpvEvent =
    | PropertyChange(name: MpvProperty, value: Lookup<int>)
    | SeekEvent
    | PlaybackRestart
    | EndFile(reason: EndReason)
    | FileLoaded
    | OtherEvent

  /** The Qt keys the widget distinguishes. */
  datatype QtKey = KeyLeft | KeyRight | KeyUp | KeyDown | KeyReturn | OtherKey

  /** The widget's fields, together with the two engines seen from outside:
      the reads the navigation engine will deliver, the disc it has opened,
      and the logs of calls made into each engine. */
  datatype State = State(
    graphics: seq<Graphic>,
    menuFlush: bool,
    bdOpen: bool,
    dir: string,
    info: PlayerInfo,
    seek: bool,
    sid: u32,
    startTime: u64,
    queue: seq<NavRead>,
    disc: Disc,
    mpvOut: seq<MpvOut>,
    navOut: seq<NavCall>)

  const NoDisc: Disc := Disc(false, false, 0, map[])

  /** The state a new widget starts in: no regions, nothing flushed, no disc,
      an empty table, no pending seek, subtitle id 0 and no deferred start. */
  const Initial: State := State([], false, false, "", map[], false, 0, 0, [], NoDisc, [], [])

  /** The position `bd_seek` is sent to in order to reach the end of the title. */
  function TitleEndPos(disc: Disc): u64 {
    Wrap64(disc.titleSize - 1)
  }

  /** `t` has the regions, the flush flag, the handle, the disc and the
      directory of `s`. */
  predicate KeepsSetup(s: State, t: State) {
    && t.graphics == s.graphics && t.menuFlush == s.menuFlush
    && t.bdOpen == s.bdOpen && t.disc == s.disc && t.dir == s.dir
  }

  function CompositorOf(s: State): Compositor {
    Compositor(s.graphics, s.menuFlush)
  }

  /** `_get_playlist_info` and `_get_clip_info` on the widget; both fail
      without an open disc. */
  function PlaylistNow(s: State): Lookup<TitleInfo> {
    if s.bdOpen then PlaylistOf(s.disc, s.info) else Missing
  }

  function ClipNow(s: State): Lookup<ClipInfo> {
    if s.bdOpen then ClipOf(s.disc, s.info) else Missing
  }

  /** `_overlay_cb`. */
  function OverlaySpec(s: State, n: OverlayNotice, convert: YuvToRgb): (r: State)
    requires WellFormedNotice(n)
    ensures r == s.(graphics := r.graphics, menuFlush := r.menuFlush)
    ensures r.graphics == [] || s.graphics <= r.graphics
  {
    var c := ApplyOverlay(CompositorOf(s), n, convert);
    s.(graphics := c.graphics, menuFlush := c.menuFlush)
  }

  /** `_play`: load the current clip's stream and, in a title, set the
      deferred start time. */
  function PlaySpec(s: State): (r: State)
    ensures r == s.(startTime := r.startTime, mpvOut := r.mpvOut) && s.mpvOut <= r.mpvOut
    ensures r.mpvOut == s.mpvOut || (|r.mpvOut| == |s.mpvOut| + 1 && s.mpvOut <= r.mpvOut && r.mpvOut[|s.mpvOut|].LoadFile?)
  {
    if !s.bdOpen then s
    else match PlanPlay(s.disc, s.info, s.dir)
      case Missing => s
      case Found(plan) =>
        s.(startTime := if plan.startTime.Found? then plan.startTime.value else s.startTime,
           mpvOut := s.mpvOut + [LoadFile(plan.path)])
  }

  /** `_play` called `k` times in a row. */
  function PlayTimes(s: State, k: nat): State {
    if k == 0 then s else PlaySpec(PlayTimes(s, k - 1))
  }

  /** The fold of the drain started from the widget's table and subtitle id. */
  function PumpFold(s: State): PumpState {
    Fold(PumpState(s.info, s.sid, [], false, 0), Drained(s.queue))
  }

  /** `_wait_idle`: drain the queue to the first NONE or ERROR; each
      PLAYLIST_STOP met on the way nests a further drain followed by `_play`
      and makes the result false. Returns the new state and the result. */
  function PumpSpec(s: State): (r: (State, bool))
    ensures KeepsSetup(s, r.0) && r.0.navOut == s.navOut && r.0.seek == s.seek
    ensures s.mpvOut <= r.0.mpvOut
    ensures |r.0.queue| <= |s.queue| && r.0.queue == s.queue[|s.queue| - |r.0.queue|..]
    ensures s.queue != [] ==> |r.0.queue| < |s.queue|
    ensures r.1 ==> r.0.startTime == s.startTime
  {
    var p := PumpFold(s);
    var n := DrainLength(s.queue);
    var s1 := s.(info := p.info, sid := p.sid, queue := s.queue[n..], mpvOut := s.mpvOut + p.out);
    assert s1.queue == s.queue[|s.queue| - |s1.queue|..];
    assert s.queue != [] ==> n > 0;
    PlayTimesFrame(s1, p.stops);
    if p.stops == 0 then (s1, p.newPlay) else (PlayTimes(s1, p.stops), false)
  }

  /** `_play`, any number of times, changes only the deferred start time and
      extends what was sent to mpv. */
  lemma {:induction false} PlayTimesFrame(s: State, k: nat)
    ensures var t := PlayTimes(s, k);
      && t == s.(startTime := t.startTime, mpvOut := t.mpvOut)
      && s.mpvOut <= t.mpvOut
  {
    if k > 0 {
      PlayTimesFrame(s, k - 1);
    }
  }

  /** A drain changes only the table, the stored subtitle id, the queue, the
      deferred start time and what was sent to mpv; it calls nothing on the
      navigation engine but reads. */
  lemma PumpFrame(s: State)
    ensures var t := PumpSpec(s).0;
      && t == s.(info := t.info, sid := t.sid, queue := t.queue, startTime := t.startTime, mpvOut := t.mpvOut)
      && s.mpvOut <= t.mpvOut
  {
    var p := PumpFold(s);
    var s1 := s.(info := p.info, sid := p.sid, queue := s.queue[DrainLength(s.queue)..],
                 mpvOut := s.mpvOut + p.out);
    PlayTimesFrame(s1, p.stops);
  }

  /** `_read_to_eof`. */
  function ReadToEofSpec(s: State): (r: State)
    ensures r == s.(navOut := r.navOut, info := r.info, queue := r.queue)
    ensures |r.navOut| == |s.navOut| + 1 && s.navOut <= r.navOut
    ensures EndOfTitle in r.info <==> EndOfTitle in s.info
    ensures EndOfTitle in s.info ==> r.info[EndOfTitle] == s.info[EndOfTitle]
    ensures |r.queue| <= |s.queue| && r.queue == s.queue[|s.queue| - |r.queue|..]
  {
    ReadToEofKeepsEndOfTitle(s.info, s.queue);
    var (m, rest) := ReadToEof(s.info, s.queue);
    s.(navOut := s.navOut + [BdSeek(TitleEndPos(s.disc))], info := m, queue := rest)
  }

  /** `update_player_info`: seek the navigation engine to the playback
      position, measured from the clip's start time, and drain. */
  function UpdatePlayerInfoSpec(s: State, sec: nat): (r: State)
    ensures !s.bdOpen ==> r == s
    ensures KeepsSetup(s, r) && r.seek == s.seek && s.mpvOut <= r.mpvOut
    ensures r.navOut == s.navOut || (|r.navOut| == |s.navOut| + 1 && s.navOut <= r.navOut && r.navOut[|s.navOut|].BdSeekTime?)
  {
    if !s.bdOpen then s
    else match ClipNow(s)
      case Missing => s
      case Found(c) => PumpSpec(s.(navOut := s.navOut + [BdSeekTime(Pts(c.startTime, sec))])).0
  }

  /** The tick at which the current clip ends, `start_time + out_time - in_time`. */
  function ClipEnd(c: ClipInfo): u64 {
    Wrap64(c.startTime + c.outTime - c.inTime)
  }

  /** The first half of `player_end_file`: at the end of the playlist drain
      to the end of the title, otherwise seek to where the clip ends. */
  function EndFileSeekSpec(s: State, c: ClipInfo, duration: u64): (r: State)
    ensures KeepsSetup(s, r) && r.seek == s.seek && s.mpvOut <= r.mpvOut
    ensures |r.navOut| == |s.navOut| + 1 && s.navOut <= r.navOut
    ensures r.navOut[|s.navOut|] == (if ClipEnd(c) == duration then BdSeek(TitleEndPos(s.disc)) else BdSeekTime(ClipEnd(c)))
  {
    if ClipEnd(c) == duration then PumpSpec(ReadToEofSpec(s)).0
    else s.(navOut := s.navOut + [BdSeekTime(ClipEnd(c))])
  }

  /** `player_end_file`. */
  function EndFileSpec(s: State): (r: State)
    ensures ClipNow(s).Missing? ==> r == s
    ensures KeepsSetup(s, r) && r.seek == s.seek && s.mpvOut <= r.mpvOut
    ensures |r.navOut| == |s.navOut| + (if ClipNow(s).Found? then 1 else 0) && s.navOut <= r.navOut
  {
    match (ClipNow(s), PlaylistNow(s))
    case (Found(c), Found(t)) => PlaySpec(PumpSpec(EndFileSeekSpec(s, c, t.duration)).0)
    case _ => s
  }

  /** `handle_mpv_event`; `sec` is mpv's `time-pos` property at that moment. */
  function HandleMpvEventSpec(s: State, ev: MpvEvent, sec: nat): (r: State)
    ensures KeepsSetup(s, r) && s.navOut <= r.navOut && s.mpvOut <= r.mpvOut
    ensures ev.SeekEvent? ==> r == s.(seek := true)
    ensures ev.PlaybackRestart? ==> !r.seek
    ensures ev.FileLoaded? ==> r.startTime == 0
    ensures !ev.SeekEvent? && !ev.PlaybackRestart? ==> r.seek == s.seek
  {
    match ev
    case PropertyChange(TimePos, v) =>
      var s1 := if v.Found? then s.(mpvOut := s.mpvOut + [PositionChanged(v.value)]) else s;
      if s1.bdOpen && Info(s1.info, Title) == 0 then UpdatePlayerInfoSpec(s1, sec) else s1
    case PropertyChange(Duration, v) =>
      if v.Found? then s.(mpvOut := s.mpvOut + [DurationChanged(v.value)]) else s
    case PropertyChange(OtherProperty, _) => s
    case SeekEvent => s.(seek := true)
    case PlaybackRestart => if !s.seek then s else UpdatePlayerInfoSpec(s, sec).(seek := false)
    case EndFile(reason) => if reason == Eof then EndFileSpec(s) else s
    case FileLoaded =>
      if s.startTime != 0 then s.(mpvOut := s.mpvOut + [SetTimePos(s.startTime)], startTime := 0) else s
    case OtherEvent => s
  }

  /** The libbluray key a Qt key is sent as, if any. */
  function KeyCode(key: QtKey): Lookup<VKey> {
    match key
    case KeyLeft => Found(VkLeft)
    case KeyRight => Found(VkRight)
    case KeyUp => Found(VkUp)
    case KeyDown => Found(VkDown)
    case KeyReturn => Found(VkEnter)
    case OtherKey => Missing
  }

  /** Send a user input, drain, and play when the drain reports a new position. */
  function ActivateSpec(s: State, pts: u64, key: VKey): (r: State)
    ensures KeepsSetup(s, r) && r.seek == s.seek
    ensures r.navOut == s.navOut + [BdUserInput(pts, key)]
  {
    var (s1, newPlay) := PumpSpec(s.(navOut := s.navOut + [BdUserInput(pts, key)]));
    if newPlay then PlaySpec(s1) else s1
  }

  /** `keyPressEvent`. */
  function KeyPressSpec(s: State, key: QtKey, sec: nat): (r: State)
    ensures !s.bdOpen || key == OtherKey ==> r == s
    ensures KeepsSetup(s, r) && r.seek == s.seek
    ensures r.navOut != s.navOut ==>
      && ClipNow(s).Found? && KeyCode(key).Found?
      && r.navOut == s.navOut + [BdUserInput(Pts(ClipNow(s).value.inTime, sec), KeyCode(key).value)]
  {
    if !s.bdOpen then s
    else match ClipNow(s)
      case Missing => s
      case Found(c) =>
        var pts := Pts(c.inTime, sec);
        match key
        case KeyReturn => ActivateSpec(s, pts, VkEnter)
        case OtherKey => s
        case _ => s.(navOut := s.navOut + [BdUserInput(pts, KeyCode(key).value)])
  }

  /** `mousePressEvent`; `x`, `y` are the mouse position already scaled to the
      navigation engine's coordinates. */
  function MousePressSpec(s: State, sec: nat, x: u16, y: u16): (r: State)
    ensures Info(s.info, Menu) == 0 ==> r == s
    ensures r == s.(navOut := r.navOut)
    ensures r.navOut != s.navOut ==>
      ClipNow(s).Found? && r.navOut == s.navOut + [BdMouseSelect(Pts(ClipNow(s).value.inTime, sec), x, y)]
  {
    if !s.bdOpen || Info(s.info, Menu) == 0 then s
    else match ClipNow(s)
      case Missing => s
      case Found(c) => s.(navOut := s.navOut + [BdMouseSelect(Pts(c.inTime, sec), x, y)])
  }

  /** `mouseDoubleClickEvent`. */
  function MouseDoubleClickSpec(s: State, sec: nat): (r: State)
    ensures Info(s.info, Menu) == 0 ==> r == s
    ensures KeepsSetup(s, r) && r.seek == s.seek
    ensures r.navOut != s.navOut ==>
      ClipNow(s).Found? && r.navOut == s.navOut + [BdUserInput(Pts(ClipNow(s).value.inTime, sec), VkMouseActivate)]
  {
    if !s.bdOpen || Info(s.info, Menu) == 0 then s
    else match ClipNow(s)
      case Missing => s
      case Found(c) => ActivateSpec(s, Pts(c.inTime, sec), VkMouseActivate)
  }

  /** `open_menu`: menu call, drain, and always play. */
  function OpenMenuSpec(s: State, sec: nat): (r: State)
    ensures ClipNow(s).Missing? ==> r == s
    ensures KeepsSetup(s, r) && r.seek == s.seek
    ensures ClipNow(s).Found? ==> r.navOut == s.navOut + [BdMenuCall(Pts(ClipNow(s).value.inTime, sec))]
  {
    match ClipNow(s)
    case Missing => s
    case Found(c) => PlaySpec(PumpSpec(s.(navOut := s.navOut + [BdMenuCall(Pts(c.inTime, sec))])).0)
  }

  /** `open_popup`: pop-up key and drain, never play. */
  function OpenPopupSpec(s: State, sec: nat): (r: State)
    ensures ClipNow(s).Missing? ==> r == s
    ensures KeepsSetup(s, r) && r.seek == s.seek
    ensures ClipNow(s).Found? ==> r.navOut == s.navOut + [BdUserInput(Pts(ClipNow(s).value.inTime, sec), VkPopup)]
  {
    match ClipNow(s)
    case Missing => s
    case Found(c) => PumpSpec(s.(navOut := s.navOut + [BdUserInput(Pts(c.inTime, sec), VkPopup)])).0
  }

  /** Jump to the end of the first-play title when the disc has one and the
      caller asks to skip it. */
  function SkipFirstPlaySpec(s: State, skipFirstPlay: bool): (r: State)
    ensures r == s.(navOut := r.navOut) && s.navOut <= r.navOut
    ensures r.navOut != s.navOut <==> s.disc.firstPlaySupported && skipFirstPlay
  {
    if s.disc.firstPlaySupported && skipFirstPlay
    then s.(navOut := s.navOut + [BdSeek(TitleEndPos(s.disc))]) else s
  }

  /** What `open_disc` does once a Blu-ray disc is detected: start the
      navigation engine, drain, optionally skip the first-play title, drain,
      end the current file and play. */
  function StartDiscSpec(s: State, path: string, skipFirstPlay: bool): (r: State)
    ensures r.dir == path && r.bdOpen == s.bdOpen && r.disc == s.disc
    ensures r.graphics == s.graphics && r.menuFlush == s.menuFlush
    ensures s.navOut + [BdGetEvent, BdPlay] <= r.navOut && s.navOut <= r.navOut
  {
    var s1 := s.(dir := path, navOut := s.navOut + [BdGetEvent] + [BdPlay], info := map[]);
    assert s1.navOut == s.navOut + [BdGetEvent, BdPlay];
    var s2 := PumpSpec(s1).0;
    var s3 := SkipFirstPlaySpec(s2, skipFirstPlay);
    var s4 := PumpSpec(s3).0;
    var s5 := EndFileSpec(s4);
    assert KeepsSetup(s1, s2) && KeepsSetup(s2, s4) && KeepsSetup(s4, s5);
    assert s1.navOut[..|s.navOut|] == s.navOut;
    assert s.navOut <= s1.navOut <= s3.navOut <= s5.navOut;
    var r := PlaySpec(s5);
    assert r.navOut == s5.navOut;
    r
  }

  /** `open_disc`: `disc` and `navReads` describe what the navigation engine
      finds at `path` and will deliver. */
  function OpenDiscSpec(s: State, path: string, skipFirstPlay: bool, disc: Disc, navReads: seq<NavRead>): (r: State)
    ensures r.bdOpen && r.disc == disc && r.graphics == s.graphics && r.menuFlush == s.menuFlush
    ensures (if s.bdOpen then s.navOut + [BdClose, BdOpen(path)] else s.navOut + [BdOpen(path)]) <= r.navOut
    ensures r.dir == (if disc.blurayDetected then path else s.dir)
    ensures !disc.blurayDetected ==> r.queue == navReads && r.info == s.info
  {
    var s0 := if s.bdOpen then s.(navOut := s.navOut + [BdClose]) else s;
    var s1 := s0.(navOut := s0.navOut + [BdOpen(path)], bdOpen := true, disc := disc, queue := navReads);
    assert s1.navOut == (if s.bdOpen then s.navOut + [BdClose, BdOpen(path)] else s.navOut + [BdOpen(path)]);
    if !disc.blurayDetected then s1
    else
      StartDiscSpec(s1, path, skipFirstPlay)
  }
}
