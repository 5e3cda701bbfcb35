/** What the widget promises, stated over the value model: the compositor's
    commands, the run-length raster, the event pump, `_play`, and the mpv and
    input handlers. */
module Properties {
  import opened Types
  import opened Overlay
  import opened Navigation
  import opened Playback
  import opened WidgetSpec

  // ---------------------------------------------------------------------
  // Compositor

  /** CLEAR and CLOSE empty the region list and withdraw the flush; FLUSH
      only sets the flag; every other command but DRAW changes nothing; a
      DRAW keeps the flag and the earlier regions and adds at most one. */
  lemma OverlayCommands(c: Compositor, n: OverlayNotice, convert: YuvToRgb)
    requires WellFormedNotice(n)
    ensures var r := ApplyOverlay(c, n, convert);
      && (n.Instruction? && (n.ov.cmd == Clear || n.ov.cmd == Close) ==> r.graphics == [] && !r.menuFlush)
      && (n.Instruction? && n.ov.cmd == Flush ==> r.graphics == c.graphics && r.menuFlush)
      && (n.Closed? || n.ov.cmd in {Init, Wipe, Hide} ==> r == c)
      && (n.Instruction? && n.ov.cmd == Draw ==>
            r.menuFlush == c.menuFlush && c.graphics <= r.graphics && |r.graphics| <= |c.graphics| + 1)
  {
  }

  /** A DRAW whose runs cover its rectangle appends one region at the end,
      with the instruction's rectangle, one pixel per cell and the colour
      table of its palette; when the runs add up to exactly the area, the
      pixels are the runs' expansion. */
  lemma DrawAppends(c: Compositor, ov: Overlay, convert: YuvToRgb)
    requires ov.cmd == Draw && |ov.palette| == PALETTE_SIZE
    requires RunsLength(ov.img) >= ov.w * ov.h
    ensures var r := ApplyOverlay(c, Instruction(ov), convert);
      && |r.graphics| == |c.graphics| + 1
      && r.graphics[..|c.graphics|] == c.graphics
      && r.menuFlush == c.menuFlush
      && var g := r.graphics[|c.graphics|];
      && g.x == ov.x && g.y == ov.y && g.w == ov.w && g.h == ov.h
      && |g.pixels| == ov.w * ov.h
      && g.colors == PaletteOf(ov.h, ov.palette, convert)
      && RunsConsumed(ov.img, ov.w * ov.h).Found? && g.pixels == Rasterize(ov.w * ov.h, ov.img)
      && (RunsLength(ov.img) == ov.w * ov.h ==> g.pixels == Expand(ov.img))
  {
    var r := ApplyOverlay(c, Instruction(ov), convert);
    RunsConsumedBounds(ov.img, ov.w * ov.h);
    assert r.graphics == c.graphics + [r.graphics[|c.graphics|]];
    if RunsLength(ov.img) == ov.w * ov.h {
      RasterizeExact(ov.img, ov.w * ov.h);
    }
  }

  /** A DRAW whose runs fall short of its rectangle is dropped. */
  lemma ShortDrawDropped(c: Compositor, ov: Overlay, convert: YuvToRgb)
    requires ov.cmd == Draw && |ov.palette| == PALETTE_SIZE
    requires RunsLength(ov.img) < ov.w * ov.h
    ensures ApplyOverlay(c, Instruction(ov), convert) == c
  {
  }

  /** Every notice of a sequence can be processed. */
  predicate AllWellFormed(ns: seq<OverlayNotice>) {
    forall i :: 0 <= i < |ns| ==> WellFormedNotice(ns[i])
  }

  /** The notices applied one after the other. */
  function ApplyAll(c: Compositor, ns: seq<OverlayNotice>, convert: YuvToRgb): Compositor
    requires AllWellFormed(ns)
    decreases |ns|
  {
    if ns == [] then c else ApplyAll(ApplyOverlay(c, ns[0], convert), ns[1..], convert)
  }

  predicate IsCommand(n: OverlayNotice, cmd: OverlayCmd) {
    n.Instruction? && n.ov.cmd == cmd
  }

  /** Nothing is painted until a FLUSH arrives, however many regions are
      drawn before it. */
  lemma {:induction false} HiddenUntilFlush(c: Compositor, ns: seq<OverlayNotice>, convert: YuvToRgb)
    requires AllWellFormed(ns)
    requires !c.menuFlush
    requires forall i :: 0 <= i < |ns| ==> !IsCommand(ns[i], Flush)
    ensures !ApplyAll(c, ns, convert).menuFlush
    ensures Composite(ApplyAll(c, ns, convert)) == []
    decreases |ns|
  {
    if ns != [] {
      assert !IsCommand(ns[0], Flush);
      HiddenUntilFlush(ApplyOverlay(c, ns[0], convert), ns[1..], convert);
    }
  }

  /** Without CLEAR or CLOSE, regions are only ever added after the existing
      ones, and a flush stays in force. */
  lemma {:induction false} RegionsKept(c: Compositor, ns: seq<OverlayNotice>, convert: YuvToRgb)
    requires AllWellFormed(ns)
    requires forall i :: 0 <= i < |ns| ==> !IsCommand(ns[i], Clear) && !IsCommand(ns[i], Close)
    ensures c.graphics <= ApplyAll(c, ns, convert).graphics
    ensures c.menuFlush ==> ApplyAll(c, ns, convert).menuFlush
    ensures c.menuFlush ==> Composite(ApplyAll(c, ns, convert)) == ApplyAll(c, ns, convert).graphics
    decreases |ns|
  {
    if ns != [] {
      assert !IsCommand(ns[0], Clear) && !IsCommand(ns[0], Close);
      RegionsKept(ApplyOverlay(c, ns[0], convert), ns[1..], convert);
    }
  }

  /** Once flushed, painting shows every region in list order; before, none. */
  lemma PaintOrder(c: Compositor)
    ensures c.menuFlush ==> Composite(c) == c.graphics
    ensures !c.menuFlush ==> Composite(c) == []
    ensures forall i :: 0 <= i < |Composite(c)| ==> Composite(c)[i] == c.graphics[i]
  {
  }

  // ---------------------------------------------------------------------
  // Run-length raster

  lemma RunsLengthMonotone(runs: seq<RleElem>, i: nat, j: nat)
    requires i <= j <= |runs|
    ensures RunsLength(runs[..i]) <= RunsLength(runs[..j])
  {
    assert runs[..j] == runs[..i] + runs[i..j];
    RunsLengthConcat(runs[..i], runs[i..j]);
  }

  /** Every pixel of the raster has the colour of the run covering its
      position. */
  lemma RasterPixel(area: nat, runs: seq<RleElem>, j: nat, k: nat)
    requires RunsConsumed(runs, area).Found?
    requires j < |runs| && k < area
    requires RunsLength(runs[..j]) <= k < RunsLength(runs[..j]) + runs[j].len
    ensures Rasterize(area, runs)[k] == runs[j].color
  {
    RunsConsumedBounds(runs, area);
    var n := RunsConsumed(runs, area).value;
    if n <= j {
      RunsLengthMonotone(runs, n, j);
      assert false;
    }
    var pre := runs[..n];
    assert pre[..j] == runs[..j];
    ExpandAt(pre, j, k);
  }

  // ---------------------------------------------------------------------
  // The event pump

  /** A drain takes the reads up to and including the first NONE or ERROR,
      or all of them when there is none, and leaves every later read queued;
      a PLAYLIST_STOP does not end it, since the nested drain carries on. */
  lemma PumpConsumes(s: State)
    ensures var n := DrainLength(s.queue);
      && PumpSpec(s).0.queue == s.queue[n..]
      && (s.queue != [] ==> n > 0)
      && (forall i :: 0 <= i < n - 1 ==> !IsTerminal(s.queue[i].event.kind))
      && (n > 0 ==> IsTerminal(s.queue[n - 1].event.kind) || n == |s.queue|)
  {
    var p := PumpFold(s);
    var s1 := s.(info := p.info, sid := p.sid, queue := s.queue[DrainLength(s.queue)..],
                 mpvOut := s.mpvOut + p.out);
    PlayTimesFrame(s1, p.stops);
    DrainStops(s.queue);
  }

  /** The table and the result of a drain, in terms of the events it met:
      each recorded except PLAYLIST_STOP, and the result true exactly when
      a position event was met and no PLAYLIST_STOP was. */
  lemma PumpSummary(s: State)
    ensures var evs := Drained(s.queue);
      && PumpSpec(s).0.info == Record(s.info, evs)
      && (PumpSpec(s).1 <==> CountStops(evs) == 0 && SeesPosition(evs))
  {
    var evs := Drained(s.queue);
    var p := PumpFold(s);
    FoldSummary(PumpState(s.info, s.sid, [], false, 0), evs);
    var s1 := s.(info := p.info, sid := p.sid, queue := s.queue[DrainLength(s.queue)..],
                 mpvOut := s.mpvOut + p.out);
    PlayTimesFrame(s1, p.stops);
  }

  /** After a drain the table holds, for each kind other than PLAYLIST_STOP
      that the drain met, the parameter of the last event of that kind. */
  lemma PumpRecordsLast(s: State, i: nat)
    requires i < |Drained(s.queue)| && Drained(s.queue)[i].kind != PlaylistStop
    requires forall j :: i < j < |Drained(s.queue)| ==> Drained(s.queue)[j].kind != Drained(s.queue)[i].kind
    ensures Info(PumpSpec(s).0.info, Drained(s.queue)[i].kind) == Drained(s.queue)[i].param
  {
    PumpSummary(s);
    RecordLast(s.info, Drained(s.queue), i);
  }

  /** A drain that returns true met no PLAYLIST_STOP, so `_play` did not run:
      the state is the plain fold of the drained events. */
  lemma PumpTrueNoPlay(s: State)
    ensures var p := PumpFold(s);
      PumpSpec(s).1 ==>
        && p.stops == 0
        && PumpSpec(s).0 == s.(info := p.info, sid := p.sid, queue := s.queue[DrainLength(s.queue)..],
                              mpvOut := s.mpvOut + p.out)
  {
  }

  /** Kinds a drain did not meet, and PLAYLIST_STOP always, keep their entry. */
  lemma PumpLeavesOthers(s: State, k: EventKind)
    requires k == PlaylistStop || forall j :: 0 <= j < |Drained(s.queue)| ==> Drained(s.queue)[j].kind != k
    ensures (k in PumpSpec(s).0.info <==> k in s.info)
    ensures Info(PumpSpec(s).0.info, k) == Info(s.info, k)
  {
    PumpSummary(s);
    RecordUntouched(s.info, Drained(s.queue), k);
  }

  /** What one event other than PLAYLIST_STOP sends to mpv or signals, and
      what it does to the stored subtitle id. */
  lemma EventSignals(p: PumpState, e: BdEvent)
    requires e.kind != PlaylistStop
    ensures var g := Step(p, e);
      && (e.kind == UoMaskChanged ==> g.out == p.out + [MenuButton(e.param % 2 == 0)])
      && (e.kind == Popup ==> g.out == p.out + [PopupButton(e.param != 0)])
      && (e.kind == PgTextSt ==> g.out == p.out + [SetSid(if e.param != 0 then p.sid else 0)])
      && (e.kind == AudioStream ==> g.out == p.out + [SetAid(e.param)])
      && (e.kind == PgTextStStream ==>
            g.out == p.out + (if Info(p.info, PgTextSt) != 0 then [SetSid(e.param)] else []))
      && (e.kind !in {UoMaskChanged, Popup, PgTextSt, AudioStream, PgTextStStream} ==> g.out == p.out)
      && g.sid == (if e.kind == PgTextStStream then e.param else p.sid)
      && g.newPlay == (p.newPlay || e.kind in {Angle, Title, Playlist, PlayItem, PlayMark, Chapter})
      && g.stops == p.stops
  {
    assert p.out + [] == p.out;
  }

  // ---------------------------------------------------------------------
  // `_play`

  /** `_play` loads the current clip's stream file once its lookups succeed,
      sets the deferred start time only inside a title, and changes nothing
      else; when a lookup fails it does nothing. */
  lemma PlayEffect(s: State)
    ensures var t := PlaySpec(s);
      && t == s.(startTime := t.startTime, mpvOut := t.mpvOut)
      && (Info(s.info, Title) == 0 ==> t.startTime == s.startTime)
      && (if s.bdOpen && ClipNow(s).Found?
             && (Info(s.info, Title) != 0 ==> ChapterIndex(s.info) < |PlaylistNow(s).value.chapters|)
          then t.mpvOut == s.mpvOut + [LoadFile(StreamPath(s.dir, ClipNow(s).value.clipId))]
          else t == s)
  {
  }

  /** Inside a title, when no clip before the current one ends before it
      starts and their lengths do not exceed the chapter's start, the
      deferred start time is (chapter start - lengths of the preceding clips)
      / 90000, in whole seconds. */
  lemma PlayStartTime(s: State)
    requires s.bdOpen && ClipNow(s).Found? && Info(s.info, Title) != 0
    requires ChapterIndex(s.info) < |PlaylistNow(s).value.chapters|
    requires var t := PlaylistNow(s).value;
      forall i :: 0 <= i < Info(s.info, PlayItem) ==> t.clips[i].inTime <= t.clips[i].outTime
    requires var t := PlaylistNow(s).value;
      ExactPrecedingTicks(t.clips, Info(s.info, PlayItem)) <= t.chapters[ChapterIndex(s.info)].start
    ensures var t := PlaylistNow(s).value;
      PlaySpec(s).startTime
        == (t.chapters[ChapterIndex(s.info)].start - ExactPrecedingTicks(t.clips, Info(s.info, PlayItem))) / 90000
  {
    var t := PlaylistNow(s).value;
    ChapterStartExact(t.chapters[ChapterIndex(s.info)].start, t.clips, Info(s.info, PlayItem));
  }

  // ---------------------------------------------------------------------
  // Handlers

  /** A new widget has no regions and paints nothing, has no disc open, no
      pending seek, subtitle id 0 and no deferred start time. */
  lemma InitialState()
    ensures Composite(CompositorOf(Initial)) == [] && Initial.graphics == []
    ensures !Initial.bdOpen && !Initial.seek && Initial.sid == 0 && Initial.startTime == 0
    ensures forall k :: Info(Initial.info, k) == 0
  {
  }

  /** Without an open disc the input handlers, `update_player_info`,
      `player_end_file`, `open_menu`, `open_popup` and `_play` do nothing. */
  lemma NoDiscNoEffect(s: State, key: QtKey, sec: nat, x: u16, y: u16)
    requires !s.bdOpen
    ensures KeyPressSpec(s, key, sec) == s
    ensures MousePressSpec(s, sec, x, y) == s
    ensures MouseDoubleClickSpec(s, sec) == s
    ensures UpdatePlayerInfoSpec(s, sec) == s
    ensures EndFileSpec(s) == s
    ensures OpenMenuSpec(s, sec) == s
    ensures OpenPopupSpec(s, sec) == s
    ensures PlaySpec(s) == s
  {
  }

  /** The mouse is ignored outside a menu. */
  lemma MouseNeedsMenu(s: State, sec: nat, x: u16, y: u16)
    requires Info(s.info, Menu) == 0
    ensures MousePressSpec(s, sec, x, y) == s
    ensures MouseDoubleClickSpec(s, sec) == s
  {
  }

  /** A click in a menu sends one selection at the clip's in-point plus the
      playback position, and nothing else. */
  lemma MouseSelects(s: State, sec: nat, x: u16, y: u16)
    requires s.bdOpen && Info(s.info, Menu) != 0 && ClipNow(s).Found?
    ensures MousePressSpec(s, sec, x, y)
      == s.(navOut := s.navOut + [BdMouseSelect(Pts(ClipNow(s).value.inTime, sec), x, y)])
  {
  }

  /** A drain followed by `_play` calls nothing on the navigation engine but
      reads, and keeps the disc, the regions and the pending-seek marker. */
  lemma PumpPlayFrame(s: State)
    ensures var t := PlaySpec(PumpSpec(s).0);
      && t.navOut == s.navOut && t.graphics == s.graphics && t.menuFlush == s.menuFlush
      && t.bdOpen == s.bdOpen && t.disc == s.disc && t.dir == s.dir && t.seek == s.seek
      && s.mpvOut <= t.mpvOut
  {
    PumpFrame(s);
    PlayTimesFrame(PumpSpec(s).0, 1);
  }

  /** Activating a button sends exactly one user input to the navigation
      engine; the rest is drained reads and possibly a `_play`. */
  lemma ActivateSendsOne(s: State, pts: u64, key: VKey)
    ensures var t := ActivateSpec(s, pts, key);
      && t.navOut == s.navOut + [BdUserInput(pts, key)]
      && t.graphics == s.graphics && t.disc == s.disc && t.bdOpen == s.bdOpen && t.seek == s.seek
  {
    var s0 := s.(navOut := s.navOut + [BdUserInput(pts, key)]);
    PumpFrame(s0);
    PlayTimesFrame(PumpSpec(s0).0, 1);
  }

  /** After the user input, `_play` follows exactly when the drain reports a
      new position. */
  lemma ActivateThenPlay(s: State, pts: u64, key: VKey)
    ensures var (s1, newPlay) := PumpSpec(s.(navOut := s.navOut + [BdUserInput(pts, key)]));
      ActivateSpec(s, pts, key) == (if newPlay then PlaySpec(s1) else s1)
  {
  }

  /** Return, and a double click in a menu, activate at the clip's in-point
      plus the playback position. */
  lemma EnterAndDoubleClickActivate(s: State, sec: nat)
    requires s.bdOpen && ClipNow(s).Found?
    ensures var pts := Pts(ClipNow(s).value.inTime, sec);
      && KeyPressSpec(s, KeyReturn, sec) == ActivateSpec(s, pts, VkEnter)
      && (Info(s.info, Menu) != 0 ==> MouseDoubleClickSpec(s, sec) == ActivateSpec(s, pts, VkMouseActivate))
  {
  }

  /** END_FILE acts only for the EOF reason; a time-pos change signals the
      position and, with a disc outside a title, refreshes the player info;
      a duration change only signals the duration. */
  lemma MpvEventBranches(s: State, reason: EndReason, v: Lookup<int>, sec: nat)
    ensures HandleMpvEventSpec(s, EndFile(reason), sec) == (if reason == Eof then EndFileSpec(s) else s)
    ensures var s1 := if v.Found? then s.(mpvOut := s.mpvOut + [PositionChanged(v.value)]) else s;
      HandleMpvEventSpec(s, PropertyChange(TimePos, v), sec)
        == (if s.bdOpen && Info(s.info, Title) == 0 then UpdatePlayerInfoSpec(s1, sec) else s1)
    ensures HandleMpvEventSpec(s, PropertyChange(Duration, v), sec).mpvOut
        == s.mpvOut + (if v.Found? then [DurationChanged(v.value)] else [])
    ensures HandleMpvEventSpec(s, PropertyChange(Duration, v), sec)
        == s.(mpvOut := HandleMpvEventSpec(s, PropertyChange(Duration, v), sec).mpvOut)
  {
    assert s.mpvOut + [] == s.mpvOut;
  }

  /** The arrow keys send their key at the clip's in-point plus the playback
      position and do nothing more; Return sends ENTER and drains; other keys
      do nothing. */
  lemma KeysSent(s: State, key: QtKey, sec: nat)
    requires s.bdOpen && ClipNow(s).Found?
    ensures var pts := Pts(ClipNow(s).value.inTime, sec);
      && (key in {KeyLeft, KeyRight, KeyUp, KeyDown} ==>
            KeyPressSpec(s, key, sec) == s.(navOut := s.navOut + [BdUserInput(pts, KeyCode(key).value)]))
      && (key == KeyReturn ==> KeyPressSpec(s, key, sec).navOut == s.navOut + [BdUserInput(pts, VkEnter)])
      && (key == OtherKey ==> KeyPressSpec(s, key, sec) == s)
  {
    ActivateSendsOne(s, Pts(ClipNow(s).value.inTime, sec), VkEnter);
  }

  /** At the end of a clip the navigation engine is moved once: to the end
      of the title when the clip ends the playlist, otherwise to the tick at
      which the clip ends. */
  lemma EndFileMoves(s: State)
    requires ClipNow(s).Found? && PlaylistNow(s).Found?
    ensures var c := ClipNow(s).value;
      var t := EndFileSpec(s);
      && t.navOut == s.navOut + [if ClipEnd(c) == PlaylistNow(s).value.duration
                                 then BdSeek(TitleEndPos(s.disc)) else BdSeekTime(ClipEnd(c))]
      && t.graphics == s.graphics && t.disc == s.disc && t.bdOpen == s.bdOpen && t.dir == s.dir
  {
    var c := ClipNow(s).value;
    var duration := PlaylistNow(s).value.duration;
    if ClipEnd(c) == duration {
      PumpFrame(ReadToEofSpec(s));
    }
    PumpPlayFrame(EndFileSeekSpec(s, c, duration));
  }

  /** The deferred start time is applied once: the first FILE_LOADED seeks
      mpv to it and clears it, a second does nothing. */
  lemma DeferredSeekOnce(s: State, sec: nat, sec2: nat)
    ensures var s1 := HandleMpvEventSpec(s, FileLoaded, sec);
      && s1.startTime == 0
      && (s.startTime != 0 ==> s1.mpvOut == s.mpvOut + [SetTimePos(s.startTime)])
      && (s.startTime == 0 ==> s1 == s)
      && HandleMpvEventSpec(s1, FileLoaded, sec2) == s1
  {
  }

  /** A seek followed by the playback restart moves the navigation engine to
      the clip's start time plus the position, once, and clears the marker;
      a restart without a seek does nothing. */
  lemma SeekThenRestart(s: State, sec: nat)
    ensures HandleMpvEventSpec(s.(seek := false), PlaybackRestart, sec) == s.(seek := false)
    ensures var t := HandleMpvEventSpec(HandleMpvEventSpec(s, SeekEvent, sec), PlaybackRestart, sec);
      && !t.seek
      && t.navOut == s.navOut + (if s.bdOpen && ClipNow(s).Found?
                                 then [BdSeekTime(Pts(ClipNow(s).value.startTime, sec))] else [])
  {
    var s1 := s.(seek := true);
    assert s.navOut + [] == s.navOut;
    if s1.bdOpen && ClipNow(s1).Found? {
      PumpFrame(s1.(navOut := s1.navOut + [BdSeekTime(Pts(ClipNow(s1).value.startTime, sec))]));
    }
  }

  /** `open_menu` sends one menu call, drains and always ends with `_play`;
      `open_popup` sends the pop-up key and drains, without `_play`. */
  lemma MenuCalls(s: State, sec: nat)
    requires ClipNow(s).Found?
    ensures var pts := Pts(ClipNow(s).value.inTime, sec);
      && OpenMenuSpec(s, sec).navOut == s.navOut + [BdMenuCall(pts)]
      && OpenPopupSpec(s, sec).navOut == s.navOut + [BdUserInput(pts, VkPopup)]
      && OpenMenuSpec(s, sec) == PlaySpec(PumpSpec(s.(navOut := s.navOut + [BdMenuCall(pts)])).0)
      && OpenPopupSpec(s, sec) == PumpSpec(s.(navOut := s.navOut + [BdUserInput(pts, VkPopup)])).0
  {
    var pts := Pts(ClipNow(s).value.inTime, sec);
    PumpPlayFrame(s.(navOut := s.navOut + [BdMenuCall(pts)]));
    PumpFrame(s.(navOut := s.navOut + [BdUserInput(pts, VkPopup)]));
  }

  predicate NoLoad(out: seq<MpvOut>) {
    forall i :: 0 <= i < |out| ==> !out[i].LoadFile?
  }

  /** The pump itself never loads a file; only `_play` does. */
  lemma {:induction false} FoldNeverLoads(p: PumpState, evs: seq<BdEvent>)
    requires NoLoad(p.out)
    ensures NoLoad(Fold(p, evs).out)
    decreases |evs|
  {
    if evs != [] {
      var g := Step(p, evs[0]);
      assert g.out == p.out || g.out == p.out + Emitted(p.info, p.sid, evs[0]);
      FoldNeverLoads(g, evs[1..]);
    }
  }

  /** `open_popup` never plays: unless the drain meets a PLAYLIST_STOP (whose
      nested `_play` is the drain's own), nothing it sends to mpv loads a
      file. */
  lemma PopupNeverPlays(s: State, sec: nat)
    requires ClipNow(s).Found? && CountStops(Drained(s.queue)) == 0
    ensures var t := OpenPopupSpec(s, sec);
      && s.mpvOut <= t.mpvOut
      && NoLoad(t.mpvOut[|s.mpvOut|..])
  {
    var s1 := s.(navOut := s.navOut + [BdUserInput(Pts(ClipNow(s).value.inTime, sec), VkPopup)]);
    var p0 := PumpState(s1.info, s1.sid, [], false, 0);
    FoldSummary(p0, Drained(s1.queue));
    FoldNeverLoads(p0, Drained(s1.queue));
    var t := OpenPopupSpec(s, sec);
    assert t.mpvOut[|s.mpvOut|..] == PumpFold(s1).out;
  }

  /** Opening a path closes the disc open before, opens the new one and,
      when it holds a Blu-ray disc, starts navigation (GET_EVENT, PLAY) and
      records the directory; the disc stays open in either case. */
  lemma OpenDiscCalls(s: State, path: string, skip: bool, disc: Disc, navReads: seq<NavRead>)
    ensures var t := OpenDiscSpec(s, path, skip, disc, navReads);
      var calls := (if s.bdOpen then [BdClose] else []) + [BdOpen(path)];
      && t.bdOpen && t.disc == disc && t.graphics == s.graphics
      && (!disc.blurayDetected ==> t.navOut == s.navOut + calls && t.dir == s.dir && t.queue == navReads)
      && (disc.blurayDetected ==> s.navOut + calls + [BdGetEvent, BdPlay] <= t.navOut && t.dir == path)
  {
    var s0 := if s.bdOpen then s.(navOut := s.navOut + [BdClose]) else s;
    var s1 := s0.(navOut := s0.navOut + [BdOpen(path)], bdOpen := true, disc := disc, queue := navReads);
    assert s1.navOut == s.navOut + ((if s.bdOpen then [BdClose] else []) + [BdOpen(path)]);
    if disc.blurayDetected {
      StartDiscFrame(s1, path, skip);
    }
  }

  /** Starting a disc sends GET_EVENT and PLAY first, records the directory
      and keeps the disc open and the regions. */
  lemma StartDiscFrame(s: State, path: string, skip: bool)
    ensures var t := StartDiscSpec(s, path, skip);
      && s.navOut + [BdGetEvent, BdPlay] <= t.navOut
      && t.dir == path && t.bdOpen == s.bdOpen && t.disc == s.disc && t.graphics == s.graphics
  {
    var s1 := s.(dir := path, navOut := s.navOut + [BdGetEvent] + [BdPlay], info := map[]);
    PumpFrame(s1);
    var s2 := PumpSpec(s1).0;
    var s3 := SkipFirstPlaySpec(s2, skip);
    PumpFrame(s3);
    var s4 := PumpSpec(s3).0;
    EndFileFrame(s4);
    PlayTimesFrame(EndFileSpec(s4), 1);
  }

  /** `player_end_file` only adds calls to the navigation engine and keeps
      the directory, the disc and the regions. */
  lemma EndFileFrame(s: State)
    ensures var t := EndFileSpec(s);
      && s.navOut <= t.navOut
      && t.dir == s.dir && t.bdOpen == s.bdOpen && t.disc == s.disc && t.graphics == s.graphics
  {
    if ClipNow(s).Found? && PlaylistNow(s).Found? {
      EndFileMoves(s);
    }
  }
}
