/** `MpvWidget`: the player widget whose methods update its fields in place.
    Each method is proved to take the widget from state `s` to the state the
    matching function of module WidgetSpec gives for `s`. */
module Widget {
  import opened Types
  import opened Overlay
  import opened Navigation
  import opened Playback
  import opened WidgetSpec

  /** A PLAYLIST_STOP met by a drain: the drain's effect is that of the
      nested drain on the reads after it, followed by `_play`, and its result
      is false. */
  lemma PumpAfterStop(s0: State, cur: State, p: PumpState)
    requires p.stops == 1
    requires cur == s0.(info := p.info, sid := p.sid, queue := cur.queue, mpvOut := s0.mpvOut + p.out)
    requires Fold(p, Drained(cur.queue)) == PumpFold(s0)
    requires cur.queue[DrainLength(cur.queue)..] == s0.queue[DrainLength(s0.queue)..]
    ensures PumpSpec(s0) == (PlaySpec(PumpSpec(cur).0), false)
  {
    var f := PumpFold(cur);
    assert Fresh(p) == PumpState(cur.info, cur.sid, [], false, 0);
    FoldShift(p, Drained(cur.queue));
    var g := PumpFold(s0);
    assert g == Then(p, f);
    ConcatAssoc(s0.mpvOut, p.out, f.out);
    var s1 := cur.(info := f.info, sid := f.sid, queue := cur.queue[DrainLength(cur.queue)..],
                   mpvOut := cur.mpvOut + f.out);
    assert PumpSpec(s0).0 == PlayTimes(s1, f.stops + 1);
    assert PumpSpec(cur).0 == PlayTimes(s1, f.stops);
  }

  /** A drain begun in `s0` has accumulated `p` and has `q` left to read:
      finishing it from here gives the whole drain's fold and leaves the same
      reads behind. */
  ghost predicate Draining(s0: State, p: PumpState, q: seq<NavRead>) {
    && Fold(p, Drained(q)) == PumpFold(s0)
    && q[DrainLength(q)..] == s0.queue[DrainLength(s0.queue)..]
  }

  /** One read of a drain: either the drain goes on from the reads after it,
      or the read ended it and the widget's state is the one `PumpSpec`
      describes. */
  lemma DrainAdvance(s0: State, p: PumpState, q: seq<NavRead>)
    requires Draining(s0, p, q)
    ensures var e := NextRead(q).event;
      var g := Step(p, e);
      && (!IsTerminal(e.kind) ==> q != [] && AfterRead(q) == q[1..] && Draining(s0, g, q[1..]))
      && (IsTerminal(e.kind) && p.stops == 0 ==>
            PumpSpec(s0) == (s0.(info := g.info, sid := g.sid, queue := AfterRead(q), mpvOut := s0.mpvOut + g.out), g.newPlay))
  {
    FoldDrainStep(p, q);
  }

  class MpvWidget {
    /** The menu regions received from the navigation engine, in order. */
    var graphics: seq<Graphic>
    /** Whether the regions have been flushed and may be painted. */
    var menuFlush: bool
    /** Whether a navigation engine handle is open (`bd != NULL`). */
    var bdOpen: bool
    /** The disc directory last opened successfully. */
    var dir: string
    /** The player info table. */
    var info: PlayerInfo
    /** Set by a seek, consumed by the next playback restart. */
    var seek: bool
    /** The subtitle stream id last announced. */
    var sid: u32
    /** The deferred start time in seconds, 0 for none. */
    var startTime: u64
    /** The navigation engine: the reads it will deliver, and the disc. */
    var queue: seq<NavRead>
    var disc: Disc
    /** Everything sent to the playback engine and emitted as signals. */
    var mpvOut: seq<MpvOut>
    /** Every call made into the navigation engine. */
    var navOut: seq<NavCall>

    function Snapshot(): State
      reads this
    {
      State(graphics, menuFlush, bdOpen, dir, info, seek, sid, startTime, queue, disc, mpvOut, navOut)
    }

    constructor ()
      ensures Snapshot() == Initial
    {
      graphics := [];
      menuFlush := false;
      bdOpen := false;
      dir := "";
      info := map[];
      seek := false;
      sid := 0;
      startTime := 0;
      queue := [];
      disc := NoDisc;
      mpvOut := [];
      navOut := [];
    }

    /** `paintGL`'s overlay pass: the regions painted over the frame. */
    method PaintOverlays() returns (drawn: seq<Graphic>)
      ensures drawn == Composite(CompositorOf(Snapshot()))
    {
      drawn := [];
      if !menuFlush {
        return;
      }
      for i := 0 to |graphics|
        invariant drawn == graphics[..i]
      {
        drawn := drawn + [graphics[i]];
      }
    }

    /** `_overlay_cb`: `n` is the instruction, or Closed for a null one. */
    method OverlayCallback(n: OverlayNotice, convert: YuvToRgb)
      requires WellFormedNotice(n)
      modifies this
      ensures Snapshot() == OverlaySpec(old(Snapshot()), n, convert)
    {
      if n.Closed? {
        return;
      }
      var ov := n.ov;
      if ov.cmd == Clear || ov.cmd == Close {
        menuFlush := false;
        graphics := [];
        return;
      }
      if ov.cmd == Flush {
        menuFlush := true;
      }
      if ov.cmd != Draw {
        return;
      }
      var colors := BuildPalette(ov.h, ov.palette, convert);
      var ok, raster := DecodeRle(ov.w, ov.h, ov.img);
      if !ok {
        return;
      }
      assert colors == PaletteOf(ov.h, ov.palette, convert);
      graphics := graphics + [Graphic(ov.x, ov.y, ov.w, ov.h, raster[..], colors)];
    }

    /** `bd_read_ext`: take the next read off the queue. */
    method ReadNav() returns (r: NavRead)
      modifies this
      ensures r == NextRead(old(queue))
      ensures Snapshot() == old(Snapshot()).(queue := AfterRead(old(queue)))
    {
      if queue == [] {
        r := ExhaustedRead;
      } else {
        r := queue[0];
        queue := queue[1..];
      }
    }

    /** Call into the navigation engine. */
    method Call(c: NavCall)
      modifies this
      ensures Snapshot() == old(Snapshot()).(navOut := old(navOut) + [c])
    {
      navOut := navOut + [c];
    }

    /** Send a command or emit a signal. */
    method Emit(m: MpvOut)
      modifies this
      ensures Snapshot() == old(Snapshot()).(mpvOut := old(mpvOut) + [m])
    {
      mpvOut := mpvOut + [m];
    }

    /** The `switch` of `_wait_idle` on one event other than PLAYLIST_STOP,
        followed by recording its parameter; `newPlayIn` is the flag so far. */
    method Dispatch(ev: BdEvent, newPlayIn: bool) returns (newPlay: bool)
      requires ev.kind != PlaylistStop
      modifies this
      ensures newPlay == (newPlayIn || IsPositionKind(ev.kind))
      ensures Snapshot() == old(Snapshot()).(info := old(info)[ev.kind := ev.param], sid := NextSid(old(sid), ev),
                                             mpvOut := old(mpvOut) + Emitted(old(info), old(sid), ev))
    {
      newPlay := newPlayIn;
      if ev.kind == Popup {
        Emit(PopupButton(ev.param != 0));
      } else if ev.kind == UoMaskChanged {
        Emit(MenuButton(MenuCallAllowed(ev.param)));
      } else if ev.kind == PgTextSt {
        Emit(SetSid(if ev.param != 0 then sid else 0));
      } else if ev.kind == AudioStream {
        Emit(SetAid(ev.param));
      } else if ev.kind == PgTextStStream {
        sid := ev.param;
        if Info(info, PgTextSt) != 0 {
          Emit(SetSid(ev.param));
        } else {
          assert mpvOut + [] == mpvOut;
        }
      } else if IsPositionKind(ev.kind) {
        newPlay := true;
        assert mpvOut + [] == mpvOut;
      } else {
        assert mpvOut + [] == mpvOut;
      }
      info := info[ev.kind := ev.param];
    }

    /** One non-stop event of `_wait_idle`, seen against the drain's fold:
        the widget moves from the state `p` describes to the one `Step`
        gives. */
    method Absorb(ghost s0: State, ghost p: PumpState, ev: BdEvent, newPlayIn: bool) returns (newPlay: bool)
      requires ev.kind != PlaylistStop && newPlayIn == p.newPlay
      requires Snapshot() == s0.(info := p.info, sid := p.sid, queue := queue, mpvOut := s0.mpvOut + p.out)
      modifies this
      ensures var g := Step(p, ev);
        && newPlay == g.newPlay && g.stops == p.stops
        && Snapshot() == s0.(info := g.info, sid := g.sid, queue := old(queue), mpvOut := s0.mpvOut + g.out)
    {
      newPlay := Dispatch(ev, newPlayIn);
      ConcatAssoc(s0.mpvOut, p.out, Emitted(p.info, p.sid, ev));
    }

    /** `_wait_idle`. */
    method WaitIdle() returns (newPlay: bool)
      modifies this
      ensures (Snapshot(), newPlay) == PumpSpec(old(Snapshot()))
      decreases |queue|, 0
    {
      ghost var s0 := Snapshot();
      ghost var p := PumpState(info, sid, [], false, 0);
      newPlay := false;
      while true
        invariant p.stops == 0 && newPlay == p.newPlay
        invariant Snapshot() == s0.(info := p.info, sid := p.sid, queue := queue, mpvOut := s0.mpvOut + p.out)
        invariant Draining(s0, p, queue)
        decreases |queue|
      {
        DrainAdvance(s0, p, queue);
        var r := ReadNav();
        var ev := r.event;
        if ev.kind == PlaylistStop {
          ResumeAfterStop(s0, Step(p, ev));
          newPlay := false;
          return;
        }
        newPlay := Absorb(s0, p, ev, newPlay);
        p := Step(p, ev);
        if IsTerminal(ev.kind) {
          return;
        }
      }
    }

    /** The PLAYLIST_STOP case of `_wait_idle`: a nested `_wait_idle`, then
        `_play`. `s0` is the state the enclosing drain started from and `p`
        what it has accumulated up to and including the stop. */
    method ResumeAfterStop(ghost s0: State, ghost p: PumpState)
      requires p.stops == 1
      requires Snapshot() == s0.(info := p.info, sid := p.sid, queue := queue, mpvOut := s0.mpvOut + p.out)
      requires Draining(s0, p, queue)
      modifies this
      ensures (Snapshot(), false) == PumpSpec(s0)
      decreases |queue|, 1
    {
      PumpAfterStop(s0, Snapshot(), p);
      var _ := WaitIdle();
      Play();
    }

    /** `_play`. */
    method Play()
      modifies this
      ensures Snapshot() == PlaySpec(old(Snapshot()))
    {
      if !bdOpen {
        return;
      }
      var found := PlaylistOf(disc, info);
      if found.Missing? {
        return;
      }
      var t := found.value;
      var item := Info(info, PlayItem);
      if item >= |t.clips| {
        return;
      }
      var clip := t.clips[item];
      ghost var plan := PlayPlan(StreamPath(dir, clip.clipId), Missing);
      if Info(info, Title) != 0 {
        var ch := (Info(info, Chapter) - 1) % TWO_32;
        if ch >= |t.chapters| {
          return;
        }
        var chapterStart: u64 := t.chapters[ch].start;
        var i := 0;
        while i < item
          invariant 0 <= i <= item
          invariant unchanged(this)
          invariant chapterStart == ChapterStartTicks(t.chapters[ch].start, t.clips, i)
        {
          ChapterStartStep(t.chapters[ch].start, t.clips, i);
          var c := t.clips[i];
          chapterStart := Wrap64(chapterStart - Wrap64(c.outTime - c.inTime));
          i := i + 1;
        }
        plan := plan.(startTime := Found(chapterStart / START_TIME_DIVISOR));
        startTime := chapterStart / START_TIME_DIVISOR;
      }
      assert PlanPlay(disc, info, dir) == Found(plan);
      Emit(LoadFile(StreamPath(dir, clip.clipId)));
    }

    /** `_read_to_eof`. */
    method ReadToEndOfTitle()
      modifies this
      ensures Snapshot() == ReadToEofSpec(old(Snapshot()))
    {
      ghost var s0 := Snapshot();
      Call(BdSeek(Wrap64(disc.titleSize - 1)));
      var going := true;
      while going
        invariant Snapshot() == s0.(navOut := navOut, info := info, queue := queue)
        invariant navOut == s0.navOut + [BdSeek(TitleEndPos(s0.disc))]
        invariant going ==> ReadToEof(info, queue) == ReadToEof(s0.info, s0.queue)
        invariant !going ==> (info, queue) == ReadToEof(s0.info, s0.queue)
        decreases |queue| + (if going then 1 else 0)
      {
        var r := ReadNav();
        if r.event.kind == EndOfTitle {
          going := false;
        } else {
          info := info[r.event.kind := r.event.param];
          going := r.bytes >= 0;
        }
      }
    }

    /** `update_player_info`; `sec` is mpv's `time-pos` in whole seconds. */
    method UpdatePlayerInfo(sec: nat)
      modifies this
      ensures Snapshot() == UpdatePlayerInfoSpec(old(Snapshot()), sec)
    {
      if !bdOpen {
        return;
      }
      var clip := ClipNow(Snapshot());
      if clip.Missing? {
        return;
      }
      Call(BdSeekTime(Pts(clip.value.startTime, sec)));
      var _ := WaitIdle();
    }

    /** The first half of `player_end_file`, for clip `c` of a playlist
        lasting `duration` ticks. */
    method EndFileSeek(c: ClipInfo, duration: u64)
      modifies this
      ensures Snapshot() == EndFileSeekSpec(old(Snapshot()), c, duration)
    {
      ghost var s0 := Snapshot();
      var time := Wrap64(c.startTime + c.outTime - c.inTime);
      assert time == ClipEnd(c);
      if time == duration {
        ReadToEndOfTitle();
        ghost var s1 := Snapshot();
        assert s1 == ReadToEofSpec(s0);
        var _ := WaitIdle();
        assert Snapshot() == PumpSpec(s1).0;
      } else {
        Call(BdSeekTime(time));
      }
    }

    /** `player_end_file`. */
    method PlayerEndFile()
      modifies this
      ensures Snapshot() == EndFileSpec(old(Snapshot()))
    {
      var clip := ClipNow(Snapshot());
      var title := PlaylistNow(Snapshot());
      if clip.Missing? || title.Missing? {
        return;
      }
      EndFileSeek(clip.value, title.value.duration);
      var _ := WaitIdle();
      Play();
    }

    /** `handle_mpv_event`; `sec` is mpv's `time-pos` in whole seconds. */
    method HandleMpvEvent(ev: MpvEvent, sec: nat)
      modifies this
      ensures Snapshot() == HandleMpvEventSpec(old(Snapshot()), ev, sec)
    {
      match ev
      case PropertyChange(name, v) =>
        if name == TimePos {
          if v.Found? {
            Emit(PositionChanged(v.value));
          }
          if bdOpen && Info(info, Title) == 0 {
            UpdatePlayerInfo(sec);
          }
        } else if name == Duration {
          if v.Found? {
            Emit(DurationChanged(v.value));
          }
        }
      case SeekEvent =>
        seek := true;
      case PlaybackRestart =>
        if seek {
          UpdatePlayerInfo(sec);
          seek := false;
        }
      case EndFile(reason) =>
        if reason == Eof {
          PlayerEndFile();
        }
      case FileLoaded =>
        if startTime != 0 {
          Emit(SetTimePos(startTime));
          startTime := 0;
        }
      case OtherEvent =>
    }

    /** `keyPressEvent`. */
    method KeyPressEvent(key: QtKey, sec: nat)
      modifies this
      ensures Snapshot() == KeyPressSpec(old(Snapshot()), key, sec)
    {
      if !bdOpen {
        return;
      }
      var clip := ClipNow(Snapshot());
      if clip.Missing? {
        return;
      }
      var pts := Pts(clip.value.inTime, sec);
      match key
      case KeyLeft =>
        Call(BdUserInput(pts, VkLeft));
      case KeyRight =>
        Call(BdUserInput(pts, VkRight));
      case KeyUp =>
        Call(BdUserInput(pts, VkUp));
      case KeyDown =>
        Call(BdUserInput(pts, VkDown));
      case KeyReturn =>
        Call(BdUserInput(pts, VkEnter));
        var newPlay := WaitIdle();
        if newPlay {
          Play();
        }
      case OtherKey =>
    }

    /** `mousePressEvent`; `x`, `y` are the mouse position in the navigation
        engine's coordinates. */
    method MousePressEvent(sec: nat, x: u16, y: u16)
      modifies this
      ensures Snapshot() == MousePressSpec(old(Snapshot()), sec, x, y)
    {
      if !bdOpen || Info(info, Menu) == 0 {
        return;
      }
      var clip := ClipNow(Snapshot());
      if clip.Missing? {
        return;
      }
      Call(BdMouseSelect(Pts(clip.value.inTime, sec), x, y));
    }

    /** `mouseDoubleClickEvent`. */
    method MouseDoubleClickEvent(sec: nat)
      modifies this
      ensures Snapshot() == MouseDoubleClickSpec(old(Snapshot()), sec)
    {
      if !bdOpen || Info(info, Menu) == 0 {
        return;
      }
      var clip := ClipNow(Snapshot());
      if clip.Missing? {
        return;
      }
      Call(BdUserInput(Pts(clip.value.inTime, sec), VkMouseActivate));
      var newPlay := WaitIdle();
      if newPlay {
        Play();
      }
    }

    /** `open_menu`. */
    method OpenMenu(sec: nat)
      modifies this
      ensures Snapshot() == OpenMenuSpec(old(Snapshot()), sec)
    {
      var clip := ClipNow(Snapshot());
      if clip.Missing? {
        return;
      }
      Call(BdMenuCall(Pts(clip.value.inTime, sec)));
      var _ := WaitIdle();
      Play();
    }

    /** `open_popup`. */
    method OpenPopup(sec: nat)
      modifies this
      ensures Snapshot() == OpenPopupSpec(old(Snapshot()), sec)
    {
      var clip := ClipNow(Snapshot());
      if clip.Missing? {
        return;
      }
      Call(BdUserInput(Pts(clip.value.inTime, sec), VkPopup));
      var _ := WaitIdle();
    }

    /** The part of `open_disc` after a Blu-ray disc is detected. */
    method StartDisc(path: string, skipFirstPlay: bool)
      modifies this
      ensures Snapshot() == StartDiscSpec(old(Snapshot()), path, skipFirstPlay)
    {
      dir := path;
      Call(BdGetEvent);
      Call(BdPlay);
      info := map[];
      var _ := WaitIdle();
      SkipFirstPlay(skipFirstPlay);
      var _ := WaitIdle();
      PlayerEndFile();
      Play();
    }

    /** The first-play skip of `open_disc`. */
    method SkipFirstPlay(skipFirstPlay: bool)
      modifies this
      ensures Snapshot() == SkipFirstPlaySpec(old(Snapshot()), skipFirstPlay)
    {
      if disc.firstPlaySupported && skipFirstPlay {
        Call(BdSeek(Wrap64(disc.titleSize - 1)));
      }
    }

    /** `open_disc`: `found` and `navReads` are what the navigation engine
        finds at `path` and will deliver. */
    method OpenDisc(path: string, skipFirstPlay: bool, found: Disc, navReads: seq<NavRead>)
      modifies this
      ensures Snapshot() == OpenDiscSpec(old(Snapshot()), path, skipFirstPlay, found, navReads)
    {
      if bdOpen {
        Call(BdClose);
      }
      Call(BdOpen(path));
      bdOpen := true;
      disc := found;
      queue := navReads;
      if !disc.blurayDetected {
        return;
      }
      StartDisc(path, skipFirstPlay);
    }
  }
}
