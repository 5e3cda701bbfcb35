/** The navigation event pump as values: what one event does to the player
    info table, the stored subtitle id and the commands sent to mpv, what a
    whole drain consumes, and the drain to end of title. */
module Navigation {
  import opened Types

  /** The player info table: the last parameter seen per event kind. */
  type PlayerInfo = map<EventKind, u32>

  /** `player_info[k]` of a `std::map`: 0 for a kind never recorded. */
  function Info(m: PlayerInfo, k: EventKind): (v: u32)
    ensures k in m ==> v == m[k]
    ensures k !in m ==> v == 0
  {
    if k in m then m[k] else 0
  }

  /** `BLURAY_UO_MENU_CALL`: bit 0 of the user-operation mask. */
  const UO_MENU_CALL: nat := 1

  /** The menu button is shown when the menu-call operation is not masked. */
  predicate MenuCallAllowed(mask: u32) {
    (mask / UO_MENU_CALL) % 2 == 0
  }

  /** The kinds that end a drain. */
  predicate IsTerminal(k: EventKind) {
    k == None || k == Error
  }

  /** The read `bd_read_ext` yields next, and the queue after it. */
  function NextRead(q: seq<NavRead>): NavRead {
    if q == [] then ExhaustedRead else q[0]
  }

  function AfterRead(q: seq<NavRead>): seq<NavRead> {
    if q == [] then [] else q[1..]
  }

  /** What the pump has accumulated: the table, the stored subtitle id, the
      mpv commands and signals emitted, whether a position event was seen, and
      how many PLAYLIST_STOP events were met. */
  datatype PumpState = PumpState(info: PlayerInfo, sid: u32, out: seq<MpvOut>, newPlay: bool, stops: nat)

  /** What the pump sends to mpv or emits for event `e`, given the table and
      stored subtitle id before it. */
  function Emitted(info: PlayerInfo, sid: u32, e: BdEvent): (out: seq<MpvOut>)
    ensures |out| <= 1
    ensures forall i :: 0 <= i < |out| ==> !out[i].LoadFile?
    ensures IsPositionKind(e.kind) ==> out == []
  {
    if e.kind == Popup then [PopupButton(e.param != 0)]
    else if e.kind == UoMaskChanged then [MenuButton(MenuCallAllowed(e.param))]
    else if e.kind == PgTextSt then [SetSid(if e.param != 0 then sid else 0)]
    else if e.kind == AudioStream then [SetAid(e.param)]
    else if e.kind == PgTextStStream && Info(info, PgTextSt) != 0 then [SetSid(e.param)]
    else []
  }

  /** The stored subtitle id after event `e`. */
  function NextSid(sid: u32, e: BdEvent): (r: u32)
    ensures e.kind == PgTextStStream ==> r == e.param
    ensures e.kind != PgTextStStream ==> r == sid
  {
    if e.kind == PgTextStStream then e.param else sid
  }

  /** One iteration of the pump on event `e`. A PLAYLIST_STOP leaves the
      iteration before its parameter is recorded. */
  function Step(p: PumpState, e: BdEvent): (r: PumpState)
    ensures p.out <= r.out && |r.out| <= |p.out| + 1
    ensures e.kind == PlaylistStop ==> r == p.(stops := p.stops + 1)
    ensures e.kind != PlaylistStop ==> e.kind in r.info && r.info[e.kind] == e.param && r.stops == p.stops
    ensures r.newPlay <==> p.newPlay || (e.kind != PlaylistStop && IsPositionKind(e.kind))
  {
    if e.kind == PlaylistStop then p.(stops := p.stops + 1)
    else PumpState(p.info[e.kind := e.param], NextSid(p.sid, e), p.out + Emitted(p.info, p.sid, e),
                   p.newPlay || IsPositionKind(e.kind), p.stops)
  }

  /** The events a drain reads from queue `q`: up to and including the first
      NONE or ERROR, ending with the NONE of an exhausted queue. */
  function Drained(q: seq<NavRead>): (evs: seq<BdEvent>)
    ensures |evs| > 0
    decreases |q|
  {
    var e := NextRead(q).event;
    if q == [] || IsTerminal(e.kind) then [e] else [e] + Drained(q[1..])
  }

  /** How many queued reads a drain takes. */
  function DrainLength(q: seq<NavRead>): (n: nat)
    ensures n <= |q|
    decreases |q|
  {
    if q == [] then 0
    else if IsTerminal(q[0].event.kind) then 1
    else 1 + DrainLength(q[1..])
  }

  /** The effect of a sequence of events, one `Step` at a time. */
  function Fold(p: PumpState, evs: seq<BdEvent>): (r: PumpState)
    ensures p.out <= r.out && p.stops <= r.stops && (p.newPlay ==> r.newPlay)
    decreases |evs|
  {
    if evs == [] then p else Fold(Step(p, evs[0]), evs[1..])
  }

  /** The table after recording each event except PLAYLIST_STOP. */
  function Record(m: PlayerInfo, evs: seq<BdEvent>): PlayerInfo
    decreases |evs|
  {
    if evs == [] then m
    else Record(if evs[0].kind == PlaylistStop then m else m[evs[0].kind := evs[0].param], evs[1..])
  }

  function CountStops(evs: seq<BdEvent>): nat
    decreases |evs|
  {
    if evs == [] then 0 else (if evs[0].kind == PlaylistStop then 1 else 0) + CountStops(evs[1..])
  }

  predicate SeesPosition(evs: seq<BdEvent>) {
    exists i :: 0 <= i < |evs| && IsPositionKind(evs[i].kind)
  }

  /** A drain takes the reads up to and including the first terminal one,
      or the whole queue when none is terminal. */
  lemma {:induction false} DrainStops(q: seq<NavRead>)
    ensures var n := DrainLength(q);
      && (q != [] ==> n > 0)
      && (forall i :: 0 <= i < n - 1 ==> !IsTerminal(q[i].event.kind))
      && (n > 0 ==> IsTerminal(q[n - 1].event.kind) || n == |q|)
    decreases |q|
  {
    if q != [] && !IsTerminal(q[0].event.kind) {
      DrainStops(q[1..]);
      var n := DrainLength(q);
      forall i | 0 <= i < n - 1
        ensures !IsTerminal(q[i].event.kind)
      {
        if i > 0 {
          assert q[i] == q[1..][i - 1];
        }
      }
    }
  }

  /** The events a drain sees are the events of the reads it takes, followed
      by the NONE of an exhausted queue when none of those was terminal. */
  lemma {:induction false} DrainedEvents(q: seq<NavRead>)
    ensures var n := DrainLength(q);
      Drained(q) == seq(n, i requires 0 <= i < n => q[i].event)
                    + (if n > 0 && IsTerminal(q[n - 1].event.kind) then [] else [ExhaustedRead.event])
    decreases |q|
  {
    if q != [] && !IsTerminal(q[0].event.kind) {
      DrainedEvents(q[1..]);
      var n := DrainLength(q);
      assert n - 1 == DrainLength(q[1..]);
      assert n - 1 > 0 ==> q[n - 1] == q[1..][n - 2];
      assert seq(n, i requires 0 <= i < n => q[i].event)
          == [q[0].event] + seq(n - 1, i requires 0 <= i < n - 1 => q[1..][i].event);
    }
  }

  /** A drain's events end with its one terminal event. */
  lemma {:induction false} DrainedEnds(q: seq<NavRead>)
    ensures var evs := Drained(q);
      && IsTerminal(evs[|evs| - 1].kind)
      && (forall i :: 0 <= i < |evs| - 1 ==> !IsTerminal(evs[i].kind))
    decreases |q|
  {
    if q != [] && !IsTerminal(q[0].event.kind) {
      DrainedEnds(q[1..]);
      var evs := Drained(q);
      assert evs == [q[0].event] + Drained(q[1..]);
      forall i | 0 <= i < |evs| - 1
        ensures !IsTerminal(evs[i].kind)
      {
        if i > 0 {
          assert evs[i] == Drained(q[1..])[i - 1];
        }
      }
    }
  }

  /** A drain is one step on the event read next, followed, unless that
      event ends the drain, by the drain of the reads after it. */
  lemma FoldDrainStep(p: PumpState, q: seq<NavRead>)
    ensures var e := NextRead(q).event;
      var more := q != [] && !IsTerminal(e.kind);
      && Fold(p, Drained(q)) == (if more then Fold(Step(p, e), Drained(q[1..])) else Step(p, e))
      && (more ==> q[DrainLength(q)..] == q[1..][DrainLength(q[1..])..])
      && (!more ==> q[DrainLength(q)..] == AfterRead(q))
  {
    var e := NextRead(q).event;
    if q != [] && !IsTerminal(e.kind) {
      assert Drained(q) == [e] + Drained(q[1..]);
      assert Drained(q)[1..] == Drained(q[1..]);
    } else {
      assert Drained(q) == [e];
      assert Drained(q)[1..] == [];
    }
  }

  /** The state a drain starts from: the table and subtitle id of `p`,
      nothing emitted, no position seen and no stop met. */
  function Fresh(p: PumpState): PumpState {
    PumpState(p.info, p.sid, [], false, 0)
  }

  /** `f`'s table and subtitle id, with what `p` and then `f` accumulated. */
  function Then(p: PumpState, f: PumpState): PumpState {
    PumpState(f.info, f.sid, p.out + f.out, p.newPlay || f.newPlay, p.stops + f.stops)
  }

  /** One step from a state that already carries output, a flag and stops
      is the step from a fresh state with those added on. */
  lemma StepShift(p: PumpState, e: BdEvent)
    ensures Step(p, e) == Then(p, Step(Fresh(p), e))
  {
    assert [] + Emitted(p.info, p.sid, e) == Emitted(p.info, p.sid, e);
  }

  lemma ThenAssoc(p: PumpState, g: PumpState, h: PumpState)
    ensures Then(p, Then(g, h)) == Then(Then(p, g), h)
  {
    ConcatAssoc(p.out, g.out, h.out);
  }

  /** What a fold does to the table, the stop count and the new-position flag. */
  lemma {:induction false} FoldSummary(p: PumpState, evs: seq<BdEvent>)
    ensures Fold(p, evs).info == Record(p.info, evs)
    ensures Fold(p, evs).stops == p.stops + CountStops(evs)
    ensures Fold(p, evs).newPlay == (p.newPlay || SeesPosition(evs))
    decreases |evs|
  {
    if evs != [] {
      FoldSummary(Step(p, evs[0]), evs[1..]);
      if SeesPosition(evs[1..]) {
        var i :| 0 <= i < |evs[1..]| && IsPositionKind(evs[1..][i].kind);
        assert IsPositionKind(evs[i + 1].kind);
      }
      if SeesPosition(evs) && !IsPositionKind(evs[0].kind) {
        var i :| 0 <= i < |evs| && IsPositionKind(evs[i].kind);
        assert IsPositionKind(evs[1..][i - 1].kind);
      }
    }
  }

  lemma ConcatAssoc<T>(a: seq<T>, b: seq<T>, c: seq<T>)
    ensures a + b + c == a + (b + c)
  {
  }

  /** Folding from a state that already carries output, a flag and stops is
      folding from a fresh state and adding those on. */
  lemma {:induction false} FoldShift(p: PumpState, evs: seq<BdEvent>)
    ensures Fold(p, evs) == Then(p, Fold(Fresh(p), evs))
    decreases |evs|
  {
    if evs == [] {
      assert p.out + [] == p.out;
    } else {
      var e, rest := evs[0], evs[1..];
      var g := Step(Fresh(p), e);
      StepShift(p, e);
      assert Fresh(Then(p, g)) == Fresh(g);
      FoldShift(Then(p, g), rest);
      FoldShift(g, rest);
      ThenAssoc(p, g, Fold(Fresh(g), rest));
    }
  }

  /** The table keeps the last parameter of every kind that the events carry
      (PLAYLIST_STOP excepted). */
  lemma {:induction false} RecordLast(m: PlayerInfo, evs: seq<BdEvent>, i: nat)
    requires i < |evs| && evs[i].kind != PlaylistStop
    requires forall j :: i < j < |evs| ==> evs[j].kind != evs[i].kind
    ensures evs[i].kind in Record(m, evs) && Record(m, evs)[evs[i].kind] == evs[i].param
    decreases |evs|
  {
    var m1 := if evs[0].kind == PlaylistStop then m else m[evs[0].kind := evs[0].param];
    if i == 0 {
      RecordUntouched(m1, evs[1..], evs[0].kind);
    } else {
      RecordLast(m1, evs[1..], i - 1);
    }
  }

  /** A kind that no event carries, and PLAYLIST_STOP, keep their entry. */
  lemma {:induction false} RecordUntouched(m: PlayerInfo, evs: seq<BdEvent>, k: EventKind)
    requires k == PlaylistStop || forall j :: 0 <= j < |evs| ==> evs[j].kind != k
    ensures (k in Record(m, evs) <==> k in m)
    ensures k in m ==> Record(m, evs)[k] == m[k]
    decreases |evs|
  {
    if evs != [] {
      var m1 := if evs[0].kind == PlaylistStop then m else m[evs[0].kind := evs[0].param];
      RecordUntouched(m1, evs[1..], k);
    }
  }

  // ---------------------------------------------------------------------
  // Drain to end of title

  /** `_read_to_eof`'s loop: records every event until END_OF_TITLE (not
      recorded) or a read that returns a negative byte count (recorded).
      Returns the table and the reads left. */
  function ReadToEof(m: PlayerInfo, q: seq<NavRead>): (r: (PlayerInfo, seq<NavRead>))
    ensures q != [] ==> |r.1| < |q|
    ensures |r.1| <= |q| && r.1 == q[|q| - |r.1|..]
    decreases |q|
  {
    var r := NextRead(q);
    if r.event.kind == EndOfTitle then (m, AfterRead(q))
    else
      var m1 := m[r.event.kind := r.event.param];
      if q == [] || r.bytes < 0 then (m1, AfterRead(q))
      else
        var rest := ReadToEof(m1, q[1..]);
        assert q[1..][|q| - 1 - |rest.1|..] == q[|q| - |rest.1|..];
        rest
  }

  /** The drain to end of title never records END_OF_TITLE, and the reads it
      leaves are a suffix of the queue. */
  lemma {:induction false} ReadToEofKeepsEndOfTitle(m: PlayerInfo, q: seq<NavRead>)
    ensures (EndOfTitle in ReadToEof(m, q).0 <==> EndOfTitle in m)
    ensures EndOfTitle in m ==> ReadToEof(m, q).0[EndOfTitle] == m[EndOfTitle]
    ensures exists k :: 0 <= k <= |q| && ReadToEof(m, q).1 == q[k..]
    decreases |q|
  {
    var r := NextRead(q);
    if q == [] {
      assert ReadToEof(m, q).1 == q[0..];
    } else if r.event.kind == EndOfTitle || r.bytes < 0 {
      assert ReadToEof(m, q).1 == q[1..];
    } else {
      ReadToEofKeepsEndOfTitle(m[r.event.kind := r.event.param], q[1..]);
      var k :| 0 <= k <= |q[1..]| && ReadToEof(m, q).1 == q[1..][k..];
      assert ReadToEof(m, q).1 == q[k + 1..];
    }
  }

  /** A read that ends `_read_to_eof`: END_OF_TITLE, or a failed read. */
  predicate EndsReadToEof(r: NavRead) {
    r.event.kind == EndOfTitle || r.bytes < 0
  }

  /** The table after recording each read's event in turn, PLAYLIST_STOP
      included. */
  function RecordReads(m: PlayerInfo, rs: seq<NavRead>): PlayerInfo
    decreases |rs|
  {
    if rs == [] then m else RecordReads(m[rs[0].event.kind := rs[0].event.param], rs[1..])
  }

  /** When read `n` is the first END_OF_TITLE or failed read, the drain to end
      of title takes exactly the reads up to it, records all of them before
      it, and records read `n` itself only when it is a failed read. */
  lemma {:induction false} ReadToEofStops(m: PlayerInfo, q: seq<NavRead>, n: nat)
    requires n < |q| && EndsReadToEof(q[n])
    requires forall i :: 0 <= i < n ==> !EndsReadToEof(q[i])
    ensures ReadToEof(m, q).1 == q[n + 1..]
    ensures ReadToEof(m, q).0 == RecordReads(m, if q[n].event.kind == EndOfTitle then q[..n] else q[..n + 1])
    decreases n
  {
    if n == 0 {
      assert q[..1] == [q[0]];
    } else {
      assert !EndsReadToEof(q[0]);
      var m1 := m[q[0].event.kind := q[0].event.param];
      ReadToEofStops(m1, q[1..], n - 1);
      assert q[1..][n..] == q[n + 1..];
      assert q[..n][1..] == q[1..][..n - 1];
      assert q[..n + 1][1..] == q[1..][..n];
    }
  }

  /** When no read ends it, the drain to end of title takes the whole queue,
      records every read, and then records the NONE of the exhausted queue. */
  lemma {:induction false} ReadToEofRunsOut(m: PlayerInfo, q: seq<NavRead>)
    requires forall i :: 0 <= i < |q| ==> !EndsReadToEof(q[i])
    ensures ReadToEof(m, q) == (RecordReads(m, q + [ExhaustedRead]), [])
    decreases |q|
  {
    if q != [] {
      assert !EndsReadToEof(q[0]);
      ReadToEofRunsOut(m[q[0].event.kind := q[0].event.param], q[1..]);
      assert (q + [ExhaustedRead])[1..] == q[1..] + [ExhaustedRead];
    }
  }

  /** After recording reads, a kind holds the parameter of its last read. */
  lemma {:induction false} RecordReadsLast(m: PlayerInfo, rs: seq<NavRead>, i: nat)
    requires i < |rs|
    requires forall j :: i < j < |rs| ==> rs[j].event.kind != rs[i].event.kind
    ensures rs[i].event.kind in RecordReads(m, rs)
    ensures RecordReads(m, rs)[rs[i].event.kind] == rs[i].event.param
    decreases |rs|
  {
    var m1 := m[rs[0].event.kind := rs[0].event.param];
    if i == 0 {
      RecordReadsUntouched(m1, rs[1..], rs[0].event.kind);
    } else {
      RecordReadsLast(m1, rs[1..], i - 1);
    }
  }

  /** A kind with no read keeps its entry, or its absence. */
  lemma {:induction false} RecordReadsUntouched(m: PlayerInfo, rs: seq<NavRead>, k: EventKind)
    requires forall j :: 0 <= j < |rs| ==> rs[j].event.kind != k
    ensures k in RecordReads(m, rs) <==> k in m
    ensures k in m ==> RecordReads(m, rs)[k] == m[k]
    decreases |rs|
  {
    if rs != [] {
      assert rs[0].event.kind != k;
      RecordReadsUntouched(m[rs[0].event.kind := rs[0].event.param], rs[1..], k);
    }
  }
}
