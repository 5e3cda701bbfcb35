/** The play controller's pure parts: looking up the current playlist and
    clip, translating seconds of playback into navigation timestamps, the
    chapter start offset, and the stream file to load. */
module Playback {
  import opened Types
  import opened Navigation

  /** The factor by which the source turns seconds of playback into a
      navigation timestamp (`sec * 45000`). */
  const PTS_TICKS_PER_SECOND: nat := 45000
  /** The divisor by which the source turns the chapter start offset into
      the deferred start time in seconds (`/ 90000`). */
  const START_TIME_DIVISOR: nat := 90000

  /** `_get_playlist_info`: the playlist selected by PLAYLIST and ANGLE. */
  function PlaylistOf(disc: Disc, info: PlayerInfo): (t: Lookup<TitleInfo>)
    ensures t.Found? <==> (Info(info, Playlist), Info(info, Angle)) in disc.playlists
    ensures t.Found? ==> t.value == disc.playlists[(Info(info, Playlist), Info(info, Angle))]
  {
    var key := (Info(info, Playlist), Info(info, Angle));
    if key in disc.playlists then Found(disc.playlists[key]) else Missing
  }

  /** `_get_clip_info`: the clip at index PLAYITEM of the current playlist. */
  function ClipOf(disc: Disc, info: PlayerInfo): (c: Lookup<ClipInfo>)
    ensures c.Found? <==> PlaylistOf(disc, info).Found? && Info(info, PlayItem) < |PlaylistOf(disc, info).value.clips|
    ensures c.Found? ==> c.value == PlaylistOf(disc, info).value.clips[Info(info, PlayItem)]
  {
    match PlaylistOf(disc, info)
    case Missing => Missing
    case Found(t) => if Info(info, PlayItem) < |t.clips| then Found(t.clips[Info(info, PlayItem)]) else Missing
  }

  /** `base + sec * 45000` on unsigned 64-bit integers. */
  function Pts(base: u64, sec: nat): u64 {
    Wrap64(base + sec * PTS_TICKS_PER_SECOND)
  }

  /** Without overflow the timestamp starts at the clip's in-point, grows
      with the playback position, and gives the position back. */
  lemma PtsTranslation(base: u64, sec: nat, later: nat)
    requires sec <= later
    requires base + later * PTS_TICKS_PER_SECOND < TWO_64
    ensures Pts(base, 0) == base
    ensures Pts(base, sec) <= Pts(base, later)
    ensures (Pts(base, sec) - base) / PTS_TICKS_PER_SECOND == sec
    ensures (Pts(base, sec) - base) % PTS_TICKS_PER_SECOND == 0
  {
    assert sec * PTS_TICKS_PER_SECOND <= later * PTS_TICKS_PER_SECOND;
  }

  /** The length of a clip, `out_time - in_time`, on unsigned 64-bit integers. */
  function Span(c: ClipInfo): u64 {
    Wrap64(c.outTime - c.inTime)
  }

  /** The summed lengths of the first `n` clips. */
  function PrecedingTicks(clips: seq<ClipInfo>, n: nat): nat
    requires n <= |clips|
  {
    if n == 0 then 0 else PrecedingTicks(clips, n - 1) + Span(clips[n - 1])
  }

  /** The same sum taken exactly, without reduction. */
  function ExactPrecedingTicks(clips: seq<ClipInfo>, n: nat): int
    requires n <= |clips|
  {
    if n == 0 then 0 else ExactPrecedingTicks(clips, n - 1) + (clips[n - 1].outTime - clips[n - 1].inTime)
  }

  /** The chapter start made relative to clip `n`: the chapter start tick
      minus the lengths of the clips before it, on unsigned 64-bit integers. */
  function ChapterStartTicks(chapterStart: u64, clips: seq<ClipInfo>, n: nat): u64
    requires n <= |clips|
  {
    Wrap64(chapterStart - PrecedingTicks(clips, n))
  }

  lemma WrapSub(x: int, y: int)
    ensures Wrap64(Wrap64(x) - y) == Wrap64(x - y)
  {
  }

  /** One more clip taken off the running offset, as the source's loop does. */
  lemma ChapterStartStep(chapterStart: u64, clips: seq<ClipInfo>, n: nat)
    requires n < |clips|
    ensures ChapterStartTicks(chapterStart, clips, n + 1)
      == Wrap64(ChapterStartTicks(chapterStart, clips, n) - Span(clips[n]))
  {
    WrapSub(chapterStart - PrecedingTicks(clips, n), Span(clips[n]));
  }

  /** When every preceding clip ends after it starts, the reduced sum is the exact one. */
  lemma {:induction false} PrecedingTicksExact(clips: seq<ClipInfo>, n: nat)
    requires n <= |clips|
    requires forall i :: 0 <= i < n ==> clips[i].inTime <= clips[i].outTime
    ensures PrecedingTicks(clips, n) == ExactPrecedingTicks(clips, n)
  {
    if n > 0 {
      PrecedingTicksExact(clips, n - 1);
    }
  }

  /** Without underflow the deferred start time is
      (chapter start - sum of preceding clip lengths) / 90000. */
  lemma ChapterStartExact(chapterStart: u64, clips: seq<ClipInfo>, n: nat)
    requires n <= |clips|
    requires forall i :: 0 <= i < n ==> clips[i].inTime <= clips[i].outTime
    requires ExactPrecedingTicks(clips, n) <= chapterStart
    ensures ChapterStartTicks(chapterStart, clips, n) / START_TIME_DIVISOR
      == (chapterStart - ExactPrecedingTicks(clips, n)) / START_TIME_DIVISOR
  {
    PrecedingTicksExact(clips, n);
  }

  /** The stream file of a clip. */
  function StreamPath(dir: string, clipId: string): string {
    dir + "/BDMV/STREAM/" + clipId + ".m2ts"
  }

  /** Different clips of one disc are loaded from different files. */
  lemma StreamPathInjective(dir: string, a: string, b: string)
    requires StreamPath(dir, a) == StreamPath(dir, b)
    ensures a == b
  {
    var p := |dir| + |"/BDMV/STREAM/"|;
    var s := StreamPath(dir, a);
    assert |a| == |b|;
    assert a == s[p..p + |a|];
    assert b == StreamPath(dir, b)[p..p + |b|];
  }

  /** What `_play` does once its lookups succeed: the file to load and, when
      a title is active, the new deferred start time. */
  datatype PlayPlan = PlayPlan(path: string, startTime: Lookup<u64>)

  /** The chapter index `player_info[CHAPTER] - 1` on unsigned 32-bit integers. */
  function ChapterIndex(info: PlayerInfo): (i: u32)
    ensures Info(info, Chapter) >= 1 ==> i == Info(info, Chapter) - 1
    ensures Info(info, Chapter) == 0 ==> i == TWO_32 - 1
  {
    (Info(info, Chapter) - 1) % TWO_32
  }

  /** `_play`'s plan for the current table, or Missing where the source would
      read past a table (no such playlist, PLAYITEM or CHAPTER out of range). */
  function PlanPlay(disc: Disc, info: PlayerInfo, dir: string): (r: Lookup<PlayPlan>)
    ensures r.Found? <==>
      ClipOf(disc, info).Found? && (Info(info, Title) != 0 ==> ChapterIndex(info) < |PlaylistOf(disc, info).value.chapters|)
    ensures r.Found? ==>
      (ClipOf(disc, info).Found? && r.value.path == StreamPath(dir, ClipOf(disc, info).value.clipId))
    ensures r.Found? ==> (r.value.startTime.Found? <==> Info(info, Title) != 0)
    ensures r.Found? && Info(info, Title) != 0 ==>
      var t := PlaylistOf(disc, info).value;
      && ChapterIndex(info) < |t.chapters|
      && r.value.startTime.value
         == ChapterStartTicks(t.chapters[ChapterIndex(info)].start, t.clips, Info(info, PlayItem)) / START_TIME_DIVISOR
  {
    match PlaylistOf(disc, info)
    case Missing => Missing
    case Found(t) =>
      var item := Info(info, PlayItem);
      if item >= |t.clips| then Missing
      else
        var path := StreamPath(dir, t.clips[item].clipId);
        if Info(info, Title) == 0 then Found(PlayPlan(path, Missing))
        else
          var ch := ChapterIndex(info);
          if ch >= |t.chapters| then Missing
          else Found(PlayPlan(path, Found(ChapterStartTicks(t.chapters[ch].start, t.clips, item) / START_TIME_DIVISOR)))
  }
}
