/** Shared vocabulary of the player: fixed-width integers, the navigation
    engine's (libbluray's) events, tables and calls, and the playback engine's
    (mpv's) commands and notifications. */
module Types {

  const TWO_32: nat := 0x1_0000_0000
  const TWO_64: nat := 0x1_0000_0000_0000_0000

  type u8 = n: nat | n < 0x100
  type u16 = n: nat | n < 0x1_0000
  type u32 = n: nat | n < 0x1_0000_0000
  type u64 = n: nat | n < 0x1_0000_0000_0000_0000

  /** C's unsigned 64-bit arithmetic: the value of `x` reduced modulo 2^64. */
  function Wrap64(x: int): (r: u64)
    ensures 0 <= x < TWO_64 ==> r == x
    ensures (r - x) % TWO_64 == 0
  {
    x % TWO_64
  }

  /** Result of a table lookup that the source performs without a check. */
  datatype Lookup<T> = Found(value: T) | Missing

  /** The kinds of libbluray's `bd_event_e`. */
  datatype EventKind =
    | None | Error | ReadError | Encrypted
    | Angle | Title | Playlist | PlayItem | PlayMark | Chapter | EndOfTitle
    | StereoscopicStatus | Seek | Discontinuity | PlaylistStop
    | StillTime | Still | SoundEffect | Idle | Popup | Menu | UoMaskChanged | KeyInterestTable
    | PgTextSt | SecondaryAudio | SecondaryVideo | PipPgTextSt
    | AudioStream | IgStream | PgTextStStream | SecondaryAudioStream
    | SecondaryVideoStream | SecondaryVideoSize | PipPgTextStStream

  /** A navigation event: its kind and its 32-bit parameter. */
  datatype BdEvent = BdEvent(kind: EventKind, param: u32)

  /** One result of `bd_read_ext`: the byte count it returned and the event it filled in. */
  datatype NavRead = NavRead(bytes: int, event: BdEvent)

  /** The read that `bd_read_ext` yields once the queued reads are exhausted. */
  const ExhaustedRead: NavRead := NavRead(-1, BdEvent(None, 0))

  /** Kinds whose arrival means a new playable position was selected. */
  predicate IsPositionKind(k: EventKind) {
    k in {Angle, Title, Playlist, PlayItem, PlayMark, Chapter}
  }

  /** `BLURAY_CLIP_INFO`: one clip of a playlist, with its times in
      the navigation engine's ticks. */
  datatype ClipInfo = ClipInfo(clipId: string, inTime: u64, outTime: u64, startTime: u64)

  /** `BLURAY_TITLE_CHAPTER`: the start tick of a chapter. */
  datatype ChapterInfo = ChapterInfo(start: u64)

  /** `BLURAY_TITLE_INFO`: a playlist's total duration, clips and chapters. */
  datatype TitleInfo = TitleInfo(duration: u64, clips: seq<ClipInfo>, chapters: seq<ChapterInfo>)

  /** What the navigation engine knows about the opened disc: `bd_get_disc_info`,
      `bd_get_title_size` and the `bd_get_playlist_info` table keyed by
      (playlist, angle). */
  datatype Disc = Disc(
    blurayDetected: bool,
    firstPlaySupported: bool,
    titleSize: u64,
    playlists: map<(u32, u32), TitleInfo>)

  /** libbluray's virtual keys used by the player. */
  datatype VKey = VkLeft | VkRight | VkUp | VkDown | VkEnter | VkMouseActivate | VkPopup

  /** Calls the player makes into the navigation engine. */
  datatype NavCall =
    | BdClose
    | BdOpen(path: string)
    | BdGetEvent
    | BdPlay
    | BdSeek(pos: u64)
    | BdSeekTime(tick: u64)
    | BdUserInput(pts: u64, key: VKey)
    | BdMouseSelect(pts: u64, x: u16, y: u16)
    | BdMenuCall(pts: u64)

  /** Commands sent to the playback engine and signals emitted to the window. */
  datatype MpvOut =
    | LoadFile(path: string)
    | SetSid(sid: u32)
    | SetAid(aid: u32)
    | SetTimePos(position: u64)
    | MenuButton(visible: bool)
    | PopupButton(visible: bool)
    | PositionChanged(seconds: int)
    | DurationChanged(seconds: int)
}
