# mpv_bd player widget, modelled in Dafny

This project models `MpvWidget`, the Qt widget of the mpv_bd Blu-ray player.
The widget connects two engines:

- libbluray, the disc navigation engine. It delivers navigation events, the
  playlist/clip/chapter tables, and menu graphics as run-length encoded
  overlays.
- mpv, the playback engine. It loads stream files and reports the playback
  position.

The widget has four jobs:

- It keeps a list of menu regions. Each region is decoded from an overlay
  instruction, and the regions are painted over the video once the engine
  flushes them.
- It drains the navigation engine's event queue (`_wait_idle`). While doing
  so it records the last parameter of each event kind in the player info
  table and forwards subtitle and audio stream changes to mpv. It raises the
  menu and pop-up button signals, and it reports whether the playback
  position changed.
- It plays the current clip (`_play`). This loads
  `dir/BDMV/STREAM/<clip>.m2ts` and, inside a title, computes a deferred start
  time from the chapter start.
- It reacts to mpv events (time position, seek, playback restart, end of
  file, file loaded) and to keys and mouse clicks. It passes inputs on to the
  navigation engine at a timestamp computed as the clip's in-point plus
  `sec * 45000`, where `sec` is the playback position in seconds.

Both engines are modelled from the outside:

- The navigation engine is a queue of reads that `bd_read_ext` returns one
  by one, plus a disc description. An exhausted queue reads as NONE with a
  negative byte count.
- Each engine has an append-only log of the calls the widget makes into it:
  `bd_seek`, `bd_user_input` and the rest, and for mpv `loadfile`,
  `sid`/`aid`/`time-pos` and the Qt signals.

The project has these modules:

- `Types`: fixed-width integers, the event kinds, the disc tables, and the
  two call logs.
- `Overlay`: the colour table, run-length expansion and the compositor.
- `Navigation`: one pump step, the drain, and the drain to end of title.
- `Playback`: lookups, timestamps, the chapter offset and the stream path.
- `WidgetSpec`: the widget's whole state as a value, with one function per
  operation.
- `Widget`: the class `MpvWidget`. Its fields stand for the source's state
  plus the two engines: the queued reads, the disc, the two call logs, and a
  flag in place of the `bd` handle. Each source method has a method here,
  some split into helpers. Each method is proved to leave the state its
  `WidgetSpec` function describes.
- `Properties`: what the widget promises, proved over those functions.

## Model

| member | source | states |
|---|---|---|
| Types.Wrap64 | src/mpvwidget.cpp:132 | unsigned 64-bit arithmetic: the result is the argument when that is in range, and always congruent to it modulo 2^64 |
| Overlay.CoefficientsFor | src/mpvwidget.cpp:435-443 | the BT.709 luma weights are chosen exactly when the overlay is at least 600 lines high, BT.601 otherwise; the weights sum to one |
| Overlay.Clamp | src/mpvwidget.cpp:457-459 | the result is the byte value nearest to the input, and the input itself when it already lies in [0, 255] |
| Overlay.PaletteColor | src/mpvwidget.cpp:446-461 | alpha is the palette entry's T; red, green and blue are the converted values clamped to a byte |
| Overlay.BuildPalette | src/mpvwidget.cpp:445-462 | the loop yields exactly 256 colours; colour i comes from palette entry i under the height's coefficients, and its alpha is that entry's T |
| Overlay.PaletteOf | src/mpvwidget.cpp:445-464 | the colour table has exactly 256 entries, and entry i is palette entry i converted under the height's coefficients, clamped, with alpha T |
| Overlay.ExpandLength | src/mpvwidget.cpp:469-481 | the runs expand to one pixel per unit of run length |
| Overlay.ExpandAt | src/mpvwidget.cpp:469-481 | the pixel at position k has the colour of the run whose span covers k |
| Overlay.RunsConsumedFromBounds | src/mpvwidget.cpp:469-481 | from any point of the decoding loop, the runs read are the shortest prefix reaching the area, and running out means all runs together fall short |
| Overlay.RunsConsumedBounds | src/mpvwidget.cpp:469-481 | decoding succeeds exactly when the runs add up to at least w*h; it reads the shortest prefix of runs that covers w*h pixels |
| Overlay.Rasterize | src/mpvwidget.cpp:469-481 | the raster has exactly w*h pixels |
| Overlay.RasterizeExact | src/mpvwidget.cpp:469-481 | when the runs add up to exactly w*h, every pixel is written once and the raster is the plain expansion of the runs |
| Overlay.WriteRun | src/mpvwidget.cpp:472-478 | the column cursor stays in [0, w) and row*w + column equals the pixels written; the run's cells get its colour, every other cell is unchanged, and cells past the last row are dropped |
| Overlay.DrawRun | src/mpvwidget.cpp:469-480 | after one more run, the raster's first pixels are the expansion of the runs read so far, and the cursor tracks the new count |
| Overlay.DecodeRle | src/mpvwidget.cpp:464-481 | a fresh w*h raster; success exactly when the runs cover the area, and then the raster is that area's expansion with any overshoot clipped |
| Overlay.DecodeGraphic | src/mpvwidget.cpp:433-487 | a DRAW gives a region exactly when its runs cover the area; the region has the instruction's x, y, w, h, w*h pixels and a 256-entry colour table |
| Overlay.ApplyOverlay | src/mpvwidget.cpp:406-491 | an overlay notice either empties the region list or keeps it as a prefix and adds at most one region; only CLEAR, CLOSE and FLUSH change the flush flag |
| Overlay.Composite | src/mpvwidget.cpp:115-124 | painting shows no region before the flush and every region after it, each at its place in the list |
| Navigation.Info | src/mpvwidget.cpp:160 | reading the player info table gives the stored value, or 0 for a kind never recorded |
| Navigation.Emitted | src/mpvwidget.cpp:335-365 | one event makes at most one call to mpv or one signal, never a file load, and a position event makes none |
| Navigation.NextSid | src/mpvwidget.cpp:361-362 | PG_TEXTST_STREAM stores its parameter as the subtitle id; every other event keeps the stored id |
| Navigation.Step | src/mpvwidget.cpp:287-373 | one iteration: a PLAYLIST_STOP only counts a stop; any other event is recorded with its parameter, adds at most one output, and sets the new-position flag exactly when it is a position event |
| Navigation.Fold | src/mpvwidget.cpp:285-374 | a run of iterations only extends the output, never lowers the stop count and never clears the new-position flag |
| Navigation.Drained | src/mpvwidget.cpp:285-374 | every drain reads at least one event |
| Navigation.DrainLength | src/mpvwidget.cpp:285-374 | a drain never takes more reads than are queued |
| Navigation.DrainStops | src/mpvwidget.cpp:285-374 | a drain takes the reads up to and including the first NONE or ERROR, or all of them when none is terminal |
| Navigation.DrainedEvents | src/mpvwidget.cpp:285-374 | the events a drain sees are exactly those of the reads it takes, plus the NONE of an exhausted queue when none of those reads was terminal |
| Navigation.DrainedEnds | src/mpvwidget.cpp:374 | a drain's events end with one NONE or ERROR, and no earlier event is terminal |
| Navigation.FoldDrainStep | src/mpvwidget.cpp:285-374 | one iteration of the do-while loop, then, unless that event ended the drain, the drain of the remaining reads |
| Navigation.FoldShift | src/mpvwidget.cpp:323-326 | a drain started with output, a flag and stops already accumulated ends with those plus what a fresh drain produces; this is how the nested drain composes |
| Navigation.FoldSummary | src/mpvwidget.cpp:307-373 | after a sequence of events, the table records every event except PLAYLIST_STOP, the stop count is the number of PLAYLIST_STOPs, and the flag is set exactly when a position event occurred |
| Navigation.RecordLast | src/mpvwidget.cpp:373 | each kind other than PLAYLIST_STOP holds the parameter of its last event |
| Navigation.RecordUntouched | src/mpvwidget.cpp:373 | kinds with no event, and PLAYLIST_STOP always, keep their entry |
| Navigation.ReadToEof | src/mpvwidget.cpp:534-596 | the loop takes at least one queued read when there is one, and leaves a suffix of the queue |
| Navigation.ReadToEofKeepsEndOfTitle | src/mpvwidget.cpp:532-596 | the drain to end of title never records END_OF_TITLE, and the reads it leaves are a suffix of the queue |
| Navigation.ReadToEofStops | src/mpvwidget.cpp:592-596 | when read n is the first END_OF_TITLE or failed read, the loop leaves exactly the reads after n, records every read before n, and records read n only when it is a failed read |
| Navigation.ReadToEofRunsOut | src/mpvwidget.cpp:534-596 | when no read ends the loop, it takes the whole queue, records every read, and then records the NONE of the exhausted queue |
| Navigation.RecordReadsLast | src/mpvwidget.cpp:595 | after the loop's recording, a kind holds the parameter of its last read |
| Navigation.RecordReadsUntouched | src/mpvwidget.cpp:595 | a kind with no read keeps its entry, or stays absent |
| Playback.PlaylistOf | src/mpvwidget.cpp:379-382 | a playlist is found exactly when the disc has one for the recorded PLAYLIST and ANGLE, and then it is that playlist |
| Playback.ClipOf | src/mpvwidget.cpp:384-388 | a clip is found exactly when the playlist is found and PLAYITEM is below its clip count, and then it is clips[PLAYITEM] |
| Playback.PtsTranslation | src/mpvwidget.cpp:132 | without overflow, the timestamp is the base at second 0, grows with the playback position, and gives the position back when divided by 45000 |
| Playback.ChapterStartStep | src/mpvwidget.cpp:396-399 | one loop iteration subtracts that clip's length from the running chapter offset, modulo 2^64 |
| Playback.PrecedingTicksExact | src/mpvwidget.cpp:396-399 | when no preceding clip ends before it starts, the reduced sum of their lengths is the exact sum |
| Playback.ChapterStartExact | src/mpvwidget.cpp:394-400 | without underflow, the deferred start time is (chapter start minus the preceding clips' lengths) / 90000 |
| Playback.StreamPathInjective | src/mpvwidget.cpp:402 | different clip ids of one directory give different stream files |
| Playback.ChapterIndex | src/mpvwidget.cpp:395 | the chapter index is CHAPTER - 1, and wraps to 2^32 - 1 when CHAPTER is 0 |
| Playback.PlanPlay | src/mpvwidget.cpp:390-404 | `_play` goes ahead exactly when the clip exists and, inside a title, the chapter does; the path is the clip's stream file; a start time is set exactly inside a title, and it is the chapter offset / 90000 |
| WidgetSpec.OverlaySpec | src/mpvwidget.cpp:406-491 | the overlay callback changes only the regions and the flush flag, and the regions are either emptied or extended |
| WidgetSpec.PlaySpec | src/mpvwidget.cpp:390-404 | `_play` changes only the deferred start time and the mpv log, to which it adds at most one file load |
| WidgetSpec.PumpSpec | src/mpvwidget.cpp:281-377 | a drain keeps the regions, handle, disc, directory, navigation log and seek marker; it extends the mpv log; it leaves a suffix of the queue, shorter when the queue was not empty; a true result leaves the deferred start time as it was |
| WidgetSpec.ReadToEofSpec | src/mpvwidget.cpp:526-599 | `_read_to_eof` changes only the navigation log, which gains one call, the table and the queue; it never changes END_OF_TITLE's entry and leaves a suffix of the queue |
| WidgetSpec.UpdatePlayerInfoSpec | src/mpvwidget.cpp:601-607 | without a disc nothing changes; otherwise the navigation log gains at most one time seek, the mpv log is only extended, and the regions, disc and seek marker stay |
| WidgetSpec.EndFileSeekSpec | src/mpvwidget.cpp:610-616 | exactly one navigation call is added: a seek to the title's end when the clip ends at the playlist's duration, otherwise a time seek to the clip's end |
| WidgetSpec.EndFileSpec | src/mpvwidget.cpp:609-618 | without a current clip nothing changes; otherwise exactly one navigation call is added; the regions, disc and seek marker stay and the mpv log is only extended |
| WidgetSpec.HandleMpvEventSpec | src/mpvwidget.cpp:193-247 | an mpv event keeps the regions, handle, disc and directory and only extends both logs; SEEK only sets the marker; PLAYBACK_RESTART leaves it clear; FILE_LOADED leaves no deferred start; other events keep the marker |
| WidgetSpec.ActivateSpec | src/mpvwidget.cpp:148-150 | activation adds exactly its one user input to the navigation log and keeps the regions, disc and seek marker |
| WidgetSpec.KeyPressSpec | src/mpvwidget.cpp:127-156 | without a disc, or for an unhandled key, nothing changes; a navigation call made is the key's libbluray code at the clip's in-point plus `sec * 45000` |
| WidgetSpec.MousePressSpec | src/mpvwidget.cpp:158-169 | with MENU 0 nothing changes; otherwise only the navigation log can change, by one mouse selection at the clip's in-point plus `sec * 45000` |
| WidgetSpec.MouseDoubleClickSpec | src/mpvwidget.cpp:171-181 | with MENU 0 nothing changes; a navigation call made is one mouse activation at the clip's in-point plus `sec * 45000` |
| WidgetSpec.OpenMenuSpec | src/mpvwidget.cpp:620-626 | without a current clip nothing changes; otherwise the navigation log gains exactly the menu call, and the regions, disc and seek marker stay |
| WidgetSpec.OpenPopupSpec | src/mpvwidget.cpp:628-635 | without a current clip nothing changes; otherwise the navigation log gains exactly the pop-up key, and the regions, disc and seek marker stay |
| WidgetSpec.SkipFirstPlaySpec | src/mpvwidget.cpp:517-518 | only the navigation log changes, and it gains a call exactly when the disc has a first-play title and skipping is asked for |
| WidgetSpec.StartDiscSpec | src/mpvwidget.cpp:506-523 | the directory becomes the path; the handle, disc and regions stay; the navigation log continues with GET_EVENT and then PLAY |
| WidgetSpec.OpenDiscSpec | src/mpvwidget.cpp:493-524 | afterwards a handle is open on the new disc; the navigation log continues with a close (when a handle was open) and the open; the directory changes only for a detected Blu-ray, and otherwise the queue is the new disc's and the table is kept |
| WidgetSpec.PlayTimesFrame | src/mpvwidget.cpp:390-404 | `_play`, any number of times, changes only the deferred start time and extends the mpv log |
| WidgetSpec.PumpFrame | src/mpvwidget.cpp:281-377 | a drain changes only the table, the stored subtitle id, the queue, the deferred start time and the mpv log, and only extends that log |
| Widget.PumpAfterStop | src/mpvwidget.cpp:323-326 | a PLAYLIST_STOP gives the nested drain of the later reads, then `_play`, and a false result |
| Widget.DrainAdvance | src/mpvwidget.cpp:285-374 | after one read, either the drain continues from the remaining reads or it has ended in the state the whole drain describes |
| Widget.MpvWidget.constructor | src/mpvwidget.h:37-70 | a new widget starts with no regions and no flush, no disc, an empty table, no pending seek, subtitle id 0 and no deferred start |
| Widget.MpvWidget.PaintOverlays | src/mpvwidget.cpp:115-124 | painting draws nothing until flushed, and then every region in list order |
| Widget.MpvWidget.OverlayCallback | src/mpvwidget.cpp:406-491 | the overlay callback leaves the state `ApplyOverlay` gives (see OverlayCommands, DrawAppends) and touches nothing else |
| Widget.MpvWidget.ReadNav | src/mpvwidget.cpp:286 | `bd_read_ext` yields the next queued read, or NONE when the queue is exhausted, and takes it off the queue |
| Widget.MpvWidget.Dispatch | src/mpvwidget.cpp:287-373 | the switch and the recording of one event other than PLAYLIST_STOP: the table entry, the stored subtitle id, what is sent to mpv, and the new-position flag |
| Widget.MpvWidget.WaitIdle | src/mpvwidget.cpp:281-377 | `_wait_idle` leaves the state and returns the result that the drain of the queue describes (see PumpConsumes, PumpSummary) |
| Widget.MpvWidget.ResumeAfterStop | src/mpvwidget.cpp:323-326 | the PLAYLIST_STOP case finishes the enclosing drain with the nested drain, `_play` and a false result |
| Widget.MpvWidget.Play | src/mpvwidget.cpp:390-404 | `_play` leaves the state `PlaySpec` describes (see PlayEffect, PlayStartTime) |
| Widget.MpvWidget.ReadToEndOfTitle | src/mpvwidget.cpp:526-599 | `_read_to_eof` seeks to the last position of the title, then records reads up to END_OF_TITLE or a failed read |
| Widget.MpvWidget.UpdatePlayerInfo | src/mpvwidget.cpp:601-607 | with a disc and a clip, it seeks to the clip's start time plus the position and then drains; otherwise it does nothing |
| Widget.MpvWidget.EndFileSeek | src/mpvwidget.cpp:610-616 | at the playlist's duration it drains to the end of the title and then drains; otherwise it seeks to the end of the clip |
| Widget.MpvWidget.PlayerEndFile | src/mpvwidget.cpp:609-618 | `player_end_file` leaves the state `EndFileSpec` describes (see EndFileMoves) |
| Widget.MpvWidget.HandleMpvEvent | src/mpvwidget.cpp:193-247 | `handle_mpv_event` leaves the state `HandleMpvEventSpec` describes (see DeferredSeekOnce, SeekThenRestart) |
| Widget.MpvWidget.KeyPressEvent | src/mpvwidget.cpp:127-156 | key handling as in KeysSent and NoDiscNoEffect |
| Widget.MpvWidget.MousePressEvent | src/mpvwidget.cpp:158-169 | a click is sent as a selection only with a disc, in a menu, on a known clip (see MouseSelects) |
| Widget.MpvWidget.MouseDoubleClickEvent | src/mpvwidget.cpp:171-181 | a double click activates through a drain, and plays when the drain reports a new position |
| Widget.MpvWidget.OpenMenu | src/mpvwidget.cpp:620-626 | `open_menu` makes a menu call, drains, and always plays |
| Widget.MpvWidget.OpenPopup | src/mpvwidget.cpp:628-635 | `open_popup` sends the pop-up key and drains, without `_play` |
| Widget.MpvWidget.StartDisc | src/mpvwidget.cpp:506-523 | with a detected disc: GET_EVENT, PLAY, an empty table, a drain, the optional first-play skip, a drain, `player_end_file` and `_play` |
| Widget.MpvWidget.SkipFirstPlay | src/mpvwidget.cpp:517-518 | it seeks to the title's end exactly when the disc has a first-play title and the caller asks to skip it |
| Widget.MpvWidget.OpenDisc | src/mpvwidget.cpp:493-524 | `open_disc` leaves the state `OpenDiscSpec` describes (see OpenDiscCalls) |
| Properties.OverlayCommands | src/mpvwidget.cpp:412-420 | CLEAR and CLOSE empty the list and withdraw the flush; FLUSH only sets the flag; other commands except DRAW change nothing; a DRAW keeps the flag and earlier regions and adds at most one |
| Properties.DrawAppends | src/mpvwidget.cpp:483-487 | a DRAW whose runs cover the area appends exactly one region at the end, with the instruction's rectangle, w*h pixels and its colour table; with exact runs, the pixels are the expansion |
| Properties.ShortDrawDropped | src/mpvwidget.cpp:469-470 | a DRAW whose runs fall short of the area changes nothing |
| Properties.HiddenUntilFlush | src/mpvwidget.cpp:115 | without a FLUSH, nothing is painted, however many regions are drawn |
| Properties.RegionsKept | src/mpvwidget.cpp:412-487 | without CLEAR or CLOSE, regions are only appended and a flush stays in force |
| Properties.PaintOrder | src/mpvwidget.cpp:115-124 | once flushed, painting shows every region in list order; before that, none |
| Properties.RasterPixel | src/mpvwidget.cpp:469-481 | every pixel of a decoded raster has the colour of the run covering its position |
| Properties.PumpConsumes | src/mpvwidget.cpp:285-374 | a drain consumes the reads up to and including the first NONE or ERROR (or all of them) and leaves every later read queued; a PLAYLIST_STOP does not end it |
| Properties.PumpSummary | src/mpvwidget.cpp:307-376 | the table after a drain records its events except PLAYLIST_STOP; the result is true exactly when a position event occurred and no PLAYLIST_STOP did |
| Properties.PumpRecordsLast | src/mpvwidget.cpp:373 | after a drain, each kind other than PLAYLIST_STOP that it met holds the parameter of its last such event |
| Properties.PumpTrueNoPlay | src/mpvwidget.cpp:323-376 | a drain that returns true met no PLAYLIST_STOP, so `_play` did not run: its state is the table, subtitle id, queue and mpv log of the plain drain |
| Properties.PumpLeavesOthers | src/mpvwidget.cpp:323-326 | kinds a drain did not meet, and PLAYLIST_STOP always, keep their entry |
| Properties.EventSignals | src/mpvwidget.cpp:335-365 | UO_MASK_CHANGED signals the menu button exactly when bit 0 (MENU_CALL) is clear; POPUP signals its parameter; PG_TEXTST sets sid to the stored id or 0; AUDIO_STREAM sets aid; PG_TEXTST_STREAM stores the id and sets sid only when PG_TEXTST is on; other events emit nothing |
| Properties.PlayEffect | src/mpvwidget.cpp:390-404 | `_play` loads the current clip's stream file when its lookups succeed and otherwise does nothing; outside a title it keeps the start time; it changes nothing else |
| Properties.PlayStartTime | src/mpvwidget.cpp:394-400 | inside a title and without underflow, the start time is (chapter start minus the preceding clips' lengths) / 90000 |
| Properties.InitialState | src/mpvwidget.h:37-70 | a new widget paints nothing, has no disc and no pending seek, has sid 0 and start time 0, and reads 0 for every kind |
| Properties.NoDiscNoEffect | src/mpvwidget.cpp:128 | without a disc, keys, clicks, `update_player_info`, `player_end_file`, `open_menu`, `open_popup` and `_play` do nothing |
| Properties.MouseNeedsMenu | src/mpvwidget.cpp:160-161 | clicks and double clicks are ignored while MENU is 0 |
| Properties.MouseSelects | src/mpvwidget.cpp:162-168 | a click in a menu sends one selection at the clip's in-point plus the position and changes nothing else |
| Properties.PumpPlayFrame | src/mpvwidget.cpp:281-404 | a drain followed by `_play` makes no navigation call and keeps the disc, the directory, the regions and the seek marker |
| Properties.ActivateSendsOne | src/mpvwidget.cpp:148-150 | activating sends exactly one user input to the navigation engine and keeps the disc and the regions |
| Properties.ActivateThenPlay | src/mpvwidget.cpp:149-150 | after the user input and the drain, `_play` follows exactly when the drain returns true |
| Properties.EnterAndDoubleClickActivate | src/mpvwidget.cpp:127-181 | Return, and a double click while MENU is set, activate with ENTER or mouse-activate at the clip's in-point plus `sec * 45000` |
| Properties.MpvEventBranches | src/mpvwidget.cpp:197-229 | END_FILE acts only for the EOF reason; a time-pos change emits the position signal and, with a disc and TITLE 0, refreshes the player info; a duration change only emits the duration signal |
| Properties.KeysSent | src/mpvwidget.cpp:130-155 | the arrow keys send their key at the clip's in-point plus the position and nothing else; Return sends ENTER; other keys do nothing |
| Properties.EndFileMoves | src/mpvwidget.cpp:609-618 | at the end of a clip, the navigation engine is moved once: to the title's end when the clip ends the playlist, otherwise to where the clip ends |
| Properties.DeferredSeekOnce | src/mpvwidget.cpp:237-240 | the first FILE_LOADED seeks mpv to the deferred start time and clears it; a second does nothing |
| Properties.SeekThenRestart | src/mpvwidget.cpp:213-223 | a seek followed by a playback restart moves the navigation engine once, to the clip's start plus the position, and clears the marker; a restart alone does nothing |
| Properties.MenuCalls | src/mpvwidget.cpp:620-635 | `open_menu` sends one menu call, and `open_popup` one pop-up key, at the clip's in-point plus the position; `open_menu` is that call, a drain and `_play`; `open_popup` is that key and a drain, without `_play` |
| Properties.FoldNeverLoads | src/mpvwidget.cpp:285-374 | the pump's own iterations never load a file |
| Properties.PopupNeverPlays | src/mpvwidget.cpp:628-635 | unless its drain meets a PLAYLIST_STOP, `open_popup` sends mpv nothing that loads a file |
| Properties.OpenDiscCalls | src/mpvwidget.cpp:493-524 | opening closes any open disc and opens the path; the disc stays open; a non-Blu-ray path stops there; otherwise GET_EVENT and PLAY follow and the directory is recorded |
| Properties.StartDiscFrame | src/mpvwidget.cpp:506-523 | starting a disc sends GET_EVENT and PLAY first, records the directory, and keeps the disc and the regions |
| Properties.EndFileFrame | src/mpvwidget.cpp:609-618 | `player_end_file` only adds navigation calls, and keeps the directory, the disc and the regions |

## Left out

- Floating point is not modelled:
  - The YCbCr to RGB conversion is the parameter `convert`. It gives the values before the clamp.
  - The window and video scale factors are left out. Mouse coordinates arrive already scaled and truncated to 16 bits.
  - The truncation of mpv's `time-pos` double is left out. The position is a `nat` parameter `sec`, and the time and duration signals carry whole seconds.
- The mpv and OpenGL lifecycle and rendering are not part of this model: the constructor's mpv setup, `initializeGL`, the render context and the frame buffer.
- The queued dispatch in `on_mpv_events` is not modelled. Each mpv event is handled by one call to `HandleMpvEvent`.
- The ARGB overlay callback, which only logs, is not modelled. Neither are `printf`, `PRINT_EV` and the byte total of `_read_to_eof`.
- The registration of the overlay callbacks in `open_disc` is not modelled. The callback is an ordinary method, and overlays are not interleaved with the engine's calls.
- `bd_open` is taken to return a handle. When no Blu-ray disc is detected, the handle stays open, as the code leaves it.
- The navigation engine is a fixed queue of reads given in advance. Its reactions to seeks and inputs are not modelled; they appear only as entries in the call log.
- Where the source has undefined behaviour, the operation does nothing. This covers a missing playlist, PLAYITEM or CHAPTER out of range, and a null handle in `open_menu`, `open_popup`, `player_end_file` and `_play`. These four dereference the playlist lookup without checking the handle; the key and mouse handlers and `update_player_info` check it first.
- The decoder follows the code. It stops once w*h pixels are covered, and the overshoot of the last run is dropped, as `QImage::setPixel` drops it. A rule that rejects any mismatch between the runs and the area would be stricter than the code. When the runs are exhausted before the area is covered, the code reads past the array; here the decoding fails and the instruction is dropped.
- `w * h` is computed on `int` in the source. The product of two 16-bit values can exceed the `int` range, and that overflow is not modelled.
- The second CLEAR test in `_overlay_cb` can never fire, and the model does not repeat it.
- Properties.PopupNeverPlays: assumes the drain meets no PLAYLIST_STOP, because a PLAYLIST_STOP makes the drain itself call `_play`.
- `bd_get_title_size` is read as one size per disc. The source asks for the size of the current title each time; the model records the seek with the disc's fixed size.
- Reading `player_info[k]` in the source inserts a 0 entry for an unseen kind. The model leaves such kinds absent, and `Info` reads them as 0. Contracts that state whether a kind is present in the table (`RecordReadsUntouched`, `PumpLeavesOthers`, `RecordUntouched`) describe this model's table, not the source's map.
