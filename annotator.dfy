/**
 * The navigation and labelling state of the video annotator window: the rows
 * of the sessions CSV, the filtered view over them, the cursor into that view,
 * the loop flag and the playback speed.
 *
 * The video folder is given as the set of file names it contains; a session
 * has a video when `<session_id>__alt_video.mp4` is one of them.  Speed is
 * counted in quarter steps (4 is 1.0x), so the allowed range 0.25x..4.0x is
 * 1..16.
 */
module Annotator {
  import opened Rows

  const ALL := "All"
  const VIDEO_SUFFIX := "__alt_video.mp4"

  const MIN_SPEED := 1
  const MAX_SPEED := 16
  const NORMAL_SPEED := 4

  /** The labels a reviewer can assign, with their buttons and keys. */
  datatype Label = Attack | NeedRevision | Real | VirtualCamera
  {
    function Name(): string
    {
      match this
      case Attack => ATTACK
      case NeedRevision => NEED_REVISION
      case Real => REAL
      case VirtualCamera => VIRTUAL_CAMERA
    }

    /** The labels for which the reviewer must type a reason. */
    predicate NeedsReason()
    {
      this != Real
    }
  }

  /** The keys 1..4 assign the four labels. */
  const STATUSES: map<char, Label> :=
    map['1' := Attack, '2' := NeedRevision, '3' := Real, '4' := VirtualCamera]

  lemma StatusKeysAreOneToOne()
    ensures forall l: Label :: l in STATUSES.Values
    ensures forall j, k :: j in STATUSES && k in STATUSES && j != k ==> STATUSES[j] != STATUSES[k]
  {
    forall l: Label ensures l in STATUSES.Values {
      var k := match l case Attack => '1' case NeedRevision => '2' case Real => '3' case VirtualCamera => '4';
      assert STATUSES[k] == l;
    }
  }

  function VideoFileName(sessionId: string): (name: string)
    ensures |name| == |sessionId| + |VIDEO_SUFFIX|
    ensures name[..|sessionId|] == sessionId && name[|sessionId|..] == VIDEO_SUFFIX
  {
    sessionId + VIDEO_SUFFIX
  }

  /** Distinct sessions never share a video file. */
  lemma VideoFileNameInjective(a: string, b: string)
    ensures VideoFileName(a) == VideoFileName(b) ==> a == b
  {
    if VideoFileName(a) == VideoFileName(b) {
      assert |a| == |b|;
      assert a == VideoFileName(a)[..|a|];
    }
  }

  /** `row.get('status') == selected`: a row without a status matches nothing. */
  predicate HasStatus(row: Row, selected: string)
  {
    STATUS in row && row[STATUS] == selected
  }

  /** Every entry of the view names a row. */
  predicate ViewIn(rows: seq<Row>, view: seq<nat>)
  {
    forall k :: 0 <= k < |view| ==> view[k] < |rows|
  }

  predicate StrictlyIncreasing(s: seq<nat>)
  {
    forall j, k :: 0 <= j < k < |s| ==> s[j] < s[k]
  }

  /** The indices below `n` of the rows whose status is `selected`, in row order. */
  function Matching(rows: seq<Row>, selected: string, n: nat): (v: seq<nat>)
    requires n <= |rows|
    ensures forall k :: 0 <= k < |v| ==> v[k] < n && HasStatus(rows[v[k]], selected)
    ensures forall i :: 0 <= i < n && HasStatus(rows[i], selected) ==> i in v
    ensures StrictlyIncreasing(v)
  {
    if n == 0 then []
    else Matching(rows, selected, n - 1) + (if HasStatus(rows[n - 1], selected) then [n - 1] else [])
  }

  /**
   * The view `apply_filter` builds for the filter text `selected`: every row
   * for "All", otherwise exactly the rows whose status is `selected`, in row
   * order.
   */
  function FilterView(rows: seq<Row>, selected: string): (v: seq<nat>)
    ensures ViewIn(rows, v) && StrictlyIncreasing(v)
    ensures selected == ALL ==> |v| == |rows| && forall k :: 0 <= k < |v| ==> v[k] == k
    ensures selected != ALL ==> forall i :: 0 <= i < |rows| ==> (i in v <==> HasStatus(rows[i], selected))
  {
    if selected == ALL then seq(|rows|, i requires 0 <= i < |rows| => i)
    else Matching(rows, selected, |rows|)
  }

  /**
   * A row the player stops on: its stripped status is not the download error
   * sentinel and the folder holds its video.
   */
  predicate Playable(row: Row, videoFiles: set<string>)
  {
    Strip(Get(row, STATUS, "")) != DOWNLOAD_ERROR
    && SESSION_ID in row && VideoFileName(row[SESSION_ID]) in videoFiles
  }

  /** Where the forward skip of `play_current_video` stops when it starts at `c`. */
  function NextPlayable(rows: seq<Row>, view: seq<nat>, videoFiles: set<string>, c: nat): nat
    requires ViewIn(rows, view)
    decreases |view| - c
  {
    if c >= |view| then c
    else if Playable(rows[view[c]], videoFiles) then c
    else NextPlayable(rows, view, videoFiles, c + 1)
  }

  /**
   * The skip never moves backwards and stops at the first playable position
   * at or after `c`, or at the end of the view when there is none.
   */
  lemma {:induction false} NextPlayableIsFirstPlayable(rows: seq<Row>, view: seq<nat>, videoFiles: set<string>, c: nat)
    requires ViewIn(rows, view) && c <= |view|
    ensures var r := NextPlayable(rows, view, videoFiles, c);
      c <= r <= |view|
      && (r < |view| ==> Playable(rows[view[r]], videoFiles))
      && forall k :: c <= k < r ==> !Playable(rows[view[k]], videoFiles)
    decreases |view| - c
  {
    if c < |view| && !Playable(rows[view[c]], videoFiles) {
      NextPlayableIsFirstPlayable(rows, view, videoFiles, c + 1);
    }
  }

  /** `self.rows[idx]['session_id'] == sessionId` for the view position `k`. */
  predicate SessionAt(rows: seq<Row>, view: seq<nat>, k: nat, sessionId: string)
    requires ViewIn(rows, view) && k < |view|
  {
    SESSION_ID in rows[view[k]] && rows[view[k]][SESSION_ID] == sessionId
  }

  /** The first view position at or after `from` whose row has the session id. */
  function FindSession(rows: seq<Row>, view: seq<nat>, sessionId: string, from: nat): (r: Option<nat>)
    requires ViewIn(rows, view) && from <= |view|
    ensures r.Some? ==> from <= r.value < |view| && SessionAt(rows, view, r.value, sessionId)
    ensures r.Some? ==> forall j :: from <= j < r.value ==> !SessionAt(rows, view, j, sessionId)
    ensures r.None? ==> forall j :: from <= j < |view| ==> !SessionAt(rows, view, j, sessionId)
    decreases |view| - from
  {
    if from == |view| then None
    else if SessionAt(rows, view, from, sessionId) then Some(from)
    else FindSession(rows, view, sessionId, from + 1)
  }

  /**
   * The reason `set_status` writes for `choice`, given what the reason dialog
   * returned (None: the reviewer cancelled); None when nothing is written.
   */
  function ReasonToWrite(choice: Label, dialog: Option<string>): (r: Option<string>)
    ensures r.None? <==> choice.NeedsReason() && dialog.None?
    ensures !choice.NeedsReason() ==> r == Some("")
    ensures choice.NeedsReason() ==> r == dialog
  {
    if !choice.NeedsReason() then Some("") else dialog
  }

  function Clamp(lo: int, hi: int, x: int): (r: int)
    requires lo <= hi
    ensures lo <= r <= hi
    ensures lo <= x <= hi ==> r == x
    ensures x < lo ==> r == lo
    ensures hi < x ==> r == hi
  {
    if x < lo then lo else if hi < x then hi else x
  }

  class VideoAnnotator {
    /** The names of the files in the video folder. */
    const videoFiles: set<string>
    var rows: seq<Row>
    var filteredIndices: seq<nat>
    var currentIndex: nat
    var loopEnabled: bool
    /** Playback speed in quarter steps: 4 is 1.0x. */
    var playbackSpeed: int
    /** The video file last handed to the media player, if any. */
    var media: Option<string>
    /** The rows as last written to the CSV file. */
    ghost var persisted: seq<Row>

    ghost predicate Valid()
      reads this
    {
      ViewIn(rows, filteredIndices)
      && currentIndex <= |filteredIndices|
      && MIN_SPEED <= playbackSpeed <= MAX_SPEED
      && forall i :: 0 <= i < |rows| ==> SESSION_ID in rows[i] && PERSON_ID in rows[i]
    }

    /**
     * The player holds the video of the row under the cursor, or, when the
     * skip ran off the end of the view, still holds `previous`.
     */
    ghost predicate Shows(previous: Option<string>)
      reads this
      requires Valid()
    {
      (currentIndex < |filteredIndices| ==>
         media == Some(VideoFileName(rows[filteredIndices[currentIndex]][SESSION_ID])))
      && (currentIndex == |filteredIndices| ==> media == previous)
    }

    /**
     * Loads the rows, shows every row ("All" is the initial filter) and starts
     * on the first playable one.
     */
    constructor(loaded: seq<Row>, videoFiles: set<string>)
      requires forall i :: 0 <= i < |loaded| ==> SESSION_ID in loaded[i] && PERSON_ID in loaded[i]
      ensures Valid()
      ensures this.videoFiles == videoFiles && rows == loaded && persisted == loaded
      ensures filteredIndices == FilterView(loaded, ALL)
      ensures currentIndex == NextPlayable(rows, filteredIndices, videoFiles, 0)
      ensures Shows(None)
      ensures !loopEnabled && playbackSpeed == NORMAL_SPEED
    {
      this.videoFiles := videoFiles;
      rows := loaded;
      persisted := loaded;
      filteredIndices := [];
      currentIndex := 0;
      loopEnabled := false;
      playbackSpeed := NORMAL_SPEED;
      media := None;
      new;
      ApplyFilter(ALL);
    }

    /**
     * `play_current_video`: skips forward over download errors and rows
     * without a video; on a playable row hands its file to the player.
     */
    method PlayCurrentVideo()
      requires Valid()
      modifies this
      ensures Valid()
      ensures rows == old(rows) && filteredIndices == old(filteredIndices) && persisted == old(persisted)
      ensures loopEnabled == old(loopEnabled) && playbackSpeed == old(playbackSpeed)
      ensures currentIndex == NextPlayable(rows, filteredIndices, videoFiles, old(currentIndex))
      ensures old(currentIndex) <= currentIndex
      ensures currentIndex < |filteredIndices| ==> Playable(rows[filteredIndices[currentIndex]], videoFiles)
      ensures Shows(old(media))
    {
      var view := filteredIndices;
      var c := currentIndex;
      var found: Option<string> := None;
      while c < |view|
        invariant currentIndex <= c <= |view|
        invariant NextPlayable(rows, view, videoFiles, c) == NextPlayable(rows, view, videoFiles, currentIndex)
        decreases |view| - c
      {
        var row := rows[view[c]];
        var status := Strip(Get(row, STATUS, ""));
        if status == DOWNLOAD_ERROR {
          c := c + 1;
        } else {
          var file := VideoFileName(row[SESSION_ID]);
          if file in videoFiles {
            found := Some(file);
            break;
          }
          c := c + 1;
        }
      }
      NextPlayableIsFirstPlayable(rows, view, videoFiles, currentIndex);
      currentIndex := c;
      if found.Some? {
        media := found;
      }
    }

    /** `apply_filter`: rebuilds the view, rewinds the cursor and skips forward. */
    method ApplyFilter(selected: string)
      requires ViewIn(rows, filteredIndices) && MIN_SPEED <= playbackSpeed <= MAX_SPEED
      requires forall i :: 0 <= i < |rows| ==> SESSION_ID in rows[i] && PERSON_ID in rows[i]
      modifies this
      ensures Valid()
      ensures rows == old(rows) && persisted == old(persisted)
      ensures loopEnabled == old(loopEnabled) && playbackSpeed == old(playbackSpeed)
      ensures filteredIndices == FilterView(rows, selected)
      ensures currentIndex == NextPlayable(rows, filteredIndices, videoFiles, 0)
      ensures Shows(old(media))
    {
      filteredIndices := FilterView(rows, selected);
      currentIndex := 0;
      PlayCurrentVideo();
    }

    /** `play_previous_video`: one step back, never below 0, then the skip. */
    method PlayPreviousVideo()
      requires Valid()
      modifies this
      ensures Valid()
      ensures rows == old(rows) && filteredIndices == old(filteredIndices) && persisted == old(persisted)
      ensures loopEnabled == old(loopEnabled) && playbackSpeed == old(playbackSpeed)
      ensures currentIndex == NextPlayable(rows, filteredIndices, videoFiles,
                                           if old(currentIndex) == 0 then 0 else old(currentIndex) - 1)
      ensures Shows(old(media))
    {
      currentIndex := if currentIndex == 0 then 0 else currentIndex - 1;
      PlayCurrentVideo();
    }

    /**
     * `play_next_video`: one step forward, never past the last position, then
     * the skip.  On an empty view the source computes the position -1 and
     * then fails to index the view, so the view must not be empty.
     */
    method PlayNextVideo()
      requires Valid() && |filteredIndices| > 0
      modifies this
      ensures Valid()
      ensures rows == old(rows) && filteredIndices == old(filteredIndices) && persisted == old(persisted)
      ensures loopEnabled == old(loopEnabled) && playbackSpeed == old(playbackSpeed)
      ensures currentIndex == NextPlayable(rows, filteredIndices, videoFiles,
                                           if old(currentIndex) + 1 < |filteredIndices|
                                           then old(currentIndex) + 1 else |filteredIndices| - 1)
      ensures Shows(old(media))
    {
      currentIndex := if currentIndex + 1 < |filteredIndices| then currentIndex + 1 else |filteredIndices| - 1;
      PlayCurrentVideo();
    }

    /**
     * `set_status`: for a choice that needs a reason and a cancelled dialog
     * nothing happens; otherwise the status and reason of the row under the
     * cursor are written, the rows are saved, and the caller is to run
     * `AdvanceAfterStatus` (the source schedules it on a timer).
     */
    method SetStatus(choice: Label, dialog: Option<string>) returns (applied: bool)
      requires Valid() && (ReasonToWrite(choice, dialog).Some? ==> currentIndex < |filteredIndices|)
      modifies this
      ensures Valid()
      ensures filteredIndices == old(filteredIndices) && currentIndex == old(currentIndex)
      ensures loopEnabled == old(loopEnabled) && playbackSpeed == old(playbackSpeed) && media == old(media)
      ensures applied == ReasonToWrite(choice, dialog).Some?
      ensures !applied ==> rows == old(rows) && persisted == old(persisted)
      ensures applied ==>
        var at := filteredIndices[currentIndex];
        |rows| == |old(rows)|
        && rows[at] == WithStatus(old(rows)[at], choice.Name(), ReasonToWrite(choice, dialog).value)
        && (forall i :: 0 <= i < |rows| && i != at ==> rows[i] == old(rows)[i])
        && persisted == rows
    {
      var reason := ReasonToWrite(choice, dialog);
      if reason.None? {
        return false;
      }
      var at := filteredIndices[currentIndex];
      rows := rows[at := WithStatus(rows[at], choice.Name(), reason.value)];
      persisted := rows;
      applied := true;
    }

    /** `advance_after_status`: one step forward, then the skip. */
    method AdvanceAfterStatus()
      requires Valid() && currentIndex < |filteredIndices|
      modifies this
      ensures Valid()
      ensures rows == old(rows) && filteredIndices == old(filteredIndices) && persisted == old(persisted)
      ensures loopEnabled == old(loopEnabled) && playbackSpeed == old(playbackSpeed)
      ensures currentIndex == NextPlayable(rows, filteredIndices, videoFiles, old(currentIndex) + 1)
      ensures Shows(old(media))
    {
      currentIndex := currentIndex + 1;
      PlayCurrentVideo();
    }

    /**
     * `jump_to_session`: finds the first view position whose row has the
     * stripped input as its session id, moves there and skips forward; on a
     * miss nothing changes.
     */
    method JumpToSession(input: string) returns (found: bool)
      requires Valid()
      modifies this
      ensures Valid()
      ensures rows == old(rows) && filteredIndices == old(filteredIndices) && persisted == old(persisted)
      ensures loopEnabled == old(loopEnabled) && playbackSpeed == old(playbackSpeed)
      ensures var hit := FindSession(rows, filteredIndices, Strip(input), 0);
        found == hit.Some?
        && (found ==> currentIndex == NextPlayable(rows, filteredIndices, videoFiles, hit.value) && Shows(old(media)))
      ensures !found ==> currentIndex == old(currentIndex) && media == old(media)
    {
      var sessionId := Strip(input);
      var i := 0;
      found := false;
      while i < |filteredIndices|
        invariant i <= |filteredIndices|
        invariant forall j :: 0 <= j < i ==> !SessionAt(rows, filteredIndices, j, sessionId)
      {
        if rows[filteredIndices[i]][SESSION_ID] == sessionId {
          found := true;
          break;
        }
        i := i + 1;
      }
      if found {
        assert SessionAt(rows, filteredIndices, i, sessionId);
        currentIndex := i;
        PlayCurrentVideo();
      }
    }

    /** `change_speed`: one step up or down, kept within 0.25x..4.0x. */
    method ChangeSpeed(delta: int)
      requires Valid()
      modifies this`playbackSpeed
      ensures Valid()
      ensures playbackSpeed == Clamp(MIN_SPEED, MAX_SPEED, old(playbackSpeed) + delta)
    {
      playbackSpeed := Clamp(MIN_SPEED, MAX_SPEED, playbackSpeed + delta);
    }

    /** `toggle_loop`. */
    method ToggleLoop()
      requires Valid()
      modifies this`loopEnabled
      ensures Valid()
      ensures loopEnabled == !old(loopEnabled)
    {
      loopEnabled := !loopEnabled;
    }
  }

  /** Two loop toggles leave the flag as it was. */
  method ToggleLoopTwice(player: VideoAnnotator)
    requires player.Valid()
    modifies player`loopEnabled
    ensures player.Valid() && player.loopEnabled == old(player.loopEnabled)
  {
    player.ToggleLoop();
    player.ToggleLoop();
  }
}
