/**
 * Values shared by the annotator and the CSV tool: an already-parsed CSV row,
 * the dictionary lookup with a default that both programs use on it, and the
 * whitespace stripping that both apply to a `status` cell before comparing it.
 */
module Rows {

  datatype Option<+T> = None | Some(value: T)

  datatype Result<+T, +E> = Ok(value: T) | Err(error: E)

  /** One CSV data row: column name to cell text. An empty (NaN) cell is "". */
  type Row = map<string, string>

  const STATUS := "status"
  const REASON := "reason_for_status"
  const SESSION_ID := "session_id"
  const PERSON_ID := "person_id"

  /** Status values both programs write or test for. */
  const ATTACK := "attack"
  const NEED_REVISION := "need_revision"
  const REAL := "real"
  const VIRTUAL_CAMERA := "virtual_camera"
  const DOWNLOAD_ERROR := "download_error"

  /** `row.get(key, default)`. */
  function Get(row: Row, key: string, default: string): string
  {
    if key in row then row[key] else default
  }

  /** The characters for which Python's `str.isspace()` holds. */
  predicate IsSpace(c: char)
  {
    ('\t' <= c <= '\r') || ('\U{1C}' <= c <= '\U{1F}') || c == ' '
    || c == '\U{85}' || c == '\U{A0}' || c == '\U{1680}'
    || ('\U{2000}' <= c <= '\U{200A}') || c == '\U{2028}' || c == '\U{2029}'
    || c == '\U{202F}' || c == '\U{205F}' || c == '\U{3000}'
  }

  predicate AllSpace(s: string)
  {
    forall k :: 0 <= k < |s| ==> IsSpace(s[k])
  }

  /** Python's `s.strip()`: drops the whitespace at both ends. */
  function Strip(s: string): string
    decreases |s|
  {
    if s == [] then s
    else if IsSpace(s[0]) then Strip(s[1..])
    else if IsSpace(s[|s| - 1]) then Strip(s[..|s| - 1])
    else s
  }

  /** `s` is `i` whitespace characters, then `r`, then only whitespace. */
  ghost predicate PaddedAt(s: string, r: string, i: int)
  {
    0 <= i <= |s| - |r| && s[i..i + |r|] == r && AllSpace(s[..i]) && AllSpace(s[i + |r|..])
  }

  /** One more whitespace character in front keeps `s` padded around `r`. */
  lemma PadFront(s: string, r: string, i: int)
    requires s != [] && IsSpace(s[0]) && PaddedAt(s[1..], r, i)
    ensures PaddedAt(s, r, i + 1)
  {
  }

  /** One more whitespace character behind keeps `s` padded around `r`. */
  lemma PadBack(s: string, r: string, i: int)
    requires s != [] && IsSpace(s[|s| - 1]) && PaddedAt(s[..|s| - 1], r, i)
    ensures PaddedAt(s, r, i)
  {
  }

  /**
   * `s` is some whitespace, then `Strip(s)`, then some more whitespace, and
   * `Strip(s)` neither starts nor ends with whitespace.
   */
  lemma {:induction false} StripRemovesPadding(s: string)
    ensures exists i :: PaddedAt(s, Strip(s), i)
    ensures var r := Strip(s); r != [] ==> !IsSpace(r[0]) && !IsSpace(r[|r| - 1])
    decreases |s|
  {
    var r := Strip(s);
    if s == [] {
      assert PaddedAt(s, r, 0);
    } else if IsSpace(s[0]) {
      StripRemovesPadding(s[1..]);
      var i :| PaddedAt(s[1..], r, i);
      PadFront(s, r, i);
    } else if IsSpace(s[|s| - 1]) {
      StripRemovesPadding(s[..|s| - 1]);
      var i :| PaddedAt(s[..|s| - 1], r, i);
      PadBack(s, r, i);
    } else {
      assert s[..0] == [] && s[|s|..] == [] && s[0..|s|] == s;
      assert PaddedAt(s, r, 0);
    }
  }

  /**
   * `row[STATUS] = status; row[REASON] = reason`: the row afterwards has both
   * columns set and every other column as it was.
   */
  function WithStatus(row: Row, status: string, reason: string): (r: Row)
    ensures r.Keys == row.Keys + {STATUS, REASON}
    ensures r[STATUS] == status && r[REASON] == reason
    ensures forall k :: k in row && k != STATUS && k != REASON ==> r[k] == row[k]
  {
    row[STATUS := status][REASON := reason]
  }
}
