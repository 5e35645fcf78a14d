/** Vocabulary shared by every handler of the panel: optional values, bytes,
    HTTP statuses and the string scans the validators are built from. */
module Common {

  /** A value that may be missing (a SQL row that was not found, an
      interaction that timed out, an unset environment variable). */
  datatype Option<+T> = None | Some(value: T)

  /** One octet of an uploaded payload. */
  type Byte = x: int | 0 <= x < 256
  type Bytes = seq<Byte>

  /** The HTTP statuses the handlers answer with. */
  datatype Status = Ok | NoContent | BadRequest | Unauthorized | Forbidden | InternalError | NotImplemented

  /** The numeric code sent on the wire for each status. */
  function Code(s: Status): (c: nat)
    ensures 200 <= c < 600
    ensures (c < 300) <==> (s == Ok || s == NoContent)
  {
    match s
    case Ok => 200
    case NoContent => 204
    case BadRequest => 400
    case Unauthorized => 401
    case Forbidden => 403
    case InternalError => 500
    case NotImplemented => 501
  }

  /** `p` is a prefix of `s` (Rust's `str::starts_with`). */
  predicate HasPrefix(s: string, p: string)
  {
    |p| <= |s| && s[..|p|] == p
  }

  /** `t` occurs in `s` starting at position `i`. */
  predicate OccursAt(s: string, t: string, i: int)
  {
    0 <= i && i + |t| <= |s| && s[i..i + |t|] == t
  }

  /** `t` occurs somewhere inside `s` as a contiguous run of characters. */
  predicate ContainsSub(s: string, t: string)
  {
    exists i :: 0 <= i <= |s| - |t| && OccursAt(s, t, i)
  }

  /** The two characters `c`, `d` appear next to each other in `s`. */
  predicate AdjacentPair(s: string, c: char, d: char)
  {
    exists i :: 0 <= i < |s| - 1 && s[i] == c && s[i + 1] == d
  }

  /** An ASCII letter or digit. */
  predicate IsAsciiAlnum(c: char)
  {
    ('a' <= c <= 'z') || ('A' <= c <= 'Z') || ('0' <= c <= '9')
  }

  /** Rust's `s.chars().any(|c| !allowed.contains(c))`, scanning left to
      right; `allowed` is the membership test of the character list. */
  function AnyOutside(s: string, allowed: char -> bool): (r: bool)
    ensures r <==> exists i :: 0 <= i < |s| && !allowed(s[i])
  {
    if |s| == 0 then false
    else if !allowed(s[0]) then true
    else
      var rest := AnyOutside(s[1..], allowed);
      assert forall i :: 0 < i < |s| ==> s[i] == s[1..][i - 1];
      rest
  }

  /** Rust's `s.contains(t)` for a string pattern, scanning left to right. */
  function Occurs(s: string, t: string): (r: bool)
    ensures r <==> ContainsSub(s, t)
    decreases |s|
  {
    if |s| < |t| then false
    else if s[..|t|] == t then
      assert OccursAt(s, t, 0);
      true
    else
      var rest := Occurs(s[1..], t);
      assert forall i :: OccursAt(s, t, i) && i > 0 ==> OccursAt(s[1..], t, i - 1);
      assert forall i :: OccursAt(s[1..], t, i) ==> OccursAt(s, t, i + 1);
      rest
  }

  /** A two-character pattern occurs exactly when its characters are adjacent. */
  lemma PairOccurrence(s: string, c: char, d: char)
    ensures ContainsSub(s, [c, d]) <==> AdjacentPair(s, c, d)
  {
    if ContainsSub(s, [c, d]) {
      var i :| 0 <= i <= |s| - 2 && OccursAt(s, [c, d], i);
      var w := s[i..i + 2];
      assert w == [c, d];
      assert s[i] == w[0] && s[i + 1] == w[1];
    }
    if AdjacentPair(s, c, d) {
      var i :| 0 <= i < |s| - 1 && s[i] == c && s[i + 1] == d;
      assert s[i..i + 2] == [c, d];
      assert OccursAt(s, [c, d], i);
    }
  }
}
