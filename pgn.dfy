/** Scanners for the two patterns the transform step applies to a game's notation text:
    `REGEXP_EXTRACT(pgn, '\[Key "(.*?)"', 1)` for a header tag and
    `REGEXP_EXTRACT_ALL(pgn, '\. (.*?) {\[', 1)` for the move tokens.
    As in RE2, `.` matches any character except a line feed, a match is the leftmost one,
    `.*?` takes the shortest capture, and successive matches do not overlap. */
module Pgn {
  import opened Wrappers
  import opened Text

  // ----- header tags -------------------------------------------------------------

  /** The literal part of the tag pattern before the capture: `[Key "`. */
  function TagOpening(key: string): string {
    "[" + key + " \""
  }

  /** A capture that starts at `k` can end at the quote at `e`: no quote and no line
      feed comes between. */
  predicate ValueEndsAt(blob: string, k: int, e: int) {
    0 <= k <= e < |blob| && blob[e] == '"' && forall j :: k <= j < e ==> blob[j] != '"' && blob[j] != '\n'
  }

  /** Some capture starting at `k` can end at a closing quote. */
  predicate HasValueEnd(blob: string, k: int) {
    exists e :: 0 <= e < |blob| && ValueEndsAt(blob, k, e)
  }

  /** The tag pattern matches at `i`. */
  predicate TagAt(blob: string, key: string, i: int) {
    OccursAt(blob, i, TagOpening(key)) && HasValueEnd(blob, i + |TagOpening(key)|)
  }

  function CloseQuote(blob: string, k: nat): (r: Option<nat>)
    requires k <= |blob|
    ensures r.Some? ==> ValueEndsAt(blob, k, r.value)
    ensures r.None? ==> forall e :: !ValueEndsAt(blob, k, e)
    decreases |blob| - k
  {
    if k == |blob| then None
    else if blob[k] == '"' then Some(k)
    else if blob[k] == '\n' then
      assert forall e :: ValueEndsAt(blob, k, e) ==> e == k;
      None
    else
      var r := CloseQuote(blob, k + 1);
      assert forall e :: ValueEndsAt(blob, k, e) ==> ValueEndsAt(blob, k + 1, e);
      r
  }

  /** `r` is the leftmost match at or after `from`: where the capture starts and where its
      closing quote is; or None when no match starts at or after `from`. */
  ghost predicate LeftmostFrom(blob: string, key: string, from: int, r: Option<(nat, nat)>) {
    match r
    case Some((k, e)) =>
      k >= |TagOpening(key)| && TagAt(blob, key, k - |TagOpening(key)|)
      && from <= k - |TagOpening(key)| && ValueEndsAt(blob, k, e)
      && forall j :: from <= j < k - |TagOpening(key)| ==> !TagAt(blob, key, j)
    case None => forall j :: from <= j ==> !TagAt(blob, key, j)
  }

  /** No match at `from`: the leftmost match from `from + 1` is the leftmost from `from`. */
  lemma LeftmostSkip(blob: string, key: string, from: int, r: Option<(nat, nat)>)
    requires !TagAt(blob, key, from) && LeftmostFrom(blob, key, from + 1, r)
    ensures LeftmostFrom(blob, key, from, r)
  {
  }

  function FindTag(blob: string, key: string, from: nat): (r: Option<(nat, nat)>)
    requires from <= |blob|
    ensures LeftmostFrom(blob, key, from, r)
    decreases |blob| - from
  {
    var p := TagOpening(key);
    if from + |p| > |blob| then
      assert forall j :: from <= j ==> !OccursAt(blob, j, p);
      None
    else if blob[from..from + |p|] == p then
      match CloseQuote(blob, from + |p|)
      case Some(e) =>
        assert ValueEndsAt(blob, from + |p|, e);
        assert TagAt(blob, key, from);
        Some((from + |p|, e))
      case None =>
        assert !HasValueEnd(blob, from + |p|);
        var r := FindTag(blob, key, from + 1);
        LeftmostSkip(blob, key, from, r);
        r
    else
      assert !OccursAt(blob, from, p);
      var r := FindTag(blob, key, from + 1);
      LeftmostSkip(blob, key, from, r);
      r
  }

  /** The capture of the leftmost match of `\[Key "(.*?)"`, if the pattern matches. */
  function TagMatch(blob: string, key: string): (r: Option<string>)
    ensures r.Some? <==> exists i :: TagAt(blob, key, i)
    ensures r.Some? ==> '"' !in r.value && '\n' !in r.value
  {
    match FindTag(blob, key, 0)
    case Some((k, e)) => Some(blob[k..e])
    case None => None
  }

  /** `REGEXP_EXTRACT(pgn, '\[Key "(.*?)"', 1)`: the capture, or the empty string when
      the pattern does not match. */
  function ExtractTag(blob: string, key: string): string {
    TagMatch(blob, key).GetOr("")
  }

  /** A matched tag value is the text between the leftmost `[Key "` that has a closing
      quote on its line and that quote. */
  lemma TagMatchIsLeftmost(blob: string, key: string)
    requires TagMatch(blob, key).Some?
    ensures exists i ::
      OccursAt(blob, i, TagOpening(key) + TagMatch(blob, key).value + "\"")
      && forall j :: 0 <= j < i ==> !TagAt(blob, key, j)
  {
    var (k, e) := FindTag(blob, key, 0).value;
    var p := TagOpening(key);
    var i := k - |p|;
    assert LeftmostFrom(blob, key, 0, Some((k, e)));
    assert blob[i..k] == p && blob[e..e + 1] == "\"";
    assert blob[i..e + 1] == blob[i..k] + blob[k..e] + blob[e..e + 1];
    assert OccursAt(blob, i, p + TagMatch(blob, key).value + "\"");
  }

  /** Conversely, a well-formed tag with no earlier `[Key "` yields exactly its value. */
  lemma TagValueRead(blob: string, key: string, i: int, v: string)
    requires OccursAt(blob, i, TagOpening(key) + v + "\"")
    requires '"' !in v && '\n' !in v
    requires forall j :: 0 <= j < i ==> !OccursAt(blob, j, TagOpening(key))
    ensures TagMatch(blob, key) == Some(v)
  {
    var p := TagOpening(key);
    assert blob[i..i + |p|] == (p + v + "\"")[..|p|];
    assert blob[i + |p| + |v|] == (p + v + "\"")[|p| + |v|];
    forall j | i + |p| <= j < i + |p| + |v|
      ensures blob[j] != '"' && blob[j] != '\n'
    {
      assert blob[j] == (p + v + "\"")[j - i];
      assert blob[j] == v[j - i - |p|];
    }
    assert ValueEndsAt(blob, i + |p|, i + |p| + |v|);
    assert TagAt(blob, key, i);
    var (k, e) := FindTag(blob, key, 0).value;
    assert k == i + |p|;
    assert e == i + |p| + |v|;
    var w := p + v + "\"";
    forall n | 0 <= n < |v| ensures blob[k..e][n] == v[n] {
      assert blob[k + n] == w[|p| + n];
    }
    assert blob[k..e] == v;
  }

  /** An absent tag gives the empty string, not a failure. */
  lemma AbsentTagIsEmpty(blob: string, key: string)
    requires forall j :: !OccursAt(blob, j, TagOpening(key))
    ensures ExtractTag(blob, key) == ""
  {
  }

  // ----- move tokens -------------------------------------------------------------

  /** The text that ends a move capture: the gap before a clock annotation. */
  const ClockOpen: string := " {["

  /** A capture running to `e` stops at the first ` {[`, with no line feed before it. */
  predicate StopsAt(s: string, e: int) {
    OccursAt(s, e, ClockOpen) && forall j :: 0 <= j < e ==> !OccursAt(s, j, ClockOpen) && s[j] != '\n'
  }

  lemma OccursShift(s: string, j: int, p: string)
    requires |s| > 0 && j >= 0
    ensures OccursAt(s[1..], j, p) <==> OccursAt(s, j + 1, p)
  {
    if j + 1 + |p| <= |s| {
      assert s[1..][j..j + |p|] == s[j + 1..j + 1 + |p|];
    }
  }

  function FindStop(s: string): (r: Option<nat>)
    ensures r.Some? ==> StopsAt(s, r.value)
    ensures r.None? ==> forall e :: !StopsAt(s, e)
    decreases |s|
  {
    if |s| == 0 then None
    else if OccursAt(s, 0, ClockOpen) then Some(0)
    else if s[0] == '\n' then None
    else
      match FindStop(s[1..])
      case Some(e) =>
        forall j | 0 <= j < e + 1 ensures !OccursAt(s, j, ClockOpen) && s[j] != '\n' {
          if j > 0 { OccursShift(s, j - 1, ClockOpen); }
        }
        OccursShift(s, e, ClockOpen);
        Some(e + 1)
      case None =>
        forall e | StopsAt(s, e) ensures false {
          assert e > 0;
          OccursShift(s, e - 1, ClockOpen);
          forall j | 0 <= j < e - 1 ensures !OccursAt(s[1..], j, ClockOpen) && s[1..][j] != '\n' {
            OccursShift(s, j, ClockOpen);
          }
          assert StopsAt(s[1..], e - 1);
        }
        None
  }

  /** A move capture as the scanner can return it: no line feed, and no ` {[` starting
      inside it (the capture is the shortest one). */
  predicate IsCapture(m: string) {
    '\n' !in m && forall j :: 0 <= j < |m| ==> !OccursAt(m + ClockOpen, j, ClockOpen)
  }

  /** The text before the first stop is a capture. */
  lemma StopGivesCapture(t: string, e: nat)
    requires StopsAt(t, e)
    ensures IsCapture(t[..e])
  {
    var m := t[..e];
    assert t[..e + 3] == m + ClockOpen;
    forall j | 0 <= j < |m| ensures !OccursAt(m + ClockOpen, j, ClockOpen) && m[j] != '\n' {
      assert t[j] == m[j];
      assert (m + ClockOpen)[j..j + 3] == t[j..j + 3];
    }
  }

  /** `REGEXP_EXTRACT_ALL(s, '\. (.*?) {\[', 1)`: the captures of the successive
      non-overlapping leftmost matches, in the order they occur. */
  function Moves(s: string): (r: seq<string>)
    ensures forall k :: 0 <= k < |r| ==> IsCapture(r[k])
    decreases |s|
  {
    if |s| < 2 then []
    else if s[0] == '.' && s[1] == ' ' then
      match FindStop(s[2..])
      case Some(e) =>
        StopGivesCapture(s[2..], e);
        assert s[2..][..e] == s[2..2 + e];
        [s[2..2 + e]] + Moves(s[2 + e + 3..])
      case None => Moves(s[1..])
    else Moves(s[1..])
  }

  /** The `pgn_raw` column: the move tokens joined by single spaces. */
  function PgnRaw(blob: string): string {
    Join(Moves(blob), " ")
  }

  // ----- the scanner against a reference rendering -------------------------------

  /** One move of a rendered move text: `lead`, then `. `, the move, and ` {[`.
      The lead holds the move number and the rest of the previous clock annotation. */
  datatype MoveEntry = MoveEntry(lead: string, move: string)

  /** A text holding no `. `. */
  predicate NoMoveMark(t: string) {
    forall j :: 0 <= j < |t| - 1 ==> !(t[j] == '.' && t[j + 1] == ' ')
  }

  predicate WellFormed(es: seq<MoveEntry>) {
    forall k :: 0 <= k < |es| ==> NoMoveMark(es[k].lead) && IsCapture(es[k].move)
  }

  function Render(es: seq<MoveEntry>, tail: string): string {
    if es == [] then tail else es[0].lead + ". " + es[0].move + ClockOpen + Render(es[1..], tail)
  }

  function MovesOf(es: seq<MoveEntry>): (ms: seq<string>)
    ensures |ms| == |es| && forall k :: 0 <= k < |es| ==> ms[k] == es[k].move
  {
    if es == [] then [] else [es[0].move] + MovesOf(es[1..])
  }

  lemma {:induction false} LeadSkipped(lead: string, rest: string)
    requires NoMoveMark(lead)
    ensures Moves(lead + ". " + rest) == Moves(". " + rest)
    decreases |lead|
  {
    if lead != [] {
      var s := lead + ". " + rest;
      assert s[0] == lead[0];
      assert s[1] == if |lead| >= 2 then lead[1] else '.';
      assert !(s[0] == '.' && s[1] == ' ');
      assert s[1..] == lead[1..] + ". " + rest;
      assert Moves(s) == Moves(s[1..]);
      assert NoMoveMark(lead[1..]) by {
        forall j | 0 <= j < |lead[1..]| - 1 ensures !(lead[1..][j] == '.' && lead[1..][j + 1] == ' ') {
          assert lead[1..][j] == lead[j + 1] && lead[1..][j + 1] == lead[j + 2];
        }
      }
      LeadSkipped(lead[1..], rest);
    } else {
      assert lead + ". " + rest == ". " + rest;
    }
  }

  lemma {:induction false} TailHasNoMoves(t: string)
    requires NoMoveMark(t)
    ensures Moves(t) == []
    decreases |t|
  {
    if |t| >= 2 {
      TailHasNoMoves(t[1..]);
    }
  }

  lemma StopAfterCapture(m: string, rest: string)
    requires IsCapture(m)
    ensures FindStop(m + ClockOpen + rest) == Some(|m|)
  {
    var s := m + ClockOpen + rest;
    assert s[|m|..|m| + 3] == ClockOpen;
    assert s[..|m| + 3] == m + ClockOpen;
    forall j | 0 <= j < |m| ensures !OccursAt(s, j, ClockOpen) && s[j] != '\n' {
      assert s[j] == m[j] && m[j] in m;
      assert s[j..j + 3] == s[..|m| + 3][j..j + 3];
      assert !OccursAt(m + ClockOpen, j, ClockOpen);
    }
    assert StopsAt(s, |m|);
    var e := FindStop(s).value;
    // two stops cannot differ: the earlier one would be an occurrence before the later
    assert !(e < |m|) && !(|m| < e);
  }

  lemma EntryMatched(m: string, rest: string)
    requires IsCapture(m)
    ensures Moves(". " + m + ClockOpen + rest) == [m] + Moves(rest)
  {
    var s := ". " + m + ClockOpen + rest;
    assert s[2..] == m + ClockOpen + rest;
    StopAfterCapture(m, rest);
    assert s[2..2 + |m|] == m;
    assert s[2 + |m| + 3..] == rest;
  }

  /** The scanner returns exactly the moves of a well-formed rendered move text. */
  lemma {:induction false} MovesOfRender(es: seq<MoveEntry>, tail: string)
    requires WellFormed(es) && NoMoveMark(tail)
    ensures Moves(Render(es, tail)) == MovesOf(es)
    decreases |es|
  {
    if es == [] {
      TailHasNoMoves(tail);
    } else {
      var rest := Render(es[1..], tail);
      assert Render(es, tail) == es[0].lead + ". " + (es[0].move + ClockOpen + rest);
      LeadSkipped(es[0].lead, es[0].move + ClockOpen + rest);
      assert ". " + (es[0].move + ClockOpen + rest) == ". " + es[0].move + ClockOpen + rest;
      EntryMatched(es[0].move, rest);
      assert WellFormed(es[1..]);
      MovesOfRender(es[1..], tail);
    }
  }
}
