/**
 * `getYouTubeId`: the video id is what the regular expression
 *
 *     ^.*(youtu.be\/|v\/|u\/\w\/|embed\/|watch\?v=|&v=)([^#&?]*).*
 *
 * captures in its second group, kept only when it is 11 UTF-16 code units
 * long.
 * Under the backtracking semantics of section 22.2 of ECMA-262, the greedy
 * `^.*` first takes the whole first line and gives characters back one at a
 * time, so the marker is the one that STARTS furthest to the right (but not
 * beyond the first line terminator, which `.` does not match); at one
 * position the alternatives are tried left to right; the group then takes
 * every character up to the first `#`, `&` or `?`, and the final `.*`
 * always succeeds, so no further backtracking happens.
 */
module YouTube {
  import opened JsValue

  /** The characters `.` does not match. */
  predicate IsLineTerminator(c: char)
  {
    c == '\n' || c == '\r' || c == '\U{2028}' || c == '\U{2029}'
  }

  /** `\w` without the `u` flag. */
  predicate IsWordChar(c: char)
  {
    'a' <= c <= 'z' || 'A' <= c <= 'Z' || '0' <= c <= '9' || c == '_'
  }

  /** The characters excluded by `[^#&?]`. */
  predicate IsStop(c: char)
  {
    c == '#' || c == '&' || c == '?'
  }

  /** A character JavaScript stores as one UTF-16 code unit. */
  predicate IsBmp(c: char)
  {
    c < '\U{10000}'
  }

  /** JavaScript's `length`: characters outside the Basic Multilingual Plane
      take two UTF-16 code units. */
  function Utf16Length(s: string): (n: nat)
    ensures |s| <= n <= 2 * |s|
  {
    if |s| == 0 then 0 else (if IsBmp(s[0]) then 1 else 2) + Utf16Length(s[1..])
  }

  /** The code-unit count equals the character count exactly when no
      character lies outside the Basic Multilingual Plane. */
  lemma Utf16LengthIsCountIffBmp(s: string)
    ensures Utf16Length(s) == |s| <==> forall i :: 0 <= i < |s| ==> IsBmp(s[i])
  {
    if forall i :: 0 <= i < |s| ==> IsBmp(s[i]) {
      AllBmpIsCount(s);
    } else {
      var j :| 0 <= j < |s| && !IsBmp(s[j]);
      AstralIsLonger(s, j);
    }
  }

  /** A string inside the Basic Multilingual Plane has one code unit per character. */
  lemma {:induction false} AllBmpIsCount(s: string)
    requires forall i :: 0 <= i < |s| ==> IsBmp(s[i])
    ensures Utf16Length(s) == |s|
    decreases |s|
  {
    if |s| > 0 {
      assert forall i :: 1 <= i < |s| ==> s[1..][i - 1] == s[i];
      AllBmpIsCount(s[1..]);
    }
  }

  /** One character outside the Basic Multilingual Plane makes the code-unit
      count exceed the character count. */
  lemma {:induction false} AstralIsLonger(s: string, j: nat)
    requires j < |s| && !IsBmp(s[j])
    ensures Utf16Length(s) > |s|
    decreases |s|
  {
    if j > 0 {
      assert s[1..][j - 1] == s[j];
      AstralIsLonger(s[1..], j - 1);
    }
  }

  /** One character is one code unit inside the Basic Multilingual Plane and
      two (a surrogate pair) outside it. */
  lemma Utf16LengthOfChar(c: char)
    ensures Utf16Length([c]) == if IsBmp(c) then 1 else 2
  {
  }

  /** `length` adds over concatenation, so with Utf16LengthOfChar it counts
      every character of a mixed string. */
  lemma {:induction false} Utf16LengthAppend(a: string, b: string)
    ensures Utf16Length(a + b) == Utf16Length(a) + Utf16Length(b)
    decreases |a|
  {
    if |a| == 0 {
      assert a + b == b;
    } else {
      assert (a + b)[1..] == a[1..] + b;
      Utf16LengthAppend(a[1..], b);
    }
  }

  /** Character c at position k: the alternatives are written one literal
      character at a time. */
  predicate At(s: string, k: nat, c: char)
  {
    k < |s| && s[k] == c
  }

  /** The length of the first alternative of
      `(youtu.be\/|v\/|u\/\w\/|embed\/|watch\?v=|&v=)` that matches at k. */
  function MarkerAt(s: string, k: nat): (m: Option<nat>)
    ensures m.Some? ==> k + m.value <= |s|
  {
    if At(s, k, 'y') && At(s, k + 1, 'o') && At(s, k + 2, 'u') && At(s, k + 3, 't') && At(s, k + 4, 'u')
       && k + 5 < |s| && !IsLineTerminator(s[k + 5]) && At(s, k + 6, 'b') && At(s, k + 7, 'e') && At(s, k + 8, '/')
    then Some(9)
    else if At(s, k, 'v') && At(s, k + 1, '/') then Some(2)
    else if At(s, k, 'u') && At(s, k + 1, '/') && k + 2 < |s| && IsWordChar(s[k + 2]) && At(s, k + 3, '/') then Some(4)
    else if At(s, k, 'e') && At(s, k + 1, 'm') && At(s, k + 2, 'b') && At(s, k + 3, 'e') && At(s, k + 4, 'd') && At(s, k + 5, '/') then Some(6)
    else if At(s, k, 'w') && At(s, k + 1, 'a') && At(s, k + 2, 't') && At(s, k + 3, 'c') && At(s, k + 4, 'h')
       && At(s, k + 5, '?') && At(s, k + 6, 'v') && At(s, k + 7, '=') then Some(8)
    else if At(s, k, '&') && At(s, k + 1, 'v') && At(s, k + 2, '=') then Some(3)
    else None
  }

  /** The six texts of `(youtu.be\/|v\/|u\/\w\/|embed\/|watch\?v=|&v=)`:
      s has an alternative of length m at k. */
  predicate MarkerText(s: string, k: nat, m: nat)
  {
    k + m <= |s| &&
    var t := s[k..k + m];
    || (m == 9 && t[..5] == "youtu" && !IsLineTerminator(t[5]) && t[6..] == "be/")
    || (m == 2 && t == "v/")
    || (m == 4 && t[..2] == "u/" && IsWordChar(t[2]) && t[3] == '/')
    || (m == 6 && t == "embed/")
    || (m == 8 && t == "watch?v=")
    || (m == 3 && t == "&v=")
  }

  /** MarkerAt finds exactly the alternation's texts; no two alternatives
      start with the same character, so the left-to-right order never hides
      a longer one. */
  lemma MarkerAtIsAlternation(s: string, k: nat, m: nat)
    ensures MarkerAt(s, k) == Some(m) <==> MarkerText(s, k, m)
  {
    if k + m <= |s| {
      if m == 9 {
        YoutuBeText(s, k);
      } else if m == 2 {
        VSlashText(s, k);
      } else if m == 4 {
        UWordText(s, k);
      } else if m == 6 {
        EmbedText(s, k);
      } else if m == 8 {
        WatchText(s, k);
      } else if m == 3 {
        AmpVText(s, k);
      }
    }
  }

  /** The `youtu.be/` text, with any character but a line terminator for `.`. */
  lemma YoutuBeText(s: string, k: nat)
    requires k + 9 <= |s|
    ensures var t := s[k..k + 9];
      t[..5] == "youtu" && !IsLineTerminator(t[5]) && t[6..] == "be/"
      <==> MarkerAt(s, k) == Some(9)
  {
    var t := s[k..k + 9];
    assert t[..5] == s[k..k + 5] && t[6..] == s[k + 6..k + 9] && t[5] == s[k + 5];
    SliceIsLiteral(s, k, "youtu");
    SliceIsLiteral(s, k + 6, "be/");
  }

  /** The `u/\w/` text. */
  lemma UWordText(s: string, k: nat)
    requires k + 4 <= |s|
    ensures var t := s[k..k + 4];
      t[..2] == "u/" && IsWordChar(t[2]) && t[3] == '/' <==> MarkerAt(s, k) == Some(4)
  {
    var t := s[k..k + 4];
    assert t[..2] == s[k..k + 2] && t[2] == s[k + 2] && t[3] == s[k + 3];
    SliceIsLiteral(s, k, "u/");
  }

  /** The `v/` text. */
  lemma VSlashText(s: string, k: nat)
    requires k + 2 <= |s|
    ensures s[k..k + 2] == "v/" <==> MarkerAt(s, k) == Some(2)
  {
    SliceIsLiteral(s, k, "v/");
  }

  /** The `embed/` text. */
  lemma EmbedText(s: string, k: nat)
    requires k + 6 <= |s|
    ensures s[k..k + 6] == "embed/" <==> MarkerAt(s, k) == Some(6)
  {
    SliceIsLiteral(s, k, "embed/");
  }

  /** The `watch?v=` text. */
  lemma WatchText(s: string, k: nat)
    requires k + 8 <= |s|
    ensures s[k..k + 8] == "watch?v=" <==> MarkerAt(s, k) == Some(8)
  {
    SliceIsLiteral(s, k, "watch?v=");
  }

  /** The `&v=` text. */
  lemma AmpVText(s: string, k: nat)
    requires k + 3 <= |s|
    ensures s[k..k + 3] == "&v=" <==> MarkerAt(s, k) == Some(3)
  {
    SliceIsLiteral(s, k, "&v=");
  }

  /** A slice equals a literal iff it agrees with it character by character. */
  lemma SliceIsLiteral(s: string, k: nat, lit: string)
    requires k + |lit| <= |s|
    ensures s[k..k + |lit|] == lit <==> forall i :: 0 <= i < |lit| ==> s[k + i] == lit[i]
  {
    var slice := s[k..k + |lit|];
    assert forall i :: 0 <= i < |lit| ==> slice[i] == s[k + i];
  }

  /** How far `^.*` can reach: the index of the first line terminator, or |s|. */
  function LineEnd(s: string, from: nat): (e: nat)
    requires from <= |s|
    ensures from <= e <= |s|
    ensures e < |s| ==> IsLineTerminator(s[e])
    ensures forall i :: from <= i < e ==> !IsLineTerminator(s[i])
    decreases |s| - from
  {
    if from == |s| || IsLineTerminator(s[from]) then from else LineEnd(s, from + 1)
  }

  /** The backtracking of `^.*`: try the marker at k, then at k - 1, and so on
      down to 0. The result is the position and the marker's length. */
  function Backtrack(s: string, k: nat): (r: Option<(nat, nat)>)
    requires k <= |s|
    ensures r.None? ==> forall j :: 0 <= j <= k ==> MarkerAt(s, j).None?
    ensures r.Some? ==> r.value.0 <= k && r.value.0 + r.value.1 <= |s|
    ensures r.Some? ==> MarkerAt(s, r.value.0) == Some(r.value.1)
    ensures r.Some? ==> forall j :: r.value.0 < j <= k ==> MarkerAt(s, j).None?
  {
    match MarkerAt(s, k)
    case Some(m) => Some((k, m))
    case None => if k == 0 then None else Backtrack(s, k - 1)
  }

  /** The length of `[^#&?]*` matched greedily from position i. */
  function RunLength(s: string, i: nat): (n: nat)
    requires i <= |s|
    ensures i + n <= |s|
    ensures forall j :: i <= j < i + n ==> !IsStop(s[j])
    ensures i + n == |s| || IsStop(s[i + n])
    decreases |s| - i
  {
    if i == |s| || IsStop(s[i]) then 0 else 1 + RunLength(s, i + 1)
  }

  /** The second group when the marker ends at i: the run of non-stop characters. */
  function GroupAt(s: string, i: nat): (g: string)
    requires i <= |s|
  {
    s[i .. i + RunLength(s, i)]
  }

  /** The capture of the second group, or None when the expression does not match. */
  function Capture(s: string): Option<string>
  {
    CaptureOf(s, Backtrack(s, LineEnd(s, 0)))
  }

  /** The second group once backtracking has given its result b. */
  function CaptureOf(s: string, b: Option<(nat, nat)>): Option<string>
    requires b.Some? ==> b.value.0 + b.value.1 <= |s|
  {
    if b.None? then None else Some(GroupAt(s, b.value.0 + b.value.1))
  }

  /** `getYouTubeId(url)`: `match[2].length === 11` counts UTF-16 code units. */
  function GetYouTubeId(url: Option<string>): (id: Option<string>)
    // `if (!url) return null`
    ensures url.None? || url == Some("") ==> id.None?
    ensures id.Some? ==> Utf16Length(id.value) == 11 && 6 <= |id.value| <= 11
    ensures id.Some? ==> forall i :: 0 <= i < |id.value| ==> !IsStop(id.value[i])
  {
    if url.None? || url.value == "" then None
    else
      match Capture(url.value)
      case None => None
      case Some(g) => if Utf16Length(g) == 11 then Some(g) else None
  }

  /** Position j is reachable by `^.*`: no line terminator before it. */
  predicate OnFirstLine(s: string, j: nat)
  {
    j <= |s| && forall i :: 0 <= i < j ==> !IsLineTerminator(s[i])
  }

  /** `^.*` can reach every position on the first line. */
  lemma FirstLineWithinLineEnd(s: string, k: nat)
    requires OnFirstLine(s, k)
    ensures k <= LineEnd(s, 0)
  {
  }

  /** Backtracking from e stops at the rightmost marker at or below e. */
  lemma {:induction false} BacktrackFindsRightmost(s: string, e: nat, k: nat, m: nat)
    requires k <= e <= |s|
    requires MarkerAt(s, k) == Some(m)
    requires forall j :: k < j <= e ==> MarkerAt(s, j).None?
    ensures Backtrack(s, e) == Some((k, m))
    decreases e
  {
  }

  /** The capture is the group after the marker the backtracking settles on. */
  lemma CaptureAfterMarker(s: string, k: nat, m: nat)
    requires Backtrack(s, LineEnd(s, 0)) == Some((k, m))
    ensures k + m <= |s| && Capture(s) == Some(GroupAt(s, k + m))
  {
    var b := Backtrack(s, LineEnd(s, 0));
    assert Capture(s) == CaptureOf(s, b);
  }

  /** Once the backtracking has settled on a marker, the id is the run after it,
      kept only when it is 11 UTF-16 code units long. */
  lemma IdAfterMarker(s: string, k: nat, m: nat)
    requires s != ""
    requires Backtrack(s, LineEnd(s, 0)) == Some((k, m))
    ensures var g := s[k + m .. k + m + RunLength(s, k + m)];
      GetYouTubeId(Some(s)) == if Utf16Length(g) == 11 then Some(g) else None
  {
    CaptureAfterMarker(s, k, m);
  }

  /** The marker that decides is the rightmost one on the first line: the id
      is read after it, and when that segment is not 11 code units long the
      result is null, whatever earlier markers would have given. */
  lemma RightmostMarkerDecides(s: string, k: nat, m: nat)
    requires s != ""
    requires OnFirstLine(s, k)
    requires MarkerAt(s, k) == Some(m)
    requires forall j :: k < j <= |s| && OnFirstLine(s, j) ==> MarkerAt(s, j).None?
    ensures var g := s[k + m .. k + m + RunLength(s, k + m)];
      GetYouTubeId(Some(s)) == if Utf16Length(g) == 11 then Some(g) else None
  {
    var e := LineEnd(s, 0);
    FirstLineWithinLineEnd(s, k);
    forall j | k < j <= e ensures MarkerAt(s, j).None? {
      assert OnFirstLine(s, j);
    }
    BacktrackFindsRightmost(s, e, k, m);
    IdAfterMarker(s, k, m);
  }

  /** A URL with no marker on its first line has no id, whatever follows the
      first line terminator. */
  lemma NoMarkerNoId(s: string)
    requires forall j :: OnFirstLine(s, j) ==> MarkerAt(s, j).None?
    ensures GetYouTubeId(Some(s)).None?
  {
    var e := LineEnd(s, 0);
    forall j | 0 <= j <= e ensures MarkerAt(s, j).None? {
      assert OnFirstLine(s, j);
    }
  }

  /** A marker after a line terminator is never seen: with a leading line
      break the `v/` marker and its 11-character segment give no id. */
  lemma MarkerAfterLineBreakIgnored()
    ensures GetYouTubeId(Some("\nv/dQw4w9WgXcQ")).None?
  {
    var s := "\nv/dQw4w9WgXcQ";
    assert IsLineTerminator(s[0]);
    forall j | OnFirstLine(s, j) ensures MarkerAt(s, j).None? {
      assert j == 0;
    }
    NoMarkerNoId(s);
  }

  /** With no stop character from i on, the group runs to the end of the URL. */
  lemma RunToEnd(s: string, i: nat)
    requires i <= |s|
    requires forall j :: i <= j < |s| ==> !IsStop(s[j])
    ensures RunLength(s, i) == |s| - i
  {
  }

  /** A URL that starts with `v/` and has no `#`, `&`, `?`, `/` or `=` after
      it: the rest of the URL is the id exactly when it is 11 UTF-16 code
      units long. */
  lemma StartsWithVSlash(s: string)
    requires |s| >= 2 && s[0] == 'v' && s[1] == '/'
    requires forall i :: 2 <= i < |s| ==> !IsStop(s[i]) && s[i] != '/' && s[i] != '='
    ensures GetYouTubeId(Some(s)) == if Utf16Length(s[2..]) == 11 then Some(s[2..]) else None
  {
    assert MarkerAt(s, 0) == Some(2);
    forall j | 0 < j <= |s| ensures MarkerAt(s, j).None? {
      NoMarkerWithoutSlash(s, 2, j);
    }
    SegmentToEnd(s, 0, 2);
  }

  /** When the rightmost marker's segment runs to the end of the URL, the
      id is that whole remainder or nothing. */
  lemma SegmentToEnd(s: string, k: nat, m: nat)
    requires OnFirstLine(s, k)
    requires MarkerAt(s, k) == Some(m)
    requires forall j :: k < j <= |s| ==> MarkerAt(s, j).None?
    requires forall i :: k + m <= i < |s| ==> !IsStop(s[i])
    ensures GetYouTubeId(Some(s)) == if Utf16Length(s[k + m..]) == 11 then Some(s[k + m..]) else None
  {
    RunToEnd(s, k + m);
    assert s[k + m..k + m + RunLength(s, k + m)] == s[k + m..];
    RightmostMarkerDecides(s, k, m);
  }

  /** The plain `v/` form: the segment after the marker is the id exactly
      when it is 11 UTF-16 code units long. */
  lemma VSlashForm(g: string)
    requires forall i :: 0 <= i < |g| ==> !IsStop(g[i]) && g[i] != '/' && g[i] != '='
    ensures GetYouTubeId(Some("v/" + g)) == if Utf16Length(g) == 11 then Some(g) else None
  {
    var s := "v/" + g;
    assert s[2..] == g;
    assert forall i :: 2 <= i < |s| ==> s[i] == g[i - 2];
    StartsWithVSlash(s);
  }

  /** Every alternative is at least two characters long and ends in `/` or `=`. */
  lemma MarkerEndsInSlashOrEquals(s: string, k: nat)
    requires MarkerAt(s, k).Some?
    ensures var m := MarkerAt(s, k).value;
      m >= 2 && (s[k + m - 1] == '/' || s[k + m - 1] == '=')
  {
  }

  /** No marker can start at or after lo - 1 when no `/` or `=` occurs from lo on. */
  lemma NoMarkerWithoutSlash(s: string, lo: nat, j: nat)
    requires forall i :: lo <= i < |s| ==> s[i] != '/' && s[i] != '='
    requires lo <= j + 1
    ensures MarkerAt(s, j).None?
  {
    if MarkerAt(s, j).Some? {
      MarkerEndsInSlashOrEquals(s, j);
      assert false;
    }
  }

  /** The only alternative starting with `v` is `v/`. */
  lemma MarkerHead(s: string, k: nat)
    requires MarkerAt(s, k).Some?
    ensures k + 2 <= |s|
    ensures s[k] == 'v' ==> s[k + 1] == '/'
  {
  }

  /** `&v=` at k is the marker found there: no earlier alternative starts with `&`. */
  lemma AmpVMarker(s: string, k: nat)
    requires k + 3 <= |s| && s[k] == '&' && s[k + 1] == 'v' && s[k + 2] == '='
    ensures MarkerAt(s, k) == Some(3)
  {
  }

  /** No marker starts after an `&v=` that has no `/` or `=` after it. */
  lemma AmpVIsRightmost(s: string, k: nat)
    requires k + 3 <= |s| && s[k] == '&' && s[k + 1] == 'v' && s[k + 2] == '='
    requires forall i :: k + 3 <= i < |s| ==> s[i] != '/' && s[i] != '='
    ensures MarkerAt(s, k) == Some(3)
    ensures forall j :: k < j <= |s| ==> MarkerAt(s, j).None?
  {
    AmpVMarker(s, k);
    if MarkerAt(s, k + 1).Some? {
      MarkerHead(s, k + 1);
      assert false;
    }
    forall j | k + 1 < j <= |s| ensures MarkerAt(s, j).None? {
      NoMarkerWithoutSlash(s, k + 3, j);
    }
  }

  /** An `&v=` marker with no `#`, `&`, `?`, `/` or `=` after it is the last
      marker: the id is what follows it when that is 11 UTF-16 code units,
      whatever comes before. */
  lemma LastMarkerIsAmpV(s: string, k: nat)
    requires k + 3 <= |s| && s[k] == '&' && s[k + 1] == 'v' && s[k + 2] == '='
    requires OnFirstLine(s, k)
    requires forall i :: k + 3 <= i < |s| ==> !IsStop(s[i]) && s[i] != '/' && s[i] != '='
    ensures GetYouTubeId(Some(s)) == if Utf16Length(s[k + 3..]) == 11 then Some(s[k + 3..]) else None
  {
    AmpVIsRightmost(s, k);
    SegmentToEnd(s, k, 3);
  }

  /** A short link whose query string carries a later `&v=` marker: the
      `youtu.be/` marker would give the 11-character id, but the rightmost
      marker wins and its segment "x" is too short, so there is no id. */
  lemma LaterMarkerShadowsEarlierId()
    ensures GetYouTubeId(Some("youtu.be/dQw4w9WgXcQ&v=x")).None?
  {
    var s := "youtu.be/dQw4w9WgXcQ&v=x";
    assert s[20] == '&' && s[21] == 'v' && s[22] == '=' && s[23] == 'x' && |s| == 24;
    assert OnFirstLine(s, 20);
    LastMarkerIsAmpV(s, 20);
  }

  /** "v/dQw4w9WgXcQ" gives the id "dQw4w9WgXcQ". */
  lemma PlainIdExtracted()
    ensures var g := "dQw4w9WgXcQ"; GetYouTubeId(Some("v/" + g)) == Some(g)
  {
    var g := "dQw4w9WgXcQ";
    assert forall i :: 0 <= i < |g| ==> IsBmp(g[i]) && !IsStop(g[i]) && g[i] != '/' && g[i] != '=';
    AllBmpIsCount(g);
    VSlashForm(g);
  }

  /** Eleven characters outside the Basic Multilingual Plane are 22 code units
      in JavaScript, so they are not an id. */
  lemma AstralRunIsNotAnId()
    ensures var e := '\U{1F600}';
      GetYouTubeId(Some("v/" + [e, e, e, e, e, e, e, e, e, e, e])).None?
  {
    var e := '\U{1F600}';
    var g := [e, e, e, e, e, e, e, e, e, e, e];
    AstralIsLonger(g, 0);
    VSlashForm(g);
  }
}
