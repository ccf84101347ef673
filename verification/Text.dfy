/** String helpers shared by the service worker and the page script.

    Strings are `seq<char>`. The white-space class is the one JavaScript uses
    both for the regular-expression escape `\s` and for `String.prototype.trim`,
    so a single predicate serves the validators, the trimming and the
    `replace(/\s/g, '')` used on phone numbers. */
module Text {

  /** JavaScript white space: WhiteSpace and LineTerminator code points. */
  predicate IsSpace(c: char) {
    || c == ' ' || c == '\t' || c == '\n' || c == '\U{000B}' || c == '\U{000C}' || c == '\r'
    || c == '\U{00A0}' || c == '\U{1680}' || ('\U{2000}' <= c <= '\U{200A}')
    || c == '\U{2028}' || c == '\U{2029}' || c == '\U{202F}' || c == '\U{205F}'
    || c == '\U{3000}' || c == '\U{FEFF}'
  }

  predicate NoSpace(s: string) {
    forall k :: 0 <= k < |s| ==> !IsSpace(s[k])
  }

  predicate AllSpace(s: string) {
    SpaceBetween(s, 0, |s|)
  }

  /** Every character of `s` at an index in `[lo, hi)` is white space. */
  predicate SpaceBetween(s: string, lo: int, hi: int)
    requires 0 <= lo && hi <= |s|
  {
    forall k :: lo <= k < hi ==> IsSpace(s[k])
  }

  predicate NoNewline(s: string) {
    '\n' !in s
  }

  // ---------------------------------------------------------------------------
  // trim()

  /** Drops leading white space. */
  function TrimStart(s: string): (r: string)
    ensures |r| <= |s| && r == s[|s| - |r|..]
    ensures r == [] || !IsSpace(r[0])
    ensures SpaceBetween(s, 0, |s| - |r|)
  {
    if |s| > 0 && IsSpace(s[0]) then TrimStart(s[1..]) else s
  }

  /** Drops trailing white space. */
  function TrimEnd(s: string): (r: string)
    ensures |r| <= |s| && r == s[..|r|]
    ensures r == [] || !IsSpace(r[|r| - 1])
    ensures SpaceBetween(s, |r|, |s|)
  {
    if |s| > 0 && IsSpace(s[|s| - 1]) then TrimEnd(s[..|s| - 1]) else s
  }

  /** `r` is `s` with a run of white space removed from each end, and
      neither end of `r` is white space. */
  ghost predicate IsTrimOf(s: string, r: string) {
    exists i :: TrimmedAt(s, r, i)
  }

  ghost predicate TrimmedAt(s: string, r: string, i: int) {
    && 0 <= i <= i + |r| <= |s|
    && s[i..i + |r|] == r
    && SpaceBetween(s, 0, i)
    && SpaceBetween(s, i + |r|, |s|)
    && (r == [] || (!IsSpace(r[0]) && !IsSpace(r[|r| - 1])))
  }

  /** `String.prototype.trim`. */
  function Trim(s: string): (r: string)
    ensures IsTrimOf(s, r)
    ensures r == [] <==> AllSpace(s)
  {
    var t := TrimStart(s);
    var r := TrimEnd(t);
    TrimIsTrim(s, t, r);
    r
  }

  lemma TrimIsTrim(s: string, t: string, r: string)
    requires t == TrimStart(s) && r == TrimEnd(t)
    ensures TrimmedAt(s, r, |s| - |t|)
    ensures r == [] <==> AllSpace(s)
  {
    TrimmedAtEnds(s, t, r);
    TrimEmpty(s, t, r);
  }

  /** The facts `TrimStart` and `TrimEnd` promise, put together. */
  lemma TrimmedAtEnds(s: string, t: string, r: string)
    requires |t| <= |s| && t == s[|s| - |t|..] && (t == [] || !IsSpace(t[0]))
    requires SpaceBetween(s, 0, |s| - |t|)
    requires |r| <= |t| && r == t[..|r|] && (r == [] || !IsSpace(r[|r| - 1]))
    requires SpaceBetween(t, |r|, |t|)
    ensures TrimmedAt(s, r, |s| - |t|)
  {
    var i := |s| - |t|;
    TrimSlice(s, t, r, i);
    SpaceShift(s, i, |r|, |t|);
    if r != [] {
      assert r[0] == t[0];
    }
  }

  lemma TrimEmpty(s: string, t: string, r: string)
    requires t == TrimStart(s) && r == TrimEnd(t)
    ensures r == [] <==> AllSpace(s)
  {
    var i := |s| - |t|;
    if r == [] {
      SpaceShift(s, i, 0, |t|);
    } else if AllSpace(s) {
      assert false;
    }
  }

  lemma TrimSlice(s: string, t: string, r: string, i: int)
    requires 0 <= i <= |s| && t == s[i..] && |r| <= |t| && r == t[..|r|]
    ensures s[i..i + |r|] == r
  {
  }

  lemma SpaceShift(s: string, i: int, a: int, b: int)
    requires 0 <= i <= |s| && 0 <= a <= b <= |s| - i
    requires SpaceBetween(s[i..], a, b)
    ensures SpaceBetween(s, i + a, i + b)
  {
    forall k | i + a <= k < i + b ensures IsSpace(s[k]) {
      assert s[k] == s[i..][k - i];
    }
  }

  /** A text that neither begins nor ends with white space trims to itself. */
  lemma TrimOfTrimmed(s: string)
    requires s == [] || (!IsSpace(s[0]) && !IsSpace(s[|s| - 1]))
    ensures Trim(s) == s
  {
  }

  /** Trimming twice is trimming once. */
  lemma TrimIdempotent(s: string)
    ensures Trim(Trim(s)) == Trim(s)
  {
    var r := Trim(s);
    if r != [] {
      assert !IsSpace(r[0]);
      assert TrimStart(r) == r;
    }
  }

  // ---------------------------------------------------------------------------
  // replace(/\s/g, '')

  /** Removes every white-space character, keeping the others in order. */
  function StripSpaces(s: string): (r: string)
    ensures NoSpace(r)
    ensures |r| <= |s|
    ensures NoSpace(s) ==> r == s
    ensures AllSpace(s) ==> r == []
  {
    if |s| == 0 then s
    else if IsSpace(s[0]) then StripSpaces(s[1..])
    else [s[0]] + StripSpaces(s[1..])
  }

  lemma {:induction false} StripSpacesAppend(a: string, b: string)
    ensures StripSpaces(a + b) == StripSpaces(a) + StripSpaces(b)
    decreases |a|
  {
    if |a| > 0 {
      assert (a + b)[1..] == a[1..] + b;
      StripSpacesAppend(a[1..], b);
    } else {
      assert a + b == b;
    }
  }

  /** Removing all white space after trimming is the same as removing it
      without trimming: `replace(/\s/g, '')` does not care about `trim()`. */
  lemma StripSpacesOfTrim(s: string)
    ensures StripSpaces(Trim(s)) == StripSpaces(s)
  {
    var r := Trim(s);
    var i :| TrimmedAt(s, r, i);
    SplitAround(s, r, i);
    StripSpacesAround(s[..i], r, s[i + |r|..]);
  }

  lemma SplitAround(s: string, r: string, i: int)
    requires TrimmedAt(s, r, i)
    ensures s == s[..i] + r + s[i + |r|..]
    ensures AllSpace(s[..i]) && AllSpace(s[i + |r|..])
  {
    assert s == s[..i] + s[i..i + |r|] + s[i + |r|..];
  }

  lemma StripSpacesAround(a: string, r: string, c: string)
    requires AllSpace(a) && AllSpace(c)
    ensures StripSpaces(a + r + c) == StripSpaces(r)
  {
    StripSpacesAppend(a + r, c);
    StripSpacesAppend(a, r);
  }

  // ---------------------------------------------------------------------------
  // includes()

  ghost predicate OccursAt(hay: string, needle: string, i: int) {
    0 <= i && i + |needle| <= |hay| && hay[i..i + |needle|] == needle
  }

  /** `String.prototype.includes`: `needle` occurs somewhere inside `hay`. */
  function Includes(hay: string, needle: string): (b: bool)
    ensures b <==> exists i :: OccursAt(hay, needle, i)
    decreases |hay|
  {
    if |hay| < |needle| then false
    else if hay[..|needle|] == needle then
      assert OccursAt(hay, needle, 0);
      true
    else
      OccursInTail(hay, needle);
      Includes(hay[1..], needle)
  }

  /** An occurrence that is not at the front is an occurrence in the tail. */
  lemma OccursInTail(hay: string, needle: string)
    requires |hay| >= 1 && !OccursAt(hay, needle, 0)
    ensures (exists i :: OccursAt(hay, needle, i)) <==> (exists j :: OccursAt(hay[1..], needle, j))
  {
    if i :| OccursAt(hay, needle, i) {
      assert hay[1..][i - 1..i - 1 + |needle|] == hay[i..i + |needle|];
      assert OccursAt(hay[1..], needle, i - 1);
    }
    if j :| OccursAt(hay[1..], needle, j) {
      assert hay[1..][j..j + |needle|] == hay[j + 1..j + 1 + |needle|];
      assert OccursAt(hay, needle, j + 1);
    }
  }

  // ---------------------------------------------------------------------------
  // Lines of a multi-line message

  /** The lines of `s`, split at every `'\n'`; there is always at least one. */
  function Lines(s: string): (ls: seq<string>)
    ensures |ls| >= 1
    ensures forall k :: 0 <= k < |ls| ==> NoNewline(ls[k])
  {
    if |s| == 0 then [""]
    else
      var rest := Lines(s[1..]);
      if s[0] == '\n' then [""] + rest
      else [[s[0]] + rest[0]] + rest[1..]
  }

  /** The lines joined back together with `'\n'` between them. */
  function JoinLines(ls: seq<string>): (s: string)
    requires |ls| >= 1
    ensures |s| >= |ls| - 1
  {
    if |ls| == 1 then ls[0] else ls[0] + "\n" + JoinLines(ls[1..])
  }

  /** A text without a newline is one line. */
  lemma {:induction false} LinesOfLine(s: string)
    requires NoNewline(s)
    ensures Lines(s) == [s]
  {
    if |s| > 0 {
      assert NoNewline(s[1..]) by { assert forall k :: 0 <= k < |s| - 1 ==> s[1..][k] == s[k + 1]; }
      LinesOfLine(s[1..]);
      assert [s[0]] + s[1..] == s;
    }
  }

  /** Splitting at a newline splits the line list there. */
  lemma {:induction false} LinesConcat(a: string, b: string)
    ensures Lines(a + "\n" + b) == Lines(a) + Lines(b)
    decreases |a|
  {
    if |a| == 0 {
      assert a + "\n" + b == "\n" + b;
      assert ("\n" + b)[1..] == b;
    } else {
      assert (a + "\n" + b)[1..] == a[1..] + "\n" + b;
      LinesConcat(a[1..], b);
    }
  }

  /** Reading a joined text back line by line gives the lines it was made of. */
  lemma {:induction false} LinesOfJoin(ls: seq<string>)
    requires |ls| >= 1
    requires forall k :: 0 <= k < |ls| ==> NoNewline(ls[k])
    ensures Lines(JoinLines(ls)) == ls
    decreases |ls|
  {
    LinesOfLine(ls[0]);
    if |ls| > 1 {
      LinesOfJoin(ls[1..]);
      LinesConcat(ls[0], JoinLines(ls[1..]));
      assert [ls[0]] + ls[1..] == ls;
    }
  }

  /** Joining the lines of a text gives the text back. */
  lemma {:induction false} JoinOfLines(s: string)
    ensures JoinLines(Lines(s)) == s
    decreases |s|
  {
    if |s| > 0 {
      var rest := Lines(s[1..]);
      JoinOfLines(s[1..]);
      if s[0] == '\n' {
        assert Lines(s) == [""] + rest;
        assert ([""] + rest)[1..] == rest;
        assert JoinLines(Lines(s)) == "" + "\n" + JoinLines(rest);
        assert s == [s[0]] + s[1..];
      } else {
        var ls := Lines(s);
        assert ls == [[s[0]] + rest[0]] + rest[1..];
        if |rest| == 1 {
          assert s == [s[0]] + s[1..];
        } else {
          assert ls[1..] == rest[1..];
          assert JoinLines(rest) == rest[0] + "\n" + JoinLines(rest[1..]);
          assert s == [s[0]] + s[1..];
        }
      }
    }
  }
}
