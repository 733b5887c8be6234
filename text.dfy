/**
 * The parts of Python's string built-ins that the replier relies on:
 * `str.isspace` (also what `\s` matches in `re` and what `strip()` removes),
 * the Unicode general category C, `strip`/`lstrip`/`rstrip` with and without
 * a character argument, `re.sub(r"\s+", " ", s)`, the slice `s[:n]`,
 * and `str.lower` as far as ASCII goes.
 */
module Text {
  import opened Wrappers

  /**
   * Python's `str.isspace` (bidirectional class WS, B or S, or general category Zs):
   * tab to carriage return, the information separators U+001C..U+001F, space, NEL,
   * no-break space, the ogham mark, the spaces U+2000..U+200A, the line and paragraph
   * separators, the narrow no-break space, the medium mathematical space and the
   * ideographic space.
   */
  predicate IsSpace(c: char) {
    || ('\t' <= c <= '\r')
    || ('\U{1C}' <= c <= ' ')
    || c == '\U{85}' || c == '\U{A0}' || c == '\U{1680}'
    || ('\U{2000}' <= c <= '\U{200A}')
    || c == '\U{2028}' || c == '\U{2029}' || c == '\U{202F}' || c == '\U{205F}'
    || c == '\U{3000}'
  }

  /**
   * Unicode general category C ("Other"): the control characters Cc, the format
   * characters Cf listed here, the private-use ranges Co and the noncharacters of Cn.
   * Unassigned code points and the noncharacters outside the Basic Multilingual Plane
   * (the rest of Cn) are not listed; surrogates (Cs) are not Dafny characters.
   */
  predicate IsCategoryC(c: char) {
    // Cc
    || c <= '\U{1F}'
    || ('\U{7F}' <= c <= '\U{9F}')
    // Cf
    || c == '\U{AD}'
    || ('\U{600}' <= c <= '\U{605}')
    || c == '\U{61C}'
    || c == '\U{6DD}'
    || c == '\U{70F}'
    || c == '\U{890}' || c == '\U{891}'
    || c == '\U{8E2}'
    || c == '\U{180E}'
    || ('\U{200B}' <= c <= '\U{200F}')
    || ('\U{202A}' <= c <= '\U{202E}')
    || ('\U{2060}' <= c <= '\U{2064}')
    || ('\U{2066}' <= c <= '\U{206F}')
    || c == '\U{FEFF}'
    || ('\U{FFF9}' <= c <= '\U{FFFB}')
    || c == '\U{110BD}' || c == '\U{110CD}'
    || ('\U{13430}' <= c <= '\U{1343F}')
    || ('\U{1BCA0}' <= c <= '\U{1BCA3}')
    || ('\U{1D173}' <= c <= '\U{1D17A}')
    || c == '\U{E0001}'
    || ('\U{E0020}' <= c <= '\U{E007F}')
    // Co
    || ('\U{E000}' <= c <= '\U{F8FF}')
    || ('\U{F0000}' <= c <= '\U{FFFFD}')
    || ('\U{100000}' <= c <= '\U{10FFFD}')
    // Cn: the noncharacters of the Basic Multilingual Plane
    || ('\U{FDD0}' <= c <= '\U{FDEF}')
    || c == '\U{FFFE}' || c == '\U{FFFF}'
  }

  /** `s.lstrip(chars)`: drops the leading run of characters satisfying `drop`. */
  function TrimStart(s: string, drop: char -> bool): (r: string)
    ensures |r| <= |s| && r == s[|s| - |r|..]
    ensures forall i :: 0 <= i < |s| - |r| ==> drop(s[i])
    ensures r == [] || !drop(r[0])
  {
    if s != [] && drop(s[0]) then
      var r := TrimStart(s[1..], drop);
      assert s[1..][|s| - 1 - |r|..] == s[|s| - |r|..];
      assert forall i :: 0 < i < |s| - |r| ==> s[i] == s[1..][i - 1];
      r
    else s
  }

  /** `s.rstrip(chars)`: drops the trailing run of characters satisfying `drop`. */
  function TrimEnd(s: string, drop: char -> bool): (r: string)
    ensures |r| <= |s| && r == s[..|r|]
    ensures forall i :: |r| <= i < |s| ==> drop(s[i])
    ensures r == [] || !drop(r[|r| - 1])
  {
    if s != [] && drop(s[|s| - 1]) then
      var r := TrimEnd(s[..|s| - 1], drop);
      assert s[..|s| - 1][..|r|] == s[..|r|];
      r
    else s
  }

  /** `s.strip(chars)`: both runs removed; a string with nothing to drop at either end is left alone. */
  function Trim(s: string, drop: char -> bool): (r: string)
    ensures |r| <= |s|
    ensures r == [] || (!drop(r[0]) && !drop(r[|r| - 1]))
    ensures (s == [] || (!drop(s[0]) && !drop(s[|s| - 1]))) ==> r == s
  {
    var t := TrimStart(s, drop);
    var r := TrimEnd(t, drop);
    assert r != [] ==> r[0] == t[0];
    r
  }

  /** Stripping a text padded on both sides by dropped characters gives the text back. */
  lemma TrimPadded(a: string, t: string, b: string, drop: char -> bool)
    requires All(a, drop) && All(b, drop)
    requires t != [] && !drop(t[0]) && !drop(t[|t| - 1])
    ensures Trim(a + t + b, drop) == t
  {
    assert a + t + b == a + (t + b);
    assert (t + b)[0] == t[0];
    TrimStartPadded(a, t + b, drop);
    TrimEndPadded(t, b, drop);
  }

  lemma {:induction false} TrimStartPadded(a: string, t: string, drop: char -> bool)
    requires All(a, drop) && t != [] && !drop(t[0])
    ensures TrimStart(a + t, drop) == t
    decreases |a|
  {
    if a == [] {
      assert a + t == t;
    } else {
      assert (a + t)[0] == a[0];
      assert (a + t)[1..] == a[1..] + t;
      AllSlice(a, drop, 1, |a|);
      TrimStartPadded(a[1..], t, drop);
    }
  }

  lemma {:induction false} TrimEndPadded(t: string, b: string, drop: char -> bool)
    requires All(b, drop) && t != [] && !drop(t[|t| - 1])
    ensures TrimEnd(t + b, drop) == t
    decreases |b|
  {
    if b == [] {
      assert t + b == t;
    } else {
      var m := |b| - 1;
      assert (t + b)[|t + b| - 1] == b[m];
      assert (t + b)[..|t + b| - 1] == t + b[..m];
      AllSlice(b, drop, 0, m);
      TrimEndPadded(t, b[..m], drop);
    }
  }

  /** `s.strip()` with no argument. */
  function Strip(s: string): (r: string)
    ensures |r| <= |s|
    ensures r == [] || (!IsSpace(r[0]) && !IsSpace(r[|r| - 1]))
    ensures (s == [] || (!IsSpace(s[0]) && !IsSpace(s[|s| - 1]))) ==> r == s
  {
    Trim(s, IsSpace)
  }

  /** Text without whitespace at either end is left as it is. */
  lemma StripUnpadded(s: string)
    requires s == [] || (!IsSpace(s[0]) && !IsSpace(s[|s| - 1]))
    ensures Strip(s) == s
  {
  }

  /** Nothing but whitespace. */
  predicate Blank(s: string) {
    forall i :: 0 <= i < |s| ==> IsSpace(s[i])
  }

  /** `s.strip()` is empty exactly when `s` is all whitespace. */
  lemma StripEmpty(s: string)
    ensures Blank(s) <==> Strip(s) == []
  {
    var t := TrimStart(s, IsSpace);
    assert Strip(s) == TrimEnd(t, IsSpace);
    assert forall i :: |s| - |t| <= i < |s| ==> s[i] == t[i - (|s| - |t|)];
  }

  /** At least two characters that are not whitespace. */
  predicate TwoVisible(s: string) {
    exists i, j :: 0 <= i < j < |s| && !IsSpace(s[i]) && !IsSpace(s[j])
  }

  /** Trimming leaves two or more characters exactly when two of them are not dropped. */
  lemma TrimAtLeastTwo(s: string, drop: char -> bool)
    ensures |Trim(s, drop)| >= 2 <==> exists i, j :: 0 <= i < j < |s| && !drop(s[i]) && !drop(s[j])
  {
    var t := TrimStart(s, drop);
    var r := TrimEnd(t, drop);
    assert Trim(s, drop) == r;
    if |r| >= 2 {
      TrimmedEnds(s, drop, t, r);
    }
    if exists i, j :: 0 <= i < j < |s| && !drop(s[i]) && !drop(s[j]) {
      var i, j :| 0 <= i < j < |s| && !drop(s[i]) && !drop(s[j]);
      KeptPair(s, drop, i, j);
    }
  }

  lemma KeptPair(s: string, drop: char -> bool, i: int, j: int)
    requires 0 <= i < j < |s| && !drop(s[i]) && !drop(s[j])
    ensures |Trim(s, drop)| >= 2
  {
    var q := StartKeeps(s, drop, i, j);
    TrimEndStops(TrimStart(s, drop), drop, q);
  }

  /** A kept character after another kept one is still there, not first, after the leading run is dropped. */
  lemma StartKeeps(s: string, drop: char -> bool, i: int, j: int) returns (q: nat)
    requires 0 <= i < j < |s| && !drop(s[i]) && !drop(s[j])
    ensures 1 <= q < |TrimStart(s, drop)| && !drop(TrimStart(s, drop)[q])
  {
    TrimStartStops(s, drop, i);
    q := SuffixIndex(s, TrimStart(s, drop), i, j);
  }

  /** Where the characters after position `i` are in a suffix that starts at or before `i`. */
  lemma SuffixIndex(s: string, t: string, i: int, j: int) returns (q: nat)
    requires |t| <= |s| && t == s[|s| - |t|..] && |s| - |t| <= i < j < |s|
    ensures 1 <= q < |t| && t[q] == s[j]
  {
    q := j - (|s| - |t|);
  }

  lemma TrimmedEnds(s: string, drop: char -> bool, t: string, r: string)
    requires t == TrimStart(s, drop) && r == TrimEnd(t, drop) && |r| >= 2
    ensures exists i, j :: 0 <= i < j < |s| && !drop(s[i]) && !drop(s[j])
  {
    var off := |s| - |t|;
    assert r[0] == t[0] == s[off];
    assert r[|r| - 1] == t[|r| - 1] == s[off + |r| - 1];
    assert 0 <= off < off + |r| - 1 < |s|;
  }

  /** The leading run ends at or before the first kept character. */
  lemma TrimStartStops(s: string, drop: char -> bool, i: int)
    requires 0 <= i < |s| && !drop(s[i])
    ensures |s| - |TrimStart(s, drop)| <= i
  {
  }

  /** The trailing run starts after the last kept character. */
  lemma TrimEndStops(t: string, drop: char -> bool, q: int)
    requires 0 <= q < |t| && !drop(t[q])
    ensures q < |TrimEnd(t, drop)|
  {
  }

  /** `len(s.strip()) >= 2` exactly when `s` has two characters that are not whitespace. */
  lemma StripAtLeastTwo(s: string)
    ensures |Strip(s)| >= 2 <==> TwoVisible(s)
  {
    TrimAtLeastTwo(s, IsSpace);
  }

  /** ' ' is the only whitespace character of `s` and no two spaces are adjacent. */
  ghost predicate SingleSpaced(s: string) {
    && (forall i :: 0 <= i < |s| && IsSpace(s[i]) ==> s[i] == ' ')
    && (forall i, j :: 0 <= i < j < |s| && j == i + 1 ==> s[i] != ' ' || s[j] != ' ')
  }

  /** Single-spaced and without whitespace at either end. */
  ghost predicate Tidy(s: string) {
    SingleSpaced(s) && (s == [] || (!IsSpace(s[0]) && !IsSpace(s[|s| - 1])))
  }

  lemma SingleSpacedSlice(s: string, a: nat, b: nat)
    requires a <= b <= |s|
    requires SingleSpaced(s)
    ensures SingleSpaced(s[a..b])
  {
    var t := s[a..b];
    forall i, j | 0 <= i < j < |t| && j == i + 1 ensures t[i] != ' ' || t[j] != ' ' {
      assert t[i] == s[a + i] && t[j] == s[a + j];
    }
  }

  /** Stripping a single-spaced string leaves it tidy. */
  lemma StripTidy(s: string)
    requires SingleSpaced(s)
    ensures Tidy(Strip(s))
  {
    var t := TrimStart(s, IsSpace);
    SingleSpacedSlice(s, |s| - |t|, |s|);
    var r := TrimEnd(t, IsSpace);
    SingleSpacedSlice(t, 0, |r|);
    assert Strip(s) == r;
  }

  /** Every character of `s` satisfies `p`. */
  ghost predicate All(s: string, p: char -> bool) {
    forall i :: 0 <= i < |s| ==> p(s[i])
  }

  lemma AllSlice(s: string, p: char -> bool, a: nat, b: nat)
    requires a <= b <= |s| && All(s, p)
    ensures All(s[a..b], p)
  {
    assert forall i :: 0 <= i < b - a ==> s[a..b][i] == s[a + i];
  }

  lemma AllAppend(s: string, t: string, p: char -> bool)
    requires All(s, p) && All(t, p)
    ensures All(s + t, p)
  {
    assert forall i :: |s| <= i < |s + t| ==> (s + t)[i] == t[i - |s|];
  }

  lemma AllStrip(s: string, p: char -> bool)
    requires All(s, p)
    ensures All(Strip(s), p)
  {
    var t := TrimStart(s, IsSpace);
    AllSlice(s, p, |s| - |t|, |s|);
    var r := TrimEnd(t, IsSpace);
    AllSlice(t, p, 0, |r|);
  }

  /** Collapsing whitespace introduces no character other than ' '. */
  lemma {:induction false} AllCollapse(s: string, p: char -> bool)
    requires p(' ') && All(s, p)
    ensures All(CollapseSpaces(s), p)
    decreases |s|
  {
    if s == [] {
    } else if IsSpace(s[0]) {
      var rest := TrimStart(s[1..], IsSpace);
      assert rest == s[|s| - |rest|..];
      AllSlice(s, p, |s| - |rest|, |s|);
      AllCollapse(rest, p);
      AllAppend([' '], CollapseSpaces(rest), p);
    } else {
      AllSlice(s, p, 1, |s|);
      AllCollapse(s[1..], p);
      AllAppend([s[0]], CollapseSpaces(s[1..]), p);
    }
  }

  /** The characters of `s` that satisfy `p`, in order. */
  function Keep(s: string, p: char -> bool): (r: string)
    ensures |r| <= |s|
    ensures All(r, p)
    ensures All(s, p) ==> r == s
  {
    if s == [] then []
    else
      var tail := Keep(s[1..], p);
      assert All(s, p) ==> All(s[1..], p) by {
        if All(s, p) { AllSlice(s, p, 1, |s|); }
      }
      var head := if p(s[0]) then [s[0]] else [];
      AllAppend(head, tail, p);
      head + tail
  }

  lemma KeepAll(s: string, p: char -> bool)
    requires All(s, p)
    ensures Keep(s, p) == s
  {
  }

  /** A single character is kept exactly when it satisfies `p`. */
  lemma KeepOne(c: char, p: char -> bool)
    ensures Keep([c], p) == if p(c) then [c] else []
  {
    assert [c][1..] == [];
  }

  /** Filtering distributes over concatenation; with `KeepOne` this fixes `Keep` on every input. */
  lemma {:induction false} KeepAppend(a: string, b: string, p: char -> bool)
    ensures Keep(a + b, p) == Keep(a, p) + Keep(b, p)
    decreases |a|
  {
    if a == [] {
      assert a + b == b;
    } else {
      var c, rest := a[0], a[1..];
      assert a == [c] + rest;
      assert a + b == [c] + (rest + b);
      var head := if p(c) then [c] else [];
      KeepCons(c, rest + b, p);
      KeepCons(c, rest, p);
      KeepAppend(rest, b, p);
      ConcatAssoc(head, Keep(rest, p), Keep(b, p));
    }
  }

  lemma ConcatAssoc(x: string, y: string, z: string)
    ensures x + (y + z) == (x + y) + z
  {
  }

  lemma KeepCons(c: char, t: string, p: char -> bool)
    ensures Keep([c] + t, p) == (if p(c) then [c] else []) + Keep(t, p)
  {
    assert ([c] + t)[1..] == t;
  }

  /** A tidy text followed by one visible character is still tidy. */
  lemma TidyAppendVisible(s: string, c: char)
    requires Tidy(s) && !IsSpace(c)
    ensures Tidy(s + [c])
  {
    var t := s + [c];
    assert forall i :: 0 <= i < |s| ==> t[i] == s[i];
    forall i, j | 0 <= i < j < |t| && j == i + 1 ensures t[i] != ' ' || t[j] != ' ' {
      if j < |s| {
        assert s[i] != ' ' || s[j] != ' ';
      } else {
        assert t[j] == c;
      }
    }
  }

  /** The non-whitespace characters of `s`, in order. */
  function Visible(s: string): string {
    if s == [] then [] else (if IsSpace(s[0]) then [] else [s[0]]) + Visible(s[1..])
  }

  lemma {:induction false} VisibleOfSpaces(s: string)
    requires forall i :: 0 <= i < |s| ==> IsSpace(s[i])
    ensures Visible(s) == []
  {
    if s != [] {
      VisibleOfSpaces(s[1..]);
    }
  }

  lemma {:induction false} VisibleAppend(a: string, b: string)
    ensures Visible(a + b) == Visible(a) + Visible(b)
  {
    if a == [] {
      assert a + b == b;
    } else {
      assert (a + b)[1..] == a[1..] + b;
      VisibleAppend(a[1..], b);
    }
  }

  lemma {:induction false} VisibleTrimStart(s: string)
    ensures Visible(TrimStart(s, IsSpace)) == Visible(s)
  {
    if s != [] && IsSpace(s[0]) {
      VisibleTrimStart(s[1..]);
    }
  }

  lemma VisibleTrimEnd(t: string)
    ensures Visible(TrimEnd(t, IsSpace)) == Visible(t)
  {
    var r := TrimEnd(t, IsSpace);
    var dropped := t[|r|..];
    assert t == r + dropped;
    VisibleAppend(r, dropped);
    VisibleOfSpaces(dropped);
  }

  lemma VisibleStrip(s: string)
    ensures Visible(Strip(s)) == Visible(s)
  {
    VisibleTrimStart(s);
    VisibleTrimEnd(TrimStart(s, IsSpace));
  }

  /**
   * `re.sub(r"\s+", " ", s)`: every maximal run of whitespace becomes one ' '.
   * Afterwards ' ' is the only whitespace character and no two spaces are adjacent;
   * the result starts with a space only where `s` starts with whitespace (and ends with
   * one only where `s` ends with whitespace, `CollapseLast`).
   */
  function CollapseSpaces(s: string): (r: string)
    ensures |r| <= |s|
    ensures (r == []) <==> (s == [])
    ensures SingleSpaced(r)
    ensures r != [] && r[0] == ' ' ==> IsSpace(s[0])
    decreases |s|
  {
    if s == [] then []
    else if IsSpace(s[0]) then
      var rest := TrimStart(s[1..], IsSpace);
      var tail := CollapseSpaces(rest);
      SingleSpacedCons(' ', tail);
      [' '] + tail
    else
      var tail := CollapseSpaces(s[1..]);
      SingleSpacedCons(s[0], tail);
      [s[0]] + tail
  }

  /** The result of `CollapseSpaces` ends with a space only where `s` ends with whitespace. */
  lemma {:induction false} CollapseLast(s: string)
    ensures var r := CollapseSpaces(s); r != [] && r[|r| - 1] == ' ' ==> IsSpace(s[|s| - 1])
    decreases |s|
  {
    if s != [] {
      var r := CollapseSpaces(s);
      if IsSpace(s[0]) {
        var rest := TrimStart(s[1..], IsSpace);
        CollapseLast(rest);
        assert r == [' '] + CollapseSpaces(rest);
        if rest != [] {
          assert rest[|rest| - 1] == s[|s| - 1];
        } else if |s| > 1 {
          assert IsSpace(s[1..][|s| - 2]);
        }
      } else {
        CollapseLast(s[1..]);
        assert r == [s[0]] + CollapseSpaces(s[1..]);
        if |s| > 1 {
          assert s[1..][|s| - 2] == s[|s| - 1];
        }
      }
    }
  }

  /** One more character in front keeps a text single-spaced unless it makes two spaces. */
  lemma SingleSpacedCons(c: char, tail: string)
    requires SingleSpaced(tail) && (IsSpace(c) ==> c == ' ')
    requires c == ' ' ==> tail == [] || tail[0] != ' '
    ensures SingleSpaced([c] + tail)
  {
    var r := [c] + tail;
    assert forall i :: 1 <= i < |r| ==> r[i] == tail[i - 1];
  }

  /** Collapsing whitespace keeps every visible character, in order. */
  lemma {:induction false} VisibleCollapse(s: string)
    ensures Visible(CollapseSpaces(s)) == Visible(s)
    decreases |s|
  {
    if s == [] {
    } else if IsSpace(s[0]) {
      var rest := TrimStart(s[1..], IsSpace);
      var tail := CollapseSpaces(rest);
      VisibleCollapse(rest);
      VisibleTrimStart(s[1..]);
      assert CollapseSpaces(s) == [' '] + tail;
      VisibleCons(' ', tail);
    } else {
      var tail := CollapseSpaces(s[1..]);
      VisibleCollapse(s[1..]);
      assert CollapseSpaces(s) == [s[0]] + tail;
      VisibleCons(s[0], tail);
    }
  }

  /** A non-whitespace character is copied, and collapsing goes on after it. */
  lemma CollapseVisibleCons(c: char, t: string)
    requires !IsSpace(c)
    ensures CollapseSpaces([c] + t) == [c] + CollapseSpaces(t)
  {
    assert ([c] + t)[1..] == t;
  }

  /**
   * A maximal run of whitespace becomes exactly one ' '; with `CollapseVisibleCons`
   * this fixes `CollapseSpaces` on every input.
   */
  lemma CollapseRun(w: string, t: string)
    requires w != [] && All(w, IsSpace)
    requires t == [] || !IsSpace(t[0])
    ensures CollapseSpaces(w + t) == [' '] + CollapseSpaces(t)
  {
    assert (w + t)[0] == w[0];
    assert (w + t)[1..] == w[1..] + t;
    TrimSpaceRun(w[1..], t);
  }

  /** `lstrip` drops a whole leading run of whitespace and nothing after it. */
  lemma {:induction false} TrimSpaceRun(w: string, t: string)
    requires All(w, IsSpace)
    requires t == [] || !IsSpace(t[0])
    ensures TrimStart(w + t, IsSpace) == t
    decreases |w|
  {
    if w == [] {
      assert w + t == t;
    } else {
      assert (w + t)[0] == w[0];
      assert (w + t)[1..] == w[1..] + t;
      TrimSpaceRun(w[1..], t);
    }
  }

  lemma VisibleCons(c: char, t: string)
    ensures Visible([c] + t) == (if IsSpace(c) then [] else [c]) + Visible(t)
  {
    assert ([c] + t)[1..] == t;
  }

  /** Text that is already single-spaced has nothing to collapse. */
  lemma {:induction false} CollapseSingleSpaced(s: string)
    requires SingleSpaced(s)
    ensures CollapseSpaces(s) == s
    decreases |s|
  {
    if s != [] {
      SingleSpacedSlice(s, 1, |s|);
      CollapseSingleSpaced(s[1..]);
      if IsSpace(s[0]) {
        SpaceThenVisible(s);
        CollapseConsSpace(s);
      } else {
        CollapseConsVisible(s);
      }
    }
  }

  lemma CollapseConsSpace(s: string)
    requires s != [] && s[0] == ' ' && TrimStart(s[1..], IsSpace) == s[1..]
    requires CollapseSpaces(s[1..]) == s[1..]
    ensures CollapseSpaces(s) == s
  {
    assert CollapseSpaces(s) == [' '] + CollapseSpaces(s[1..]);
    assert s == [s[0]] + s[1..];
  }

  lemma CollapseConsVisible(s: string)
    requires s != [] && !IsSpace(s[0]) && CollapseSpaces(s[1..]) == s[1..]
    ensures CollapseSpaces(s) == s
  {
    assert CollapseSpaces(s) == [s[0]] + CollapseSpaces(s[1..]);
    assert s == [s[0]] + s[1..];
  }

  /** In a single-spaced text, a space is ' ' and is followed by no whitespace. */
  lemma SpaceThenVisible(s: string)
    requires SingleSpaced(s) && s != [] && IsSpace(s[0])
    ensures s[0] == ' ' && TrimStart(s[1..], IsSpace) == s[1..]
  {
    if |s| > 1 {
      assert s[0] != ' ' || s[1] != ' ';
      assert s[1..][0] == s[1];
    }
  }

  /** Collapsing whitespace twice is the same as collapsing it once. */
  lemma {:induction false} CollapseIdempotent(s: string)
    ensures CollapseSpaces(CollapseSpaces(s)) == CollapseSpaces(s)
    decreases |s|
  {
    if s == [] {
    } else if IsSpace(s[0]) {
      var rest := TrimStart(s[1..], IsSpace);
      var tail := CollapseSpaces(rest);
      CollapseIdempotent(rest);
      var r := [' '] + tail;
      assert r[1..] == tail;
      assert TrimStart(r[1..], IsSpace) == tail;
    } else {
      CollapseIdempotent(s[1..]);
      var r := [s[0]] + CollapseSpaces(s[1..]);
      assert r[1..] == CollapseSpaces(s[1..]);
    }
  }

  /** Python's `s[:n]`, where a negative `n` counts from the end. */
  function PyPrefix(s: string, n: int): (r: string)
    ensures |r| <= |s| && r == s[..|r|]
    ensures 0 <= n ==> |r| == (if n <= |s| then n else |s|)
    ensures n < 0 ==> |r| == (if -n <= |s| then |s| + n else 0)
  {
    if 0 <= n then (if n <= |s| then s[..n] else s)
    else if -n <= |s| then s[..|s| + n]
    else []
  }

  /** `str.lower` on one character; only A-Z are mapped (see README for why this suffices). */
  function LowerChar(c: char): char {
    if 'A' <= c <= 'Z' then (c as int + 32) as char else c
  }

  function Lower(s: string): (r: string)
    ensures |r| == |s|
    ensures forall i :: 0 <= i < |s| ==> r[i] == LowerChar(s[i])
  {
    if s == [] then [] else [LowerChar(s[0])] + Lower(s[1..])
  }
}
