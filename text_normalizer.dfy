/**
 * `KeywordFinder.normalize_text`: decompose, drop combining marks, delete
 * every character that is neither a word character, whitespace nor a hyphen,
 * collapse whitespace runs to one space, trim, lower-case. The decomposition
 * and the character classes come from the tables; the filtering, collapsing,
 * trimming and lower-casing are modelled character by character.
 */
module TextNormalizer {
  import opened CharTables

  /** The characters of `s` that satisfy `p`, in their order. */
  function Keep(p: char -> bool, s: string): (r: string)
    ensures |r| <= |s|
    ensures forall i :: 0 <= i < |r| ==> p(r[i])
    ensures forall c :: c in r <==> c in s && p(c)
  {
    if s == [] then [] else (if p(s[0]) then [s[0]] else []) + Keep(p, s[1..])
  }

  /** Step 2: keep the characters `unicodedata.combining` reports as 0. */
  function DropCombining(t: CharTables, s: string): (r: string)
    ensures forall c :: c in r <==> c in s && !t.combining(c)
  {
    Keep(c => !t.combining(c), s)
  }

  /** The characters the pattern `[^\w\s-]` does not match. */
  predicate IsKept(t: CharTables, c: char)
  {
    t.isWord(c) || t.isSpace(c) || c == '-'
  }

  /** Step 3: delete every match of `[^\w\s-]`. */
  function RemovePunctuation(t: CharTables, s: string): (r: string)
    ensures forall c :: c in r <==> c in s && IsKept(t, c)
  {
    Keep(c => IsKept(t, c), s)
  }

  /** Where the run of whitespace starting at index `i` of `s` ends. */
  function SpaceRunEnd(t: CharTables, s: string, i: int): (r: int)
    requires 0 <= i <= |s|
    ensures i <= r <= |s|
    ensures forall j :: i <= j < r ==> t.isSpace(s[j])
    ensures r < |s| ==> !t.isSpace(s[r])
    decreases |s| - i
  {
    if i < |s| && t.isSpace(s[i]) then SpaceRunEnd(t, s, i + 1) else i
  }

  /** Where the run of whitespace ending just before index `i` of `s` starts,
      looking no further left than `lo`. */
  function SpaceRunStart(t: CharTables, s: string, lo: int, i: int): (r: int)
    requires 0 <= lo <= i <= |s|
    ensures lo <= r <= i
    ensures forall j :: r <= j < i ==> t.isSpace(s[j])
    ensures r > lo ==> !t.isSpace(s[r - 1])
    decreases i
  {
    if i > lo && t.isSpace(s[i - 1]) then SpaceRunStart(t, s, lo, i - 1) else i
  }

  /** `lstrip()`: `s` without its leading whitespace. */
  function TrimStart(t: CharTables, s: string): string
  {
    s[SpaceRunEnd(t, s, 0)..]
  }

  /** `strip()`: `s` without its leading and its trailing whitespace. */
  function Strip(t: CharTables, s: string): string
  {
    var k := SpaceRunEnd(t, s, 0);
    s[k..SpaceRunStart(t, s, k, |s|)]
  }

  /** What `strip()` leaves is a slice of `s`; everything cut off at either
      end is whitespace, and no whitespace is left at either end. */
  lemma StripSlice(t: CharTables, s: string)
    ensures var r, k := Strip(t, s), SpaceRunEnd(t, s, 0);
      && k + |r| <= |s| && r == s[k..k + |r|]
      && (forall j :: 0 <= j < k ==> t.isSpace(s[j]))
      && (forall j :: k + |r| <= j < |s| ==> t.isSpace(s[j]))
      && (r != [] ==> !t.isSpace(r[0]) && !t.isSpace(r[|r| - 1]))
  {
  }

  /** Step 4: `re.sub(r"\s+", " ", s)`, every maximal run of whitespace
      becomes one plain space. */
  function Collapse(t: CharTables, s: string): string
    decreases |s|
  {
    if s == [] then []
    else if t.isSpace(s[0]) then
      [' '] + Collapse(t, TrimStart(t, s))
    else
      [s[0]] + Collapse(t, s[1..])
  }

  /** Collapsing never lengthens the text; it starts with a space exactly
      where the text starts with whitespace, and otherwise with the same
      character; and it holds only plain spaces and the text's own
      non-whitespace characters. */
  lemma {:induction false} CollapseChars(t: CharTables, s: string)
    ensures var r := Collapse(t, s);
      && |r| <= |s|
      && (s != [] ==> r != [] && r[0] == (if t.isSpace(s[0]) then ' ' else s[0]))
      && (forall c :: c in r ==> c == ' ' || (c in s && !t.isSpace(c)))
    decreases |s|
  {
    if s != [] {
      var rest := if t.isSpace(s[0]) then TrimStart(t, s) else s[1..];
      var head := if t.isSpace(s[0]) then ' ' else s[0];
      if t.isSpace(s[0]) {
        assert SpaceRunEnd(t, s, 0) >= 1;
      }
      assert |rest| < |s| && forall c :: c in rest ==> c in s;
      CollapseChars(t, rest);
      assert Collapse(t, s) == [head] + Collapse(t, rest);
    }
  }

  /** `CollapseChars`, and no two whitespace characters are adjacent in the
      result. */
  lemma {:induction false} CollapseShape(t: CharTables, s: string)
    ensures var r := Collapse(t, s);
      && |r| <= |s|
      && (s != [] ==> r != [] && r[0] == (if t.isSpace(s[0]) then ' ' else s[0]))
      && (forall c :: c in r ==> c == ' ' || (c in s && !t.isSpace(c)))
      && (forall i :: 0 <= i < |r| - 1 && t.isSpace(r[i]) ==> !t.isSpace(r[i + 1]))
    decreases |s|
  {
    CollapseChars(t, s);
    if s != [] {
      var r := Collapse(t, s);
      var rest := if t.isSpace(s[0]) then TrimStart(t, s) else s[1..];
      var head := if t.isSpace(s[0]) then ' ' else s[0];
      if t.isSpace(s[0]) {
        assert SpaceRunEnd(t, s, 0) >= 1;
      }
      assert rest != [] ==> !t.isSpace(rest[0]) || !t.isSpace(s[0]);
      CollapseShape(t, rest);
      var tail := Collapse(t, rest);
      assert r == [head] + tail;
      forall i | 0 <= i < |r| - 1 && t.isSpace(r[i])
        ensures !t.isSpace(r[i + 1])
      {
        if i > 0 {
          assert r[i] == tail[i - 1] && r[i + 1] == tail[i];
        } else {
          assert r[1] == tail[0];
        }
      }
    }
  }

  /** Step 5: `lower()`, one character at a time. */
  function Lower(t: CharTables, s: string): (r: string)
    ensures |r| == |s|
    ensures forall i :: 0 <= i < |s| ==> r[i] == t.lower(s[i])
  {
    seq(|s|, i requires 0 <= i < |s| => t.lower(s[i]))
  }

  /** `normalize_text`: empty text is returned as the empty string before any
      step runs; otherwise the five steps in order. */
  function Normalize(t: CharTables, text: string): (r: string)
    ensures text == [] ==> r == []
  {
    if text == [] then []
    else Lower(t, Strip(t, Collapse(t, RemovePunctuation(t, DropCombining(t, t.nfkd(text))))))
  }

  // ---------------------------------------------------------------------------
  // What collapsing keeps.

  /** The test "is not whitespace". */
  function NotSpace(t: CharTables): char -> bool
  {
    c => !t.isSpace(c)
  }

  lemma KeepCons(p: char -> bool, c: char, x: string)
    ensures Keep(p, [c] + x) == (if p(c) then [c] else []) + Keep(p, x)
  {
    assert ([c] + x)[1..] == x;
  }

  /** Skipping a run of whitespace does not change the non-whitespace text. */
  lemma {:induction false} SpaceRunKeepsText(t: CharTables, s: string, i: int)
    requires 0 <= i <= |s|
    ensures Keep(NotSpace(t), s[SpaceRunEnd(t, s, i)..]) == Keep(NotSpace(t), s[i..])
    decreases |s| - i
  {
    if i < |s| && t.isSpace(s[i]) {
      SpaceRunKeepsText(t, s, i + 1);
      KeepCons(NotSpace(t), s[i], s[i + 1..]);
      assert s[i..] == [s[i]] + s[i + 1..];
    }
  }

  /** Cutting off leading whitespace does not change the non-whitespace text. */
  lemma TrimStartKeepsText(t: CharTables, s: string)
    ensures Keep(NotSpace(t), TrimStart(t, s)) == Keep(NotSpace(t), s)
  {
    SpaceRunKeepsText(t, s, 0);
    assert s[0..] == s;
  }

  /** Collapsing changes whitespace only: the characters that are not
      whitespace are the same, in the same order, before and after. */
  lemma {:induction false} CollapseKeepsText(t: CharTables, s: string)
    requires t.isSpace(' ')
    ensures Keep(NotSpace(t), Collapse(t, s)) == Keep(NotSpace(t), s)
    decreases |s|
  {
    if s != [] {
      if t.isSpace(s[0]) {
        var rest := TrimStart(t, s);
        CollapseKeepsText(t, rest);
        KeepCons(NotSpace(t), ' ', Collapse(t, rest));
        TrimStartKeepsText(t, s);
      } else {
        CollapseKeepsText(t, s[1..]);
        KeepCons(NotSpace(t), s[0], Collapse(t, s[1..]));
        KeepCons(NotSpace(t), s[0], s[1..]);
        assert [s[0]] + s[1..] == s;
      }
    }
  }

  /** Text whose whitespace is already single plain spaces is left as it is:
      collapsing is a projection. */
  lemma {:induction false} CollapseFixpoint(t: CharTables, s: string)
    requires SingleSpaced(t, s)
    ensures Collapse(t, s) == s
  {
    if s != [] {
      var tail := s[1..];
      SingleSpacedTail(t, s);
      CollapseFixpoint(t, tail);
      if t.isSpace(s[0]) {
        assert SpaceRunEnd(t, s, 0) == 1;
      }
      assert s == [s[0]] + tail;
    }
  }

  lemma SingleSpacedTail(t: CharTables, s: string)
    requires s != [] && SingleSpaced(t, s)
    ensures SingleSpaced(t, s[1..])
    ensures t.isSpace(s[0]) ==> s[0] == ' ' && (|s| == 1 || !t.isSpace(s[1]))
  {
    var tail := s[1..];
    assert forall i :: 0 <= i < |tail| ==> tail[i] == s[i + 1];
  }

  /** `kept` is the subsequence of `s` at the indices `idx`, each of whose
      characters satisfies `p`. */
  predicate PicksSound(p: char -> bool, s: string, kept: string, idx: seq<nat>)
  {
    && |idx| == |kept|
    && (forall k :: 0 <= k < |idx| ==> idx[k] < |s| && p(s[idx[k]]) && kept[k] == s[idx[k]])
  }

  /** The indices increase. */
  predicate Increasing(idx: seq<nat>)
  {
    forall k, l :: 0 <= k < l < |idx| ==> idx[k] < idx[l]
  }

  /** Every index of `s` whose character satisfies `p` is in `idx`. */
  predicate PicksAll(p: char -> bool, s: string, idx: seq<nat>)
  {
    forall i :: 0 <= i < |s| && p(s[i]) ==> i in idx
  }

  /** `kept` is the subsequence of `s` at the increasing indices `idx`, and
      those are exactly the indices whose characters satisfy `p`. */
  predicate Picks(p: char -> bool, s: string, kept: string, idx: seq<nat>)
  {
    PicksSound(p, s, kept, idx) && Increasing(idx) && PicksAll(p, s, idx)
  }

  /** `Keep` is the subsequence of exactly the characters that satisfy `p`:
      their indices increase, every character kept satisfies `p`, and every
      index whose character satisfies `p` is kept. */
  lemma {:induction false} KeepSubsequence(p: char -> bool, s: string) returns (idx: seq<nat>)
    ensures Picks(p, s, Keep(p, s), idx)
    decreases |s|
  {
    if s == [] {
      idx := [];
    } else {
      var tail := s[1..];
      var rest := KeepSubsequence(p, tail);
      KeepCons(p, s[0], tail);
      assert [s[0]] + tail == s;
      var kept := Keep(p, tail);
      ShiftSorted(rest);
      if p(s[0]) {
        idx := [0] + Shift(rest);
        TakeSound(p, s[0], tail, kept, rest);
        TakeSorted(Shift(rest));
        TakeAll(p, s[0], tail, rest);
      } else {
        idx := Shift(rest);
        ShiftSound(p, s[0], tail, kept, rest);
        SkipAll(p, s[0], tail, rest);
      }
    }
  }

  /** Every index one place on. */
  function Shift(idx: seq<nat>): (r: seq<nat>)
    ensures |r| == |idx| && forall k :: 0 <= k < |idx| ==> r[k] == idx[k] + 1
  {
    if idx == [] then [] else [idx[0] + 1] + Shift(idx[1..])
  }

  /** The indices of the tail, one place on, pick the same characters out
      of the text. */
  lemma ShiftSound(p: char -> bool, c: char, tail: string, kept: string, rest: seq<nat>)
    requires PicksSound(p, tail, kept, rest)
    ensures PicksSound(p, [c] + tail, kept, Shift(rest))
  {
    var s, sh := [c] + tail, Shift(rest);
    forall k | 0 <= k < |rest|
      ensures sh[k] < |s| && p(s[sh[k]]) && kept[k] == s[sh[k]]
    {
      assert s[rest[k] + 1] == tail[rest[k]];
    }
  }

  lemma ShiftSorted(rest: seq<nat>)
    requires Increasing(rest)
    ensures Increasing(Shift(rest))
  {
  }

  /** Every index after the first whose character satisfies `p` is among the
      tail's indices, one place on. */
  lemma ShiftAll(p: char -> bool, c: char, tail: string, rest: seq<nat>)
    requires PicksAll(p, tail, rest)
    ensures forall i :: 1 <= i < |[c] + tail| && p(([c] + tail)[i]) ==> i in Shift(rest)
  {
    var s, sh := [c] + tail, Shift(rest);
    forall i | 1 <= i < |s| && p(s[i])
      ensures i in sh
    {
      assert s[i] == tail[i - 1];
      var k :| 0 <= k < |rest| && rest[k] == i - 1;
      assert sh[k] == i;
    }
  }

  lemma SkipAll(p: char -> bool, c: char, tail: string, rest: seq<nat>)
    requires !p(c) && PicksAll(p, tail, rest)
    ensures PicksAll(p, [c] + tail, Shift(rest))
  {
    ShiftAll(p, c, tail, rest);
    assert ([c] + tail)[0] == c;
  }

  lemma TakeSound(p: char -> bool, c: char, tail: string, kept: string, rest: seq<nat>)
    requires p(c) && PicksSound(p, tail, kept, rest)
    ensures PicksSound(p, [c] + tail, [c] + kept, [0] + Shift(rest))
  {
    ShiftSound(p, c, tail, kept, rest);
    var s, sh, idx := [c] + tail, Shift(rest), [0] + Shift(rest);
    forall k | 0 <= k < |idx|
      ensures idx[k] < |s| && p(s[idx[k]]) && ([c] + kept)[k] == s[idx[k]]
    {
      if k > 0 {
        assert idx[k] == sh[k - 1] && ([c] + kept)[k] == kept[k - 1];
      }
    }
  }

  lemma TakeSorted(sh: seq<nat>)
    requires Increasing(sh) && forall k :: 0 <= k < |sh| ==> sh[k] > 0
    ensures Increasing([0] + sh)
  {
    var idx := [0] + sh;
    forall k, l | 0 <= k < l < |idx|
      ensures idx[k] < idx[l]
    {
      assert idx[l] == sh[l - 1];
      if k > 0 {
        assert idx[k] == sh[k - 1];
      }
    }
  }

  lemma TakeAll(p: char -> bool, c: char, tail: string, rest: seq<nat>)
    requires PicksAll(p, tail, rest)
    ensures PicksAll(p, [c] + tail, [0] + Shift(rest))
  {
    ShiftAll(p, c, tail, rest);
    var idx := [0] + Shift(rest);
    forall i | 0 <= i < |[c] + tail| && p(([c] + tail)[i])
      ensures i in idx
    {
      if i == 0 {
        assert idx[0] == 0;
      } else {
        assert i in Shift(rest);
      }
    }
  }

  /** Step 2 keeps exactly the characters that are not combining marks, in
      their order and with their repetitions. */
  lemma DropCombiningInOrder(t: CharTables, s: string) returns (idx: seq<nat>)
    ensures |idx| == |DropCombining(t, s)|
    ensures forall k :: 0 <= k < |idx| ==>
      idx[k] < |s| && !t.combining(s[idx[k]]) && DropCombining(t, s)[k] == s[idx[k]]
    ensures forall k, l :: 0 <= k < l < |idx| ==> idx[k] < idx[l]
    ensures forall i :: 0 <= i < |s| && !t.combining(s[i]) ==> i in idx
  {
    idx := KeepSubsequence(c => !t.combining(c), s);
  }

  /** Step 3 keeps exactly the word characters, whitespace and hyphens, in
      their order and with their repetitions. */
  lemma RemovePunctuationInOrder(t: CharTables, s: string) returns (idx: seq<nat>)
    ensures |idx| == |RemovePunctuation(t, s)|
    ensures forall k :: 0 <= k < |idx| ==>
      idx[k] < |s| && IsKept(t, s[idx[k]]) && RemovePunctuation(t, s)[k] == s[idx[k]]
    ensures forall k, l :: 0 <= k < l < |idx| ==> idx[k] < idx[l]
    ensures forall i :: 0 <= i < |s| && IsKept(t, s[i]) ==> i in idx
  {
    idx := KeepSubsequence(c => IsKept(t, c), s);
  }

  // ---------------------------------------------------------------------------
  // Where collapsing puts its spaces.

  /** `s` is empty or its last character is not whitespace. */
  predicate EndsInText(t: CharTables, s: string)
  {
    s == [] || !t.isSpace(s[|s| - 1])
  }

  /** `s` is empty or its first character is not whitespace. */
  predicate StartsWithText(t: CharTables, s: string)
  {
    s == [] || !t.isSpace(s[0])
  }

  /** A run of whitespace before text that does not start with whitespace is
      cut off whole. */
  lemma TrimRun(t: CharTables, w: string, y: string)
    requires forall j :: 0 <= j < |w| ==> t.isSpace(w[j])
    requires StartsWithText(t, y)
    ensures TrimStart(t, w + y) == y
  {
    var s := w + y;
    assert forall j :: 0 <= j < |w| ==> t.isSpace(s[j]);
    assert y != [] ==> !t.isSpace(s[|w|]);
    assert SpaceRunEnd(t, s, 0) == |w|;
    assert s[|w|..] == y;
  }

  /** Leading whitespace of text that ends in text is cut off the same way
      whatever follows. */
  lemma TrimStartAppend(t: CharTables, x: string, z: string)
    requires x != [] && !t.isSpace(x[|x| - 1])
    ensures SpaceRunEnd(t, x, 0) < |x|
    ensures TrimStart(t, x + z) == TrimStart(t, x) + z
  {
    var s := x + z;
    var k := SpaceRunEnd(t, x, 0);
    var k' := SpaceRunEnd(t, s, 0);
    assert k < |x|;
    assert s[k] == x[k];
    assert forall j :: 0 <= j < k ==> t.isSpace(s[j]);
    assert k' == k;
    assert s[k..] == x[k..] + z;
  }

  /** What is left after cutting off leading whitespace still ends in text. */
  lemma TrimStartEnds(t: CharTables, x: string)
    requires x != [] && !t.isSpace(x[|x| - 1])
    ensures TrimStart(t, x) != [] && TrimStart(t, x)[|TrimStart(t, x)| - 1] == x[|x| - 1]
  {
    assert SpaceRunEnd(t, x, 0) < |x|;
  }

  /** Collapsing text that starts with whitespace: one space, then the rest
      after the run. */
  lemma CollapseSpaceHead(t: CharTables, s: string)
    requires s != [] && t.isSpace(s[0])
    ensures Collapse(t, s) == [' '] + Collapse(t, TrimStart(t, s))
  {
  }

  /** Collapsing text that starts with anything else: that character, then
      the rest. */
  lemma CollapseTextHead(t: CharTables, s: string)
    requires s != [] && !t.isSpace(s[0])
    ensures Collapse(t, s) == [s[0]] + Collapse(t, s[1..])
  {
  }

  lemma Regroup(a: string, b: string, c: string, d: string)
    ensures a + (b + c + d) == (a + b) + c + d
  {
  }

  /** The step of `CollapseRun` when the text before the run starts with
      whitespace. */
  lemma CollapseRunSpaceStep(t: CharTables, x: string, w: string, y: string)
    requires x != [] && t.isSpace(x[0]) && !t.isSpace(x[|x| - 1])
    requires Collapse(t, TrimStart(t, x) + w + y) == Collapse(t, TrimStart(t, x)) + " " + Collapse(t, y)
    ensures Collapse(t, x + w + y) == Collapse(t, x) + " " + Collapse(t, y)
  {
    var x' := TrimStart(t, x);
    TrimStartAppend(t, x, w + y);
    Assoc(x, w, y);
    Assoc(x', w, y);
    SplitHead(x, w + y);
    CollapseSpaceHead(t, x + w + y);
    CollapseSpaceHead(t, x);
    Regroup([' '], Collapse(t, x'), " ", Collapse(t, y));
  }


  /** The step of `CollapseRun` when the text before the run starts with
      anything else. */
  lemma CollapseRunTextStep(t: CharTables, x: string, w: string, y: string)
    requires x != [] && !t.isSpace(x[0])
    requires Collapse(t, x[1..] + w + y) == Collapse(t, x[1..]) + " " + Collapse(t, y)
    ensures Collapse(t, x + w + y) == Collapse(t, x) + " " + Collapse(t, y)
  {
    SplitHead(x, w + y);
    Assoc(x, w, y);
    Assoc(x[1..], w, y);
    CollapseTextHead(t, x + w + y);
    CollapseTextHead(t, x);
    Regroup([x[0]], Collapse(t, x[1..]), " ", Collapse(t, y));
  }

  lemma Assoc(a: string, b: string, c: string)
    ensures a + b + c == a + (b + c)
  {
  }

  lemma SplitHead(x: string, z: string)
    requires x != []
    ensures (x + z)[0] == x[0] && (x + z)[1..] == x[1..] + z
  {
  }

  /** A maximal run of whitespace, inside the text or at either end of it,
      becomes exactly one plain space; what is on either side is collapsed
      on its own. */
  lemma {:induction false} CollapseRun(t: CharTables, x: string, w: string, y: string)
    requires EndsInText(t, x) && StartsWithText(t, y)
    requires w != [] && forall j :: 0 <= j < |w| ==> t.isSpace(w[j])
    ensures Collapse(t, x + w + y) == Collapse(t, x) + " " + Collapse(t, y)
    decreases |x|
  {
    if x == [] {
      var s := x + w + y;
      assert s == w + y && s[0] == w[0];
      TrimRun(t, w, y);
      CollapseSpaceHead(t, s);
    } else if t.isSpace(x[0]) {
      TrimStartEnds(t, x);
      assert |TrimStart(t, x)| < |x|;
      CollapseRun(t, TrimStart(t, x), w, y);
      CollapseRunSpaceStep(t, x, w, y);
    } else {
      assert x[1..] != [] ==> x[1..][|x[1..]| - 1] == x[|x| - 1];
      CollapseRun(t, x[1..], w, y);
      CollapseRunTextStep(t, x, w, y);
    }
  }

  // ---------------------------------------------------------------------------
  // The shape of normalised text.

  /** Only word characters, plain spaces and hyphens. */
  predicate AllowedChars(t: CharTables, s: string)
  {
    forall i :: 0 <= i < |s| ==> t.isWord(s[i]) || s[i] == ' ' || s[i] == '-'
  }

  /** Every whitespace character is a plain space, and no two are adjacent. */
  predicate SingleSpaced(t: CharTables, s: string)
  {
    && (forall i :: 0 <= i < |s| && t.isSpace(s[i]) ==> s[i] == ' ')
    && (forall i :: 0 <= i < |s| - 1 && t.isSpace(s[i]) ==> !t.isSpace(s[i + 1]))
  }

  /** No whitespace at either end. */
  predicate Trimmed(t: CharTables, s: string)
  {
    s == [] || (!t.isSpace(s[0]) && !t.isSpace(s[|s| - 1]))
  }

  /** Lower-casing leaves the string as it is. */
  predicate IsLower(t: CharTables, s: string)
  {
    forall i :: 0 <= i < |s| ==> t.lower(s[i]) == s[i]
  }

  /** Every character is a plain space, or a word character or hyphen that
      is not whitespace. */
  predicate CleanChars(t: CharTables, s: string)
  {
    forall i :: 0 <= i < |s| ==> s[i] == ' ' || (!t.isSpace(s[i]) && (t.isWord(s[i]) || s[i] == '-'))
  }

  /** No two adjacent whitespace characters. */
  predicate NoDoubleSpace(t: CharTables, s: string)
  {
    forall i :: 0 <= i < |s| - 1 && t.isSpace(s[i]) ==> !t.isSpace(s[i + 1])
  }

  /** Collapsing punctuation-free text leaves only plain spaces, word
      characters and hyphens, with no two whitespace characters adjacent. */
  lemma CollapseClean(t: CharTables, a: string)
    requires forall c :: c in a ==> IsKept(t, c)
    ensures CleanChars(t, Collapse(t, a)) && NoDoubleSpace(t, Collapse(t, a))
  {
    var b := Collapse(t, a);
    CollapseShape(t, a);
    forall i | 0 <= i < |b|
      ensures b[i] == ' ' || (!t.isSpace(b[i]) && (t.isWord(b[i]) || b[i] == '-'))
    {
      assert b[i] in b;
    }
  }

  /** Stripping keeps those properties and trims both ends. */
  lemma StripClean(t: CharTables, b: string)
    requires CleanChars(t, b) && NoDoubleSpace(t, b)
    ensures CleanChars(t, Strip(t, b)) && NoDoubleSpace(t, Strip(t, b)) && Trimmed(t, Strip(t, b))
  {
    StripSlice(t, b);
    var c := Strip(t, b);
    var k := SpaceRunEnd(t, b, 0);
    forall i | 0 <= i < |c|
      ensures c[i] == b[k + i]
    {
    }
  }

  /** Lower-casing clean, trimmed text gives text in the shape of
      `normalize_text`'s output. */
  lemma LowerClean(t: CharTables, c: string)
    requires Coherent(t)
    requires CleanChars(t, c) && NoDoubleSpace(t, c) && Trimmed(t, c)
    ensures AllowedChars(t, Lower(t, c)) && SingleSpaced(t, Lower(t, c))
    ensures Trimmed(t, Lower(t, c)) && IsLower(t, Lower(t, c))
  {
  }

  /** What `normalize_text` promises about its output: only word characters,
      single spaces and hyphens, trimmed, and lower case. */
  lemma NormalizeShape(t: CharTables, text: string)
    requires Coherent(t)
    ensures AllowedChars(t, Normalize(t, text))
    ensures SingleSpaced(t, Normalize(t, text))
    ensures Trimmed(t, Normalize(t, text))
    ensures IsLower(t, Normalize(t, text))
  {
    if text != [] {
      var a := RemovePunctuation(t, DropCombining(t, t.nfkd(text)));
      CollapseClean(t, a);
      StripClean(t, Collapse(t, a));
      LowerClean(t, Strip(t, Collapse(t, a)));
    }
  }
}
