/**
 * The `KeywordFinder` class: the keyword list it stores, the automaton it
 * builds from it, boundary-checked extraction of matches from the
 * automaton's hits (`find_keywords`), and the statistics over the matches in
 * normalised text (`keyword_stats`).
 *
 * The repository holds two copies of the class. They agree except that the
 * copy at the top level lower-cases the text inside `find_keywords`; that
 * copy's two methods are `FindKeywordsLowering` and `KeywordStatsLowering`.
 */
module KeywordsFinder {
  import opened CharTables
  import opened TextNormalizer
  import opened Matcher

  /** One entry of `find_keywords`' result: `(word, start_index, end_index)`,
      both offsets inclusive. */
  datatype Match = Match(word: string, start: int, end: int)

  /** `keyword_stats`' result: `(unique count, unique keywords, matches, total)`. */
  datatype Stats = Stats(uniqueCount: nat, uniqueKeywords: seq<string>, matches: seq<Match>, total: nat)

  // ---------------------------------------------------------------------------
  // Keywords and the automaton built from them.

  /** `[kw.lower() for kw in keywords]`. */
  function LowerAll(t: CharTables, ks: seq<string>): seq<string>
  {
    seq(|ks|, i requires 0 <= i < |ks| => Lower(t, ks[i]))
  }

  /** The stored keywords: as many as given, in the same order, each the
      lower-cased input keyword of the same length, and lower case. */
  lemma StoredKeywords(t: CharTables, ks: seq<string>)
    requires Coherent(t)
    ensures |LowerAll(t, ks)| == |ks|
    ensures forall i :: 0 <= i < |ks| ==>
      var k := LowerAll(t, ks)[i];
      |k| == |ks[i]| && IsLower(t, k) && (forall j :: 0 <= j < |k| ==> k[j] == t.lower(ks[i][j]))
  {
  }

  /** The dictionary after `add_word(word, (idx, word))` for each keyword in
      order. */
  function Registry(ks: seq<string>): map<string, Payload>
  {
    if ks == [] then map[]
    else Registry(ks[..|ks| - 1])[ks[|ks| - 1] := Payload(|ks| - 1, ks[|ks| - 1])]
  }

  /** The dictionary holds exactly the keywords; each is stored with a
      payload naming it and one of its positions, and that position is its
      last one: a later duplicate replaces the payload of an earlier one. */
  lemma {:induction false} RegistrySpec(ks: seq<string>)
    ensures forall w :: w in Registry(ks) <==> w in ks
    ensures forall w :: w in Registry(ks) ==>
      var p := Registry(ks)[w];
      p.word == w && p.idx < |ks| && ks[p.idx] == w
    ensures forall w, j :: w in Registry(ks) && Registry(ks)[w].idx < j < |ks| ==> ks[j] != w
  {
    if ks != [] {
      var init := ks[..|ks| - 1];
      var k := ks[|ks| - 1];
      RegistrySpec(init);
      assert forall w :: w in ks <==> w in init || w == k;
      assert forall j :: 0 <= j < |init| ==> init[j] == ks[j];
    }
  }

  /** With distinct keywords, each is registered with payload `(idx, word)`
      where `idx` is its position in the list. */
  lemma RegistryPositions(ks: seq<string>)
    requires NoRepeats(ks)
    ensures forall i :: 0 <= i < |ks| ==> ks[i] in Registry(ks) && Registry(ks)[ks[i]] == Payload(i, ks[i])
  {
    RegistrySpec(ks);
    var m := Registry(ks);
    forall i | 0 <= i < |ks|
      ensures ks[i] in m && m[ks[i]] == Payload(i, ks[i])
    {
      assert ks[i] in m;
      var j := m[ks[i]].idx;
      assert ks[j] == ks[i];
    }
  }

  /** Non-empty keywords give a well-formed dictionary. */
  lemma RegistryWellFormed(ks: seq<string>)
    requires forall i :: 0 <= i < |ks| ==> ks[i] != []
    ensures WellFormed(Registry(ks))
  {
    RegistrySpec(ks);
    var m := Registry(ks);
    forall w | w in m
      ensures w != []
    {
      assert ks[m[w].idx] == w;
    }
  }

  /** `_build_automaton`: a fresh automaton, one `add_word` per keyword with
      its position and itself as payload, then `make_automaton`. */
  method BuildAutomaton(keywords: seq<string>) returns (automaton: Automaton)
    requires forall i :: 0 <= i < |keywords| ==> keywords[i] != []
    ensures fresh(automaton)
    ensures automaton.words == Registry(keywords)
    ensures automaton.finalized == (keywords != [])
  {
    automaton := new Automaton();
    for idx := 0 to |keywords|
      invariant automaton.words == Registry(keywords[..idx]) && !automaton.finalized
    {
      var word := keywords[idx];
      var _ := automaton.AddWord(word, Payload(idx, word));
      assert keywords[..idx + 1][..idx] == keywords[..idx];
    }
    assert keywords[..|keywords|] == keywords;
    RegistrySpec(keywords);
    assert keywords != [] ==> keywords[0] in Registry(keywords);
    automaton.MakeAutomaton();
  }

  // ---------------------------------------------------------------------------
  // Boundary-checked extraction.

  /** `start_index = end_index - len(word) + 1`. */
  function Start(h: Hit): int
  {
    h.end - |h.payload.word| + 1
  }

  /** The hit lies inside the text. */
  predicate InRange(text: string, h: Hit)
  {
    0 <= h.end < |text| && |h.payload.word| <= h.end + 1
  }

  predicate AllInRange(text: string, hits: seq<Hit>)
  {
    forall i :: 0 <= i < |hits| ==> InRange(text, hits[i])
  }

  /** The hit is dropped: a letter or digit sits right before its start or
      right after its end. */
  predicate Rejected(t: CharTables, text: string, h: Hit)
    requires InRange(text, h)
  {
    var start := Start(h);
    (start > 0 && t.isAlnum(text[start - 1])) || (h.end < |text| - 1 && t.isAlnum(text[h.end + 1]))
  }

  /** The match reported for a hit that is kept. */
  function MatchOf(h: Hit): Match
  {
    Match(h.payload.word, Start(h), h.end)
  }

  /** What `find_keywords` returns for the hits: the kept hits, in the order
      they come. */
  function Extract(t: CharTables, text: string, hits: seq<Hit>): seq<Match>
    requires AllInRange(text, hits)
    decreases |hits|
  {
    if hits == [] then []
    else
      var h := hits[|hits| - 1];
      Extract(t, text, hits[..|hits| - 1]) + (if Rejected(t, text, h) then [] else [MatchOf(h)])
  }

  /** Extending the hits by one extends the result by that hit's match, when
      the hit is kept. */
  lemma ExtractStep(t: CharTables, text: string, hits: seq<Hit>, i: nat)
    requires AllInRange(text, hits) && i < |hits|
    ensures AllInRange(text, hits[..i]) && AllInRange(text, hits[..i + 1]) && InRange(text, hits[i])
    ensures Extract(t, text, hits[..i + 1])
         == Extract(t, text, hits[..i]) + (if Rejected(t, text, hits[i]) then [] else [MatchOf(hits[i])])
  {
    assert hits[..i + 1][..i] == hits[..i];
  }

  /** `m` sits between word boundaries: the character before it and the one
      after it, where they exist, are neither letters nor digits. */
  predicate AtWordBoundary(t: CharTables, text: string, m: Match)
  {
    && 0 <= m.start <= m.end < |text|
    && (m.start == 0 || !t.isAlnum(text[m.start - 1]))
    && (m.end == |text| - 1 || !t.isAlnum(text[m.end + 1]))
  }

  /** `m` is an occurrence of a registered keyword, with `start` computed from
      `end` and the keyword's length, between word boundaries. */
  predicate IsWholeWordMatch(t: CharTables, words: map<string, Payload>, text: string, m: Match)
  {
    && m.word in words
    && Occurs(m.word, text, m.end)
    && m.start == m.end - |m.word| + 1
    && AtWordBoundary(t, text, m)
  }

  /** End offsets never decrease along `ms`. */
  predicate MatchesByEnd(ms: seq<Match>)
  {
    forall i, j :: 0 <= i < j < |ms| ==> ms[i].end <= ms[j].end
  }

  /** The indices of the kept hits, increasing, and the result is the match of
      each: the result is exactly the subsequence of kept hits. */
  lemma {:induction false} ExtractSubsequence(t: CharTables, text: string, hits: seq<Hit>) returns (idx: seq<nat>)
    requires AllInRange(text, hits)
    ensures |idx| == |Extract(t, text, hits)|
    ensures forall k :: 0 <= k < |idx| ==>
      idx[k] < |hits| && !Rejected(t, text, hits[idx[k]]) && Extract(t, text, hits)[k] == MatchOf(hits[idx[k]])
    ensures forall k, l :: 0 <= k < l < |idx| ==> idx[k] < idx[l]
    ensures forall i :: 0 <= i < |hits| && !Rejected(t, text, hits[i]) ==> i in idx
    decreases |hits|
  {
    if hits == [] {
      idx := [];
    } else {
      var init := hits[..|hits| - 1];
      var last := |hits| - 1;
      assert AllInRange(text, init);
      var prev := ExtractSubsequence(t, text, init);
      assert forall i :: 0 <= i < |init| ==> init[i] == hits[i];
      if Rejected(t, text, hits[last]) {
        idx := prev;
      } else {
        idx := prev + [last];
        assert Extract(t, text, hits) == Extract(t, text, init) + [MatchOf(hits[last])];
      }
    }
  }

  /** The hits of a scan lie inside the text. */
  lemma HitStreamInRange(words: map<string, Payload>, text: string, hits: seq<Hit>)
    requires IsHitStream(words, text, hits)
    ensures AllInRange(text, hits)
  {
  }

  /** The loop of `find_keywords`: each hit in turn, dropped when a letter or
      digit touches it, otherwise appended as a match. */
  method KeepWholeWords(t: CharTables, textLower: string, hits: seq<Hit>) returns (matches: seq<Match>)
    requires AllInRange(textLower, hits)
    ensures matches == Extract(t, textLower, hits)
  {
    matches := [];
    for i := 0 to |hits|
      invariant matches == Extract(t, textLower, hits[..i])
    {
      ExtractStep(t, textLower, hits, i);
      var h := hits[i];
      var startIndex := h.end - |h.payload.word| + 1;
      if (startIndex > 0 && t.isAlnum(textLower[startIndex - 1]))
        || (h.end < |textLower| - 1 && t.isAlnum(textLower[h.end + 1]))
      {
        continue;
      }
      matches := matches + [Match(h.payload.word, startIndex, h.end)];
    }
    assert hits[..|hits|] == hits;
  }

  /** A kept hit of a registered keyword's occurrence is a whole-word match. */
  lemma KeptHitIsWholeWord(t: CharTables, words: map<string, Payload>, text: string, h: Hit)
    requires WellFormed(words) && Registered(words, h.payload) && Occurs(h.payload.word, text, h.end)
    requires InRange(text, h) && !Rejected(t, text, h)
    ensures IsWholeWordMatch(t, words, text, MatchOf(h))
  {
    assert h.payload.word != [];
  }

  /** A whole-word match is the match of the hit the scan yields for it, and
      that hit is kept. */
  lemma WholeWordIsKeptHit(t: CharTables, words: map<string, Payload>, text: string, m: Match)
    requires WellFormed(words) && IsWholeWordMatch(t, words, text, m)
    ensures InRange(text, Hit(m.end, words[m.word]))
    ensures !Rejected(t, text, Hit(m.end, words[m.word])) && MatchOf(Hit(m.end, words[m.word])) == m
  {
  }

  /** The matches of `find_keywords`, given the scan contract: a match is in
      the result exactly when it is a whole-word occurrence of a registered
      keyword. No boundary-respecting occurrence is dropped and nothing else
      is reported. */
  lemma ExtractExact(t: CharTables, words: map<string, Payload>, text: string, hits: seq<Hit>)
    requires WellFormed(words) && IsHitStream(words, text, hits)
    ensures AllInRange(text, hits)
    ensures forall m :: m in Extract(t, text, hits) <==> IsWholeWordMatch(t, words, text, m)
  {
    HitStreamInRange(words, text, hits);
    var r := Extract(t, text, hits);
    var idx := ExtractSubsequence(t, text, hits);
    forall m | m in r
      ensures IsWholeWordMatch(t, words, text, m)
    {
      var k :| 0 <= k < |r| && r[k] == m;
      KeptHitIsWholeWord(t, words, text, hits[idx[k]]);
    }
    forall m | IsWholeWordMatch(t, words, text, m)
      ensures m in r
    {
      var h := Hit(m.end, words[m.word]);
      WholeWordIsKeptHit(t, words, text, m);
      assert h in hits;
      var i :| 0 <= i < |hits| && hits[i] == h;
      assert i in idx;
      var k :| 0 <= k < |idx| && idx[k] == i;
      assert r[k] == m;
    }
  }

  /** The matches come in the order of the hits, so by non-decreasing end,
      and none is reported twice. */
  lemma ExtractOrdered(t: CharTables, words: map<string, Payload>, text: string, hits: seq<Hit>)
    requires IsHitStream(words, text, hits)
    ensures AllInRange(text, hits)
    ensures MatchesByEnd(Extract(t, text, hits))
    ensures NoRepeats(Extract(t, text, hits))
  {
    HitStreamInRange(words, text, hits);
    var r := Extract(t, text, hits);
    var idx := ExtractSubsequence(t, text, hits);
    forall k, l | 0 <= k < l < |r|
      ensures r[k].end <= r[l].end && r[k] != r[l]
    {
      var hk, hl := hits[idx[k]], hits[idx[l]];
      assert Registered(words, hk.payload) && Registered(words, hl.payload);
      assert hk != hl;
    }
  }

  /** A registered keyword scanned on its own is found, spanning the whole
      text. */
  lemma KeywordAloneIsFound(t: CharTables, words: map<string, Payload>, w: string, hits: seq<Hit>)
    requires WellFormed(words) && w in words && IsHitStream(words, w, hits)
    ensures AllInRange(w, hits) && Match(w, 0, |w| - 1) in Extract(t, w, hits)
  {
    ExtractExact(t, words, w, hits);
    assert w[0..|w|] == w;
    assert IsWholeWordMatch(t, words, w, Match(w, 0, |w| - 1));
  }

  /** Every match in text whose characters are all word characters, plain
      spaces or hyphens, in lower case, is a word of that kind. */
  lemma MatchedWordsShape(t: CharTables, words: map<string, Payload>, n: string, hits: seq<Hit>)
    requires WellFormed(words) && IsHitStream(words, n, hits)
    requires AllowedChars(t, n) && IsLower(t, n)
    ensures AllInRange(n, hits)
    ensures forall m :: m in Extract(t, n, hits) ==> AllowedChars(t, m.word) && IsLower(t, m.word)
  {
    ExtractExact(t, words, n, hits);
    forall m | m in Extract(t, n, hits)
      ensures AllowedChars(t, m.word) && IsLower(t, m.word)
    {
      assert Occurs(m.word, n, m.end);
      SliceShape(t, n, m.word, m.end + 1 - |m.word|);
    }
  }

  /** Every word `keyword_stats` reports is a piece of normalised text, so it
      holds only word characters, plain spaces and hyphens and is lower case:
      a stored keyword with any other character is never reported. */
  lemma MatchedWordsNormalized(t: CharTables, words: map<string, Payload>, text: string, hits: seq<Hit>)
    requires Coherent(t) && WellFormed(words) && IsHitStream(words, Normalize(t, text), hits)
    ensures AllInRange(Normalize(t, text), hits)
    ensures forall m :: m in Extract(t, Normalize(t, text), hits) ==> AllowedChars(t, m.word) && IsLower(t, m.word)
  {
    NormalizeShape(t, text);
    MatchedWordsShape(t, words, Normalize(t, text), hits);
  }

  /** A piece of text keeps the character-wise properties of the whole. */
  lemma SliceShape(t: CharTables, s: string, w: string, i: int)
    requires 0 <= i && i + |w| <= |s| && w == s[i..i + |w|]
    requires AllowedChars(t, s) && IsLower(t, s)
    ensures AllowedChars(t, w) && IsLower(t, w)
  {
    assert forall k :: 0 <= k < |w| ==> w[k] == s[i + k];
  }

  // ---------------------------------------------------------------------------
  // Statistics.

  /** The words of the matches, in order. */
  function WordsOf(ms: seq<Match>): seq<string>
  {
    seq(|ms|, i requires 0 <= i < |ms| => ms[i].word)
  }

  /** The distinct elements of `ws`, in order of first appearance. */
  function Dedup(ws: seq<string>): (r: seq<string>)
    ensures forall w :: w in r <==> w in ws
    ensures NoRepeats(r)
  {
    if ws == [] then []
    else
      var init := ws[..|ws| - 1];
      var w := ws[|ws| - 1];
      var d := Dedup(init);
      assert forall x :: x in ws <==> x in init || x == w;
      if w in d then d else d + [w]
  }

  /** A sequence without repeats has as many elements as its set. */
  lemma {:induction false} NoRepeatsCard(ws: seq<string>)
    requires NoRepeats(ws)
    ensures |set w | w in ws| == |ws|
  {
    if ws != [] {
      var init := ws[..|ws| - 1];
      var w := ws[|ws| - 1];
      NoRepeatsCard(init);
      assert (set x | x in ws) == (set x | x in init) + {w};
      assert w !in init;
    }
  }

  /** `keyword_stats`' reduction of the matches. */
  function StatsOf(ms: seq<Match>): Stats
  {
    var u := Dedup(WordsOf(ms));
    Stats(|u|, u, ms, |ms|)
  }

  /** The counts agree with the lists: `total` is the number of matches,
      `unique_count` the length of `unique_keywords`, which has no repeats
      and holds exactly the words of the matches, so `unique_count` is the
      number of distinct matched words. */
  lemma StatsConsistent(ms: seq<Match>)
    ensures StatsOf(ms).matches == ms && StatsOf(ms).total == |ms|
    ensures StatsOf(ms).uniqueCount == |StatsOf(ms).uniqueKeywords|
    ensures NoRepeats(StatsOf(ms).uniqueKeywords)
    ensures (set w | w in StatsOf(ms).uniqueKeywords) == (set m | m in ms :: m.word)
    ensures StatsOf(ms).uniqueCount == |set m | m in ms :: m.word|
  {
    var u := StatsOf(ms).uniqueKeywords;
    var ws := WordsOf(ms);
    forall w | w in u
      ensures w in (set m | m in ms :: m.word)
    {
      var i :| 0 <= i < |ws| && ws[i] == w;
      assert ms[i] in ms;
    }
    forall m | m in ms
      ensures m.word in u
    {
      var i :| 0 <= i < |ms| && ms[i] == m;
      assert ws[i] == m.word;
    }
    NoRepeatsCard(u);
  }

  /** Under coherent tables lower-casing normalised text changes nothing. */
  lemma NormalizedIsLower(t: CharTables, text: string)
    requires Coherent(t)
    ensures Lower(t, Normalize(t, text)) == Normalize(t, text)
  {
    NormalizeShape(t, text);
  }

  // ---------------------------------------------------------------------------
  // The class.

  class KeywordFinder {
    /** The Unicode services, fixed for the finder's lifetime. */
    const tables: CharTables
    /** `self.keywords`. */
    const keywords: seq<string>
    /** `self.automaton`. */
    const automaton: Automaton

    /** The automaton holds the registry of the stored keywords and is ready
        to scan exactly when there is at least one keyword. */
    predicate Valid()
      reads automaton
    {
      && automaton.words == Registry(keywords)
      && automaton.finalized == (keywords != [])
      && (forall i :: 0 <= i < |keywords| ==> keywords[i] != [])
    }

    /** `__init__`: store the keywords lower-cased, then build the automaton. */
    constructor (t: CharTables, input: seq<string>)
      requires forall i :: 0 <= i < |input| ==> input[i] != []
      ensures tables == t && keywords == LowerAll(t, input)
      ensures fresh(automaton) && Valid()
    {
      tables := t;
      keywords := LowerAll(t, input);
      var built := BuildAutomaton(LowerAll(t, input));
      automaton := built;
    }

    /** The automaton can scan exactly when there is a keyword: with none,
        `make_automaton` leaves it empty and `iter` raises, so
        `find_keywords` and `keyword_stats` raise too. */
    lemma ScanPossible(text: string)
      requires Valid()
      ensures (exists hits :: automaton.Yields(text, hits)) <==> keywords != []
    {
      if keywords != [] {
        RegistryWellFormed(keywords);
        var hits := HitStreamExists(automaton.words, text);
        assert automaton.Yields(text, hits);
      }
    }

    /** `find_keywords` of the copy in the package: the text is matched as
        given, and `hits` is what `self.automaton.iter(text)` yields. */
    method FindKeywords(text: string, hits: seq<Hit>) returns (matches: seq<Match>)
      requires Valid() && automaton.Yields(text, hits)
      ensures AllInRange(text, hits) && matches == Extract(tables, text, hits)
      ensures forall m :: m in matches <==> IsWholeWordMatch(tables, automaton.words, text, m)
      ensures MatchesByEnd(matches) && NoRepeats(matches)
    {
      HitStreamInRange(automaton.words, text, hits);
      var textLower := text;
      matches := KeepWholeWords(tables, textLower, hits);
      RegistryWellFormed(keywords);
      ExtractExact(tables, automaton.words, text, hits);
      ExtractOrdered(tables, automaton.words, text, hits);
    }

    /** `find_keywords` of the top-level copy: the text is lower-cased first,
        the automaton scans the lower-cased text, and the offsets index it. */
    method FindKeywordsLowering(text: string, hits: seq<Hit>) returns (matches: seq<Match>)
      requires Valid() && automaton.Yields(Lower(tables, text), hits)
      ensures AllInRange(Lower(tables, text), hits) && matches == Extract(tables, Lower(tables, text), hits)
      ensures forall m :: m in matches <==> IsWholeWordMatch(tables, automaton.words, Lower(tables, text), m)
      ensures MatchesByEnd(matches) && NoRepeats(matches)
    {
      var textLower := Lower(tables, text);
      matches := FindKeywords(textLower, hits);
    }

    /** `keyword_stats` of the copy in the package: normalise, extract, reduce;
        `hits` is what the automaton yields on the normalised text. */
    method KeywordStats(text: string, hits: seq<Hit>) returns (stats: Stats)
      requires Valid() && automaton.Yields(Normalize(tables, text), hits)
      ensures AllInRange(Normalize(tables, text), hits)
      ensures stats == StatsOf(Extract(tables, Normalize(tables, text), hits))
      ensures forall m :: m in stats.matches <==> IsWholeWordMatch(tables, automaton.words, Normalize(tables, text), m)
      ensures stats.total == |stats.matches| && stats.uniqueCount == |stats.uniqueKeywords|
      ensures NoRepeats(stats.uniqueKeywords)
      ensures (set w | w in stats.uniqueKeywords) == (set m | m in stats.matches :: m.word)
      ensures stats.uniqueCount == |set m | m in stats.matches :: m.word|
    {
      var normalizedText := Normalize(tables, text);
      var matches := FindKeywords(normalizedText, hits);
      var uniqueKeywords := Dedup(WordsOf(matches));
      stats := Stats(|uniqueKeywords|, uniqueKeywords, matches, |matches|);
      StatsConsistent(matches);
    }

    /** `keyword_stats` of the top-level copy: its `find_keywords` lower-cases
        the normalised text once more, which changes nothing when the tables
        are coherent, so both copies then report the same statistics. */
    method KeywordStatsLowering(text: string, hits: seq<Hit>) returns (stats: Stats)
      requires Valid() && automaton.Yields(Lower(tables, Normalize(tables, text)), hits)
      ensures AllInRange(Lower(tables, Normalize(tables, text)), hits)
      ensures stats == StatsOf(Extract(tables, Lower(tables, Normalize(tables, text)), hits))
      ensures stats.total == |stats.matches| && stats.uniqueCount == |stats.uniqueKeywords|
      ensures stats.uniqueCount == |set m | m in stats.matches :: m.word|
      ensures Coherent(tables) ==> stats == StatsOf(Extract(tables, Normalize(tables, text), hits))
    {
      var normalizedText := Normalize(tables, text);
      var matches := FindKeywordsLowering(normalizedText, hits);
      var uniqueKeywords := Dedup(WordsOf(matches));
      stats := Stats(|uniqueKeywords|, uniqueKeywords, matches, |matches|);
      StatsConsistent(matches);
      if Coherent(tables) {
        NormalizedIsLower(tables, text);
      }
    }
  }
}
