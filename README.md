# KeywordsFinder in Dafny

A verified model of the `KeywordFinder` class of KeywordsFinder. The class
finds the occurrences of a fixed list of keywords and phrases in free text.
The text is normalised first: decomposed, stripped of diacritics and
punctuation, whitespace collapsed, trimmed and lower-cased. Partial-word
matches are rejected, so "trans" is not found inside "transport". The class
also reports statistics over the matches.

The repository holds two near-identical copies of the class:
`keywords_finder/keywords_finder.py` (the package) and `keywords_finder.py`
(the top level). Both are modelled by one Dafny class. The only behavioural
difference is that the top-level `find_keywords` lower-cases its input
itself. That copy's two methods are modelled by `FindKeywordsLowering` and
`KeywordStatsLowering`.

Modules, one file each:

- `CharTables` (`char_tables.dfy`): the Unicode services the code calls. These are
  NFKD, `unicodedata.combining`, the regex classes `\w` and `\s`,
  `str.isalnum` and `lower()`. They are fields of one `CharTables` value that
  every operation takes as a parameter. `Coherent` lists the few facts about
  lower-casing that the shape of normalised text depends on. `Ascii()` is a
  concrete instance for ASCII text, and it is proved coherent.
- `TextNormalizer` (`text_normalizer.dfy`): `normalize_text`, step by step,
  over sequences of characters.
- `Matcher` (`matcher.dfy`): the `pyahocorasick` automaton, modelled by its
  contract rather than its internals.
  - `Automaton` is a class holding the keyword dictionary. `add_word`
    updates it and `make_automaton` finalises it.
  - `iter(text)` becomes a sequence of hits passed in as a parameter.
    `IsHitStream` constrains it: every occurrence of every keyword is
    yielded, once, with its payload, by non-decreasing end index. The order
    of hits that share an end index is left open.
  - A reference scan (`ScanAt`, `Concat`) proves that such a sequence exists
    for every dictionary and text.
- `KeywordsFinder` (`keywords_finder.dfy`): the class itself.
  - The constructor lower-cases the keywords.
  - `BuildAutomaton` is a loop of `AddWord` calls. It is proved to produce
    the dictionary `Registry(keywords)`. The automaton is ready to scan only
    when there is at least one keyword (`ScanPossible`).
  - `KeepWholeWords` is the loop of `find_keywords` over the hits, with its
    `continue`. It is proved equal to the specification function `Extract`,
    the kept hits in order.
  - `FindKeywords` runs that loop on what the automaton yields. It is
    proved to report exactly the whole-word occurrences of the registered
    keywords.
  - `KeywordStats` normalises, extracts and reduces.
  - `MatchedWordsNormalized` carries the shape of normalised text over to
    the reported words. The helper `SliceShape` does this for one slice.
- `Scenarios` (`scenarios.dfy`): the boundary rule on concrete ASCII texts,
  for every hit sequence that keeps the scan contract.

Three behaviours of the code are worth stating outright:

- **Demonstration sentence.** The keywords are "trans", "transphobia",
  "anti-trans" and "trans rights", and the sentence is "The transgender
  community is fighting for trans rights and against transphobia." The
  boundary rule rejects the "trans" inside "transgender". It accepts the
  "trans" at the start of "trans rights", because a space follows it, as
  well as "trans rights" and "transphobia": at least three matches
  (`Scenarios.DemoSentence`).
- **Tie order.** Hits that share an end index come in the library's order.
  The code does not reorder them, and the model leaves that order open.
- **Idempotence.** `normalize_text` is not claimed to be idempotent.
  Unicode `lower()` can produce characters that a second pass would
  change. The model proves the shape of the output, and `CollapseFixpoint`
  shows that the whitespace-collapsing step is a projection.

## Model

| member | source | states |
|---|---|---|
| CharTables.AsciiCoherent | keywords_finder/keywords_finder.py:43 | On ASCII text, lower-casing keeps the space and the hyphen, never makes whitespace, keeps word characters and is idempotent: the assumptions of the shape proofs can be met |
| TextNormalizer.DropCombining | keywords_finder/keywords_finder.py:39 | A character is in the result exactly when it is in the decomposed text and is not a combining mark |
| TextNormalizer.DropCombiningInOrder | keywords_finder/keywords_finder.py:39 | The comprehension keeps exactly the characters that are not combining marks, each once, in their order: the result is the subsequence at increasing indices of every such character |
| TextNormalizer.RemovePunctuation | keywords_finder/keywords_finder.py:41 | A character survives exactly when it is a word character, whitespace or a hyphen, i.e. the complement of `[^\w\s-]` (line 8) |
| TextNormalizer.RemovePunctuationInOrder | keywords_finder/keywords_finder.py:41 | The substitution deletes the matches of `[^\w\s-]` and nothing else: the result is the subsequence, at increasing indices, of every word character, whitespace character and hyphen |
| TextNormalizer.KeepSubsequence | keywords_finder/keywords_finder.py:39-41 | Filtering a text keeps the characters that pass the test, in their order and number: increasing indices, each kept character passing, and every passing index kept |
| TextNormalizer.SpaceRunEnd | keywords_finder/keywords_finder.py:43 | The run of whitespace from an index ends at the first non-whitespace character or at the end of the text (what `strip` cuts at the front) |
| TextNormalizer.SpaceRunStart | keywords_finder/keywords_finder.py:43 | The run of whitespace before an index starts just after the last non-whitespace character, or at the bound (what `strip` cuts at the back) |
| TextNormalizer.StripSlice | keywords_finder/keywords_finder.py:43 | `strip()` leaves a slice of its input; everything cut off at either end is whitespace and no whitespace is left at either end |
| TextNormalizer.CollapseShape | keywords_finder/keywords_finder.py:43 | `\s+` to one space: never longer than its input, every character is a plain space or a non-whitespace character of the input, a leading whitespace run becomes one space, and no two whitespace characters are adjacent |
| TextNormalizer.CollapseRun | keywords_finder/keywords_finder.py:43 | Each maximal whitespace run, between words, leading or trailing, becomes exactly one plain space, and the text on either side is collapsed on its own: `collapse(x + run + y) == collapse(x) + " " + collapse(y)` |
| TextNormalizer.CollapseKeepsText | keywords_finder/keywords_finder.py:43 | Collapsing whitespace keeps the non-whitespace characters, all of them and in the same order |
| TextNormalizer.CollapseFixpoint | keywords_finder/keywords_finder.py:43 | Text whose whitespace is already single plain spaces is left unchanged by the collapse |
| TextNormalizer.Lower | keywords_finder/keywords_finder.py:43 | `lower()` keeps the length and lower-cases each character in place |
| TextNormalizer.Normalize | keywords_finder/keywords_finder.py:35-36 | Empty text gives the empty string |
| TextNormalizer.NormalizeShape | keywords_finder/keywords_finder.py:35-43 | Normalised text holds only word characters, plain spaces and hyphens, has no two adjacent whitespace characters and every whitespace is a plain space, has no whitespace at either end, and is lower case (likewise `keywords_finder.py` lines 25-32) |
| Matcher.Automaton.constructor | keywords_finder/keywords_finder.py:19 | A new automaton holds no keywords and is not finalised |
| Matcher.Automaton.AddWord | keywords_finder/keywords_finder.py:21 | `add_word` stores the payload for the key, replacing any earlier one, changes nothing else, answers whether the key was new, and un-finalises the automaton |
| Matcher.Automaton.MakeAutomaton | keywords_finder/keywords_finder.py:22 | `make_automaton` keeps the dictionary; it makes the automaton ready to scan when it holds a word, and leaves an automaton with no words unable to scan |
| Matcher.ScanAtSpec | keywords_finder/keywords_finder.py:53 | The reference scan at one end index yields exactly the occurrences of the entries ending there, none twice for distinct entries |
| Matcher.ConcatMembers | keywords_finder/keywords_finder.py:53 | A hit is in the scan of all end indices below n exactly when it is among the hits for its own end index |
| Matcher.ConcatSorted | keywords_finder/keywords_finder.py:53 | The scan of all end indices yields hits by non-decreasing end |
| Matcher.ConcatDistinct | keywords_finder/keywords_finder.py:53 | The scan of all end indices yields no hit twice |
| Matcher.HitStreamExists | keywords_finder/keywords_finder.py:53 | For every well-formed dictionary and every text some hit sequence keeps the `iter` contract (sound, complete, no repeats, by non-decreasing end) |
| KeywordsFinder.StoredKeywords | keywords_finder/keywords_finder.py:15 | The stored keywords are as many as the input, in the same order, each the input keyword lower-cased character by character, and lower case (likewise `keywords_finder.py` line 13) |
| KeywordsFinder.RegistrySpec | keywords_finder/keywords_finder.py:20-21 | The dictionary holds exactly the keywords; each is stored with payload `(idx, word)` naming itself and a position where it occurs, and no later position holds it (a later duplicate wins) |
| KeywordsFinder.RegistryPositions | keywords_finder/keywords_finder.py:20-21 | With distinct keywords, the i-th keyword is registered with payload `(i, keyword)` (likewise `keywords_finder.py` lines 18-19) |
| KeywordsFinder.RegistryWellFormed | keywords_finder/keywords_finder.py:20-21 | Non-empty keywords give a dictionary of non-empty keys, each with a payload naming itself |
| KeywordsFinder.BuildAutomaton | keywords_finder/keywords_finder.py:18-23 | The loop of `add_word(word, (idx, word))` followed by `make_automaton` yields a fresh automaton whose dictionary is the registry of the keywords, ready to scan exactly when there is a keyword (likewise `keywords_finder.py` lines 16-22) |
| KeywordsFinder.KeywordFinder.constructor | keywords_finder/keywords_finder.py:13-16 | The stored keywords are the lower-cased input and the automaton is built from them, ready to scan exactly when there is a keyword |
| KeywordsFinder.KeywordFinder.ScanPossible | keywords_finder/keywords_finder.py:53 | `iter` can yield hits exactly when there is a keyword; with none, `iter` raises and so do `find_keywords` and `keyword_stats` (likewise `keywords_finder.py` line 39) |
| KeywordsFinder.ExtractSubsequence | keywords_finder/keywords_finder.py:50-63 | The result is exactly the subsequence of the hits that pass the boundary rule: increasing hit indices, each result entry the match of its hit, and every passing hit included |
| KeywordsFinder.KeptHitIsWholeWord | keywords_finder/keywords_finder.py:53-61 | A passing hit gives `(word, end - len(word) + 1, end)` with the word occurring at those offsets between word boundaries |
| KeywordsFinder.WholeWordIsKeptHit | keywords_finder/keywords_finder.py:53-61 | A whole-word occurrence is the match of the hit the scan yields for it, and that hit passes the boundary rule |
| KeywordsFinder.ExtractExact | keywords_finder/keywords_finder.py:53-61 | Under the scan contract a match is reported exactly when its word is a keyword occurring at `text[s..e]`, `s == e - len(word) + 1`, and neither the character before `s` nor after `e` is alphanumeric |
| KeywordsFinder.ExtractOrdered | keywords_finder/keywords_finder.py:53-63 | Matches come by non-decreasing end and none twice |
| KeywordsFinder.KeywordAloneIsFound | keywords_finder/keywords_finder.py:57-58 | A keyword scanned on its own is found, spanning the whole text |
| KeywordsFinder.MatchedWordsNormalized | keywords_finder/keywords_finder.py:73-74 | Every word reported on normalised text holds only word characters, spaces and hyphens and is lower case |
| KeywordsFinder.Dedup | keywords_finder/keywords_finder.py:75 | The distinct words hold exactly the words of the matches, without repeats |
| KeywordsFinder.NoRepeatsCard | keywords_finder/keywords_finder.py:75-76 | A list without repeats has as many elements as its set |
| KeywordsFinder.StatsConsistent | keywords_finder/keywords_finder.py:75-76 | `total == len(matches)`, `unique_count == len(unique_keywords)`, `unique_keywords` has no repeats and equals the set of matched words, so `unique_count` is the number of distinct matched words |
| KeywordsFinder.NormalizedIsLower | keywords_finder.py:37 | Lower-casing normalised text changes nothing, so the top-level copy's extra `lower()` is harmless inside `keyword_stats` |
| KeywordsFinder.KeepWholeWords | keywords_finder/keywords_finder.py:53-61 | The loop's result, hit by hit with `continue` on a rejected hit, is the specification `Extract`: the kept hits' matches in order |
| KeywordsFinder.KeywordFinder.FindKeywords | keywords_finder/keywords_finder.py:45-63 | The loop's result is the kept hits in order; a match is in it exactly when it is a whole-word occurrence of a keyword; matches come by non-decreasing end, none twice |
| KeywordsFinder.KeywordFinder.FindKeywordsLowering | keywords_finder.py:34-51 | The same for the lower-cased text, whose offsets the matches index, and whose length equals the input's |
| KeywordsFinder.KeywordFinder.KeywordStats | keywords_finder/keywords_finder.py:65-76 | The statistics of the matches in the normalised text, with consistent counts, distinct unique keywords equal to the matched words and the matches exactly the whole-word occurrences there |
| KeywordsFinder.KeywordFinder.KeywordStatsLowering | keywords_finder.py:53-58 | The statistics of the matches in the lower-cased normalised text with consistent counts; with coherent tables they equal the package copy's |
| Scenarios.TransOnlyAtStart | keywords_finder/keywords_finder.py:57-58 | "trans" occurs in "transport" only as its first five letters |
| Scenarios.TransportHasNoWholeTrans | keywords_finder/keywords_finder.py:57-58 | No match of "trans" in "transport" lies between word boundaries |
| Scenarios.PartialWordRejected | keywords_finder/keywords_finder.py:57-58 | With keyword "trans", nothing is reported in "transport" |
| Scenarios.HyphenWholeWords | keywords_finder/keywords_finder.py:57-58 | In "anti-trans policy" both "anti-trans" and the "trans" after the hyphen lie between word boundaries |
| Scenarios.HyphenIsBoundary | keywords_finder/keywords_finder.py:57-58 | In "anti-trans policy" both "anti-trans" (0-9) and "trans" (5-9) are reported |
| Scenarios.DemoWholeWords | keywords_finder/keywords_finder.py:81-85 | In the demonstration sentence "trans" inside "transgender" is not a whole word; "trans", "trans rights" and "transphobia" further on are |
| Scenarios.DemoSentence | keywords_finder/keywords_finder.py:81-85 | On the demonstration sentence "trans" is not reported inside "transgender", while "trans" (42-46), "trans rights" (42-53) and "transphobia" (67-77) are: at least three matches |

## Left out

- NFKD decomposition, `unicodedata.combining`, `\w`, `\s`, `str.isalnum` and `lower()` are not defined. They are parameters (`CharTables`), and only the facts in `Coherent` are assumed about them. An ASCII instance is given.
- `lower()` is modelled one character to one character. Lower-casings that change the length of a string (such as that of 'İ') are not modelled.
- The regex class `\s` and the whitespace that `str.strip()` removes are one predicate, `isSpace`. They agree on ASCII.
- `pyahocorasick` internals (the trie and its failure links) are not modelled, only the contract of `add_word`, `make_automaton` and `iter`.
- KeywordsFinder.KeywordFinder.FindKeywords: the order of hits sharing an end index is not fixed, so the order of their matches is stated only through `Extract`, not as a concrete tie-break.
- With no keywords, `iter` raises `AttributeError`, so `find_keywords` and `keyword_stats` raise. The model has no exceptions. `Yields` holds for no hit sequence on an automaton that is not ready, so `FindKeywords` and `KeywordStats` cannot be called then (`ScanPossible`).
- Empty keywords are excluded by a precondition of the constructor and of `AddWord`, because what the library does with them is not part of this model.
- KeywordsFinder.RegistryPositions: stated for distinct keywords only. With duplicates, `RegistrySpec` states that the last position wins.
- KeywordsFinder.KeywordFinder.KeywordStats: `unique_keywords` comes from a Python set, whose order is the hash order. The model lists the distinct words in order of first appearance. The contract states only its contents, its length and that it has no repeats.
- Idempotence of `normalize_text` is not claimed. See above.
- The logging of the top-level copy (`keywords_finder.py` lines 8-9, 21, 48 and 50) only writes to a log. The model has no logging, so its results are the same with or without it.
- The `__main__` demonstration blocks print their results and are not modelled. Only their first sentence, normalised, is used in `Scenarios`.
- `setup.py` is packaging metadata with no logic.
