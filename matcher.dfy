/**
 * The multi-pattern matcher the keyword finder delegates to (the
 * `ahocorasick.Automaton` of the pyahocorasick library). Its internals are
 * not modelled; what is modelled is its contract: a dictionary from keyword
 * to payload that `add_word` updates and `make_automaton` finalises, and an
 * `iter(text)` that yields every occurrence of every keyword, once, by
 * non-decreasing end index.
 */
module Matcher {

  /** The value stored with each keyword: `(idx, word)`. */
  datatype Payload = Payload(idx: nat, word: string)

  /** One item of `iter(text)`: `(end_index, (idx, word))`. */
  datatype Hit = Hit(end: int, payload: Payload)

  /** `w` occurs in `text` as the substring ending at index `e` (inclusive). */
  predicate Occurs(w: string, text: string, e: int)
  {
    0 <= e < |text| && |w| <= e + 1 && text[e + 1 - |w|..e + 1] == w
  }

  /** Every key is non-empty and stored with a payload naming that key. */
  predicate WellFormed(words: map<string, Payload>)
  {
    forall w :: w in words ==> w != [] && words[w].word == w
  }

  /** `p` is the payload the dictionary holds for its word. */
  predicate Registered(words: map<string, Payload>, p: Payload)
  {
    p.word in words && words[p.word] == p
  }

  /** End indices never decrease along `hits`. */
  predicate SortedByEnd(hits: seq<Hit>)
  {
    forall i, j :: 0 <= i < j < |hits| ==> hits[i].end <= hits[j].end
  }

  /** No element of `s` appears twice. */
  predicate NoRepeats<T(==)>(s: seq<T>)
  {
    forall i, j :: 0 <= i < j < |s| ==> s[i] != s[j]
  }

  /** The contract of `iter(text)` over the dictionary `words`: every hit is an
      occurrence of a registered keyword with that keyword's payload; ends
      never decrease; no hit is yielded twice; and every occurrence of every
      keyword is yielded. The order of hits sharing an end is left open. */
  predicate IsHitStream(words: map<string, Payload>, text: string, hits: seq<Hit>)
  {
    && (forall h :: h in hits ==> Registered(words, h.payload) && Occurs(h.payload.word, text, h.end))
    && SortedByEnd(hits)
    && NoRepeats(hits)
    && (forall w, e :: w in words && 0 <= e < |text| && Occurs(w, text, e) ==> Hit(e, words[w]) in hits)
  }

  class Automaton {
    /** The keywords added so far, each with the value last given for it. */
    var words: map<string, Payload>
    /** `make_automaton` has run since the last `add_word`. */
    var finalized: bool

    constructor ()
      ensures words == map[] && !finalized
    {
      words := map[];
      finalized := false;
    }

    /** `add_word(key, value)`: stores `value` for `key`, replacing any value
        stored before; answers whether `key` is new. The automaton has to be
        finalised again before it can scan. */
    method AddWord(key: string, value: Payload) returns (added: bool)
      requires key != []
      modifies this
      ensures words == old(words)[key := value]
      ensures added == (key !in old(words))
      ensures !finalized
    {
      added := key !in words;
      words := words[key := value];
      finalized := false;
    }

    /** `make_automaton()`: builds the scanning structure; the dictionary is
        unchanged. With no words there is nothing to build: the automaton
        stays empty and is not ready to scan. */
    method MakeAutomaton()
      modifies this
      ensures words == old(words)
      ensures finalized == (old(finalized) || words != map[])
    {
      finalized := finalized || words != map[];
    }

    /** `iter(text)` may yield `hits`: the automaton is finalised and `hits`
        keeps the scan contract. On an automaton that is not finalised
        `iter` raises instead, so it yields nothing. */
    predicate Yields(text: string, hits: seq<Hit>)
      reads this
    {
      finalized && IsHitStream(words, text, hits)
    }
  }

  // ---------------------------------------------------------------------------
  // A reference scan: every end index in turn, every keyword in turn. It shows
  // that the contract above can be met for every dictionary and text.

  /** All entries of `entries` occurring in `text` ending at `e`, in entry order. */
  function ScanAt(entries: seq<Payload>, text: string, e: int): seq<Hit>
  {
    if entries == [] then []
    else
      var p := entries[|entries| - 1];
      ScanAt(entries[..|entries| - 1], text, e) + (if Occurs(p.word, text, e) then [Hit(e, p)] else [])
  }

  /** The hits found at one end index are exactly the occurrences of the
      entries ending there, none twice when the entries are distinct. */
  lemma {:induction false} ScanAtSpec(entries: seq<Payload>, text: string, e: int)
    ensures forall h :: h in ScanAt(entries, text, e) <==>
      h.end == e && h.payload in entries && Occurs(h.payload.word, text, e)
    ensures NoRepeats(entries) ==> NoRepeats(ScanAt(entries, text, e))
  {
    if entries != [] {
      var init := entries[..|entries| - 1];
      var p := entries[|entries| - 1];
      ScanAtSpec(init, text, e);
      assert forall q :: q in entries <==> q in init || q == p;
      var prev := ScanAt(init, text, e);
      var r := ScanAt(entries, text, e);
      assert r == prev + (if Occurs(p.word, text, e) then [Hit(e, p)] else []);
      if NoRepeats(entries) {
        assert NoRepeats(init) && p !in init;
        forall i, j | 0 <= i < j < |r|
          ensures r[i] != r[j]
        {
          if j >= |prev| {
            assert r[i] == prev[i] && prev[i] in prev;
          }
        }
      }
    }
  }

  /** The hits of `at(0)`, then those of `at(1)`, up to `at(n - 1)`. */
  function Concat(at: int -> seq<Hit>, n: nat): seq<Hit>
  {
    if n == 0 then [] else Concat(at, n - 1) + at(n - 1)
  }

  /** Every hit of `at(e)` ends at `e`, for each `e` below `n`. */
  predicate EndsAt(at: int -> seq<Hit>, n: int)
  {
    forall e, h :: 0 <= e < n && h in at(e) ==> h.end == e
  }

  /** A hit is in the concatenation exactly when it is among the hits for
      its own end index. */
  lemma {:induction false} ConcatMembers(at: int -> seq<Hit>, n: nat)
    requires EndsAt(at, n)
    ensures forall h :: h in Concat(at, n) <==> 0 <= h.end < n && h in at(h.end)
  {
    if n > 0 {
      ConcatMembers(at, n - 1);
      assert Concat(at, n) == Concat(at, n - 1) + at(n - 1);
    }
  }

  /** Hits ending before `e`, by non-decreasing end, followed by hits
      ending at `e` come by non-decreasing end. */
  lemma AppendSorted(prev: seq<Hit>, here: seq<Hit>, e: int)
    requires forall h :: h in prev ==> h.end < e
    requires forall h :: h in here ==> h.end == e
    requires SortedByEnd(prev)
    ensures SortedByEnd(prev + here)
  {
    var r := prev + here;
    forall i, j | 0 <= i < j < |r|
      ensures r[i].end <= r[j].end
    {
      if j < |prev| {
        assert r[i] == prev[i] && r[j] == prev[j];
      } else if i < |prev| {
        assert r[i] == prev[i] && prev[i] in prev;
        assert r[j] == here[j - |prev|] && here[j - |prev|] in here;
      } else {
        assert r[i] == here[i - |prev|] && here[i - |prev|] in here;
        assert r[j] == here[j - |prev|] && here[j - |prev|] in here;
      }
    }
  }

  /** Hits ending before `e` followed by hits ending at `e` repeat nothing
      when neither part does. */
  lemma AppendDistinct(prev: seq<Hit>, here: seq<Hit>, e: int)
    requires forall h :: h in prev ==> h.end < e
    requires forall h :: h in here ==> h.end == e
    requires NoRepeats(prev) && NoRepeats(here)
    ensures NoRepeats(prev + here)
  {
    var r := prev + here;
    forall i, j | 0 <= i < j < |r|
      ensures r[i] != r[j]
    {
      if j < |prev| {
        assert r[i] == prev[i] && r[j] == prev[j];
      } else if i < |prev| {
        assert r[i] == prev[i] && prev[i] in prev;
        assert r[j] == here[j - |prev|] && here[j - |prev|] in here;
      } else {
        assert r[i] == here[i - |prev|] && r[j] == here[j - |prev|];
      }
    }
  }

  /** The concatenation comes by non-decreasing end. */
  lemma {:induction false} ConcatSorted(at: int -> seq<Hit>, n: nat)
    requires EndsAt(at, n)
    ensures SortedByEnd(Concat(at, n))
  {
    if n > 0 {
      var prev := Concat(at, n - 1);
      var here := at(n - 1);
      ConcatSorted(at, n - 1);
      ConcatMembers(at, n - 1);
      AppendSorted(prev, here, n - 1);
    }
  }

  /** The concatenation repeats nothing when no `at(e)` does. */
  lemma {:induction false} ConcatDistinct(at: int -> seq<Hit>, n: nat)
    requires EndsAt(at, n) && forall e :: 0 <= e < n ==> NoRepeats(at(e))
    ensures NoRepeats(Concat(at, n))
  {
    if n > 0 {
      var prev := Concat(at, n - 1);
      var here := at(n - 1);
      ConcatDistinct(at, n - 1);
      ConcatMembers(at, n - 1);
      AppendDistinct(prev, here, n - 1);
    }
  }

  /** The payloads of the dictionary for `keys`, one for each key, in some order. */
  ghost function Entries(words: map<string, Payload>, keys: set<string>): (r: seq<Payload>)
    requires WellFormed(words) && keys <= words.Keys
    ensures forall w :: w in keys ==> words[w] in r
    ensures forall p :: p in r ==> p.word in keys && Registered(words, p)
    ensures NoRepeats(r)
    decreases keys
  {
    if keys == {} then []
    else
      var w :| w in keys;
      var rest := Entries(words, keys - {w});
      [words[w]] + rest
  }

  /** For every well-formed dictionary and every text there is a sequence of
      hits that keeps the scan contract: the reference scan. */
  lemma HitStreamExists(words: map<string, Payload>, text: string) returns (hits: seq<Hit>)
    requires WellFormed(words)
    ensures IsHitStream(words, text, hits)
  {
    var entries := Entries(words, words.Keys);
    var at := e => ScanAt(entries, text, e);
    forall e | 0 <= e < |text|
      ensures forall h :: h in at(e) <==> h.end == e && h.payload in entries && Occurs(h.payload.word, text, e)
      ensures NoRepeats(at(e))
    {
      ScanAtSpec(entries, text, e);
    }
    hits := Concat(at, |text|);
    ConcatMembers(at, |text|);
    ConcatSorted(at, |text|);
    ConcatDistinct(at, |text|);
  }
}
