/**
 * Worked cases of the boundary rule over ASCII text, for any sequence of
 * hits that keeps the scan contract.
 */
module Scenarios {
  import opened CharTables
  import opened Matcher
  import opened KeywordsFinder

  /** A piece of `text` starting at `s` equals `w` when it does character by
      character. */
  lemma SliceIs(text: string, w: string, s: nat)
    requires s + |w| <= |text| && forall j :: 0 <= j < |w| ==> text[s + j] == w[j]
    ensures text[s..s + |w|] == w
  {
  }

  /** "trans" occurs in "transport" only as its first five letters. */
  lemma TransOnlyAtStart(e: int)
    requires Occurs("trans", "transport", e)
    ensures e == 4
  {
    var text := "transport";
    assert text[e - 4..e + 1][0] == 't';
    assert text[e - 4] == 't';
  }

  /** No match of "trans" in "transport" lies between word boundaries: its
      only occurrence is followed by the letter 'p'. */
  lemma TransportHasNoWholeTrans(m: Match)
    ensures !IsWholeWordMatch(Ascii(), Registry(["trans"]), "transport", m)
  {
    var text := "transport";
    RegistrySpec(["trans"]);
    if m.word in Registry(["trans"]) && Occurs(m.word, text, m.end) {
      assert m.word == "trans";
      TransOnlyAtStart(m.end);
      assert text[5] == 'p';
    }
  }

  /** "trans" inside "transport" is a partial word and is not reported. */
  lemma PartialWordRejected(hits: seq<Hit>)
    requires IsHitStream(Registry(["trans"]), "transport", hits)
    ensures AllInRange("transport", hits) && Extract(Ascii(), "transport", hits) == []
  {
    RegistryWellFormed(["trans"]);
    ExtractExact(Ascii(), Registry(["trans"]), "transport", hits);
    var r := Extract(Ascii(), "transport", hits);
    if r != [] {
      assert r[0] in r;
      TransportHasNoWholeTrans(r[0]);
    }
  }

  /** Where the two keywords sit in "anti-trans policy", and what is around
      them. */
  lemma HyphenLetters()
    ensures |"anti-trans policy"| == 17
    ensures "anti-trans policy"[4] == '-' && "anti-trans policy"[10] == ' '
    ensures "anti-trans policy"[0..10] == "anti-trans" && "anti-trans policy"[5..10] == "trans"
  {
    SliceIs("anti-trans policy", "anti-trans", 0);
    SliceIs("anti-trans policy", "trans", 5);
  }

  /** In "anti-trans policy" the keyword "anti-trans" and the "trans" after
      its hyphen both lie between word boundaries. */
  lemma HyphenWholeWords()
    ensures IsWholeWordMatch(Ascii(), Registry(["trans", "anti-trans"]), "anti-trans policy", Match("anti-trans", 0, 9))
    ensures IsWholeWordMatch(Ascii(), Registry(["trans", "anti-trans"]), "anti-trans policy", Match("trans", 5, 9))
  {
    HyphenLetters();
    RegistrySpec(["trans", "anti-trans"]);
    assert "trans" in ["trans", "anti-trans"] && "anti-trans" in ["trans", "anti-trans"];
  }

  /** In "anti-trans policy" both "anti-trans" and the "trans" after the
      hyphen are reported, ending at the same offset. */
  lemma HyphenIsBoundary(hits: seq<Hit>)
    requires IsHitStream(Registry(["trans", "anti-trans"]), "anti-trans policy", hits)
    ensures AllInRange("anti-trans policy", hits)
    ensures Match("anti-trans", 0, 9) in Extract(Ascii(), "anti-trans policy", hits)
    ensures Match("trans", 5, 9) in Extract(Ascii(), "anti-trans policy", hits)
  {
    RegistryWellFormed(["trans", "anti-trans"]);
    ExtractExact(Ascii(), Registry(["trans", "anti-trans"]), "anti-trans policy", hits);
    HyphenWholeWords();
  }

  /** The normalised first sentence of the module's demonstration. */
  function Demo(): string
  {
    "the " + "transgender" + " community is fighting for " + "trans rights" + " and against " + "transphobia"
  }

  /** The keywords of the module's demonstration. */
  function DemoKeywords(): seq<string>
  {
    ["trans", "transphobia", "anti-trans", "trans rights"]
  }

  /** Where the keywords sit in the demonstration sentence, and what is
      around them. */
  lemma DemoLetters()
    ensures |Demo()| == 78
    ensures Demo()[3] == ' ' && Demo()[9] == 'g' && Demo()[41] == ' ' && Demo()[47] == ' '
    ensures Demo()[54] == ' ' && Demo()[66] == ' '
  {
  }

  lemma DemoPieces()
    ensures Demo()[4..9] == "trans" && Demo()[42..47] == "trans"
    ensures Demo()[42..54] == "trans rights" && Demo()[67..78] == "transphobia"
  {
    SliceIs(Demo(), "trans", 4);
    SliceIs(Demo(), "trans", 42);
    SliceIs(Demo(), "trans rights", 42);
    SliceIs(Demo(), "transphobia", 67);
  }

  /** "trans" at the start of "transgender" is not a whole word; "trans",
      "trans rights" and "transphobia" further on are. */
  lemma DemoWholeWords()
    ensures !IsWholeWordMatch(Ascii(), Registry(DemoKeywords()), Demo(), Match("trans", 4, 8))
    ensures IsWholeWordMatch(Ascii(), Registry(DemoKeywords()), Demo(), Match("trans", 42, 46))
    ensures IsWholeWordMatch(Ascii(), Registry(DemoKeywords()), Demo(), Match("trans rights", 42, 53))
    ensures IsWholeWordMatch(Ascii(), Registry(DemoKeywords()), Demo(), Match("transphobia", 67, 77))
  {
    DemoLetters();
    DemoPieces();
    RegistrySpec(DemoKeywords());
    assert "trans" in DemoKeywords() && "trans rights" in DemoKeywords() && "transphobia" in DemoKeywords();
  }

  /** Three different elements make a sequence of at least three. */
  lemma AtLeastThree(r: seq<Match>, a: Match, b: Match, c: Match)
    requires a in r && b in r && c in r && a != b && b != c && a != c
    ensures |r| >= 3
  {
    var i :| 0 <= i < |r| && r[i] == a;
    var j :| 0 <= j < |r| && r[j] == b;
    var k :| 0 <= k < |r| && r[k] == c;
  }

  /** On the demonstration sentence "trans" is not reported inside
      "transgender", but it is reported inside the phrase "trans rights",
      whose both ends are spaces, beside "trans rights" and "transphobia":
      at least three matches. */
  lemma DemoSentence(hits: seq<Hit>)
    requires IsHitStream(Registry(DemoKeywords()), Demo(), hits)
    ensures AllInRange(Demo(), hits)
    ensures Match("trans", 4, 8) !in Extract(Ascii(), Demo(), hits)
    ensures Match("trans", 42, 46) in Extract(Ascii(), Demo(), hits)
    ensures Match("trans rights", 42, 53) in Extract(Ascii(), Demo(), hits)
    ensures Match("transphobia", 67, 77) in Extract(Ascii(), Demo(), hits)
    ensures |Extract(Ascii(), Demo(), hits)| >= 3
  {
    RegistryWellFormed(DemoKeywords());
    ExtractExact(Ascii(), Registry(DemoKeywords()), Demo(), hits);
    DemoWholeWords();
    AtLeastThree(Extract(Ascii(), Demo(), hits),
      Match("trans", 42, 46), Match("trans rights", 42, 53), Match("transphobia", 67, 77));
  }
}
