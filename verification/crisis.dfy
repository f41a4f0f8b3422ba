/**
 * The crisis keyword filter: a message is a crisis message when one of a
 * fixed list of Russian phrases occurs anywhere in its lower-cased text.
 */
module Crisis {
  import opened Text

  /** The fixed crisis phrases, all written in lower case. */
  const Keywords: seq<string> := [
    "убить себя",
    "суицид",
    "покончить с собой",
    "не хочу жить",
    "хочу умереть",
    "резать вены",
    "самоубий",
    "себя убью",
    "нет смысла жить",
    "бессмысленно жить"
  ]

  /** Some keyword of `kws` occurs in `t`, found by trying them in order. */
  function AnyKeywordIn(t: string, kws: seq<string>): (r: bool)
    ensures r <==> exists k :: 0 <= k < |kws| && Occurs(kws[k], t)
  {
    if |kws| == 0 then false
    else if Contains(t, kws[0]) then true
    else
      var r := AnyKeywordIn(t, kws[1..]);
      assert forall k :: 1 <= k < |kws| ==> kws[k] == kws[1..][k - 1];
      r
  }

  /** The crisis test: false on empty text, otherwise a keyword occurs in the lower-cased text. */
  function IsCrisisMessage(text: string): (r: bool)
    ensures |text| == 0 ==> !r
    ensures r <==> |text| > 0 && exists k :: 0 <= k < |Keywords| && Occurs(Keywords[k], Lower(text))
  {
    |text| > 0 && AnyKeywordIn(Lower(text), Keywords)
  }

  /** `s` is lower-case Cyrillic words separated by spaces, with no space at
      either end. */
  predicate LowerPhrase(s: string)
  {
    && |s| > 0 && s[0] != ' ' && s[|s| - 1] != ' '
    && forall i :: 0 <= i < |s| ==> s[i] == ' ' || '\U{430}' <= s[i] <= '\U{44F}'
  }

  /** Each keyword is such a phrase. */
  lemma KeywordsArePhrases()
    ensures forall k :: 0 <= k < |Keywords| ==> LowerPhrase(Keywords[k])
  {
    FirstKeywordsArePhrases();
    LastKeywordsArePhrases();
  }

  /** The first five keywords, checked one by one. */
  lemma FirstKeywordsArePhrases()
    ensures forall k :: 0 <= k < 5 ==> LowerPhrase(Keywords[k])
  {
    assert LowerPhrase(Keywords[0]);
    assert LowerPhrase(Keywords[1]);
    assert LowerPhrase(Keywords[2]);
    assert LowerPhrase(Keywords[3]);
    assert LowerPhrase(Keywords[4]);
  }

  /** The last five keywords, checked one by one. */
  lemma LastKeywordsArePhrases()
    ensures forall k :: 5 <= k < 10 ==> LowerPhrase(Keywords[k])
  {
    assert LowerPhrase(Keywords[5]);
    assert LowerPhrase(Keywords[6]);
    assert LowerPhrase(Keywords[7]);
    assert LowerPhrase(Keywords[8]);
    assert LowerPhrase(Keywords[9]);
  }

  /** No keyword contains a letter that lower-casing would change. */
  lemma KeywordsAreLowercase(k: nat)
    requires k < |Keywords|
    ensures Lower(Keywords[k]) == Keywords[k]
  {
    KeywordsArePhrases();
    assert LowerPhrase(Keywords[k]);
    LowerOfLowercase(Keywords[k]);
  }

  /** A keyword embedded anywhere in a longer message is detected. */
  lemma KeywordAnywhereDetected(before: string, k: nat, after: string)
    requires k < |Keywords|
    ensures IsCrisisMessage(before + Keywords[k] + after)
  {
    var kw := Keywords[k];
    LowerConcat(before + kw, after);
    LowerConcat(before, kw);
    KeywordsAreLowercase(k);
    OccursInside(Lower(before), kw, Lower(after));
  }

  /** The classification is case-insensitive: a message and its lower case agree. */
  lemma CaseInsensitive(text: string)
    ensures IsCrisisMessage(Lower(text)) == IsCrisisMessage(text)
  {
    LowerIdempotent(text);
  }

  /** Every keyword starts and ends with a letter, so stripping a message never
      cuts into one. */
  lemma KeywordEnds(k: nat)
    requires k < |Keywords|
    ensures |Keywords[k]| > 0
    ensures !IsSpace(Keywords[k][0]) && !IsSpace(Keywords[k][|Keywords[k]| - 1])
  {
    KeywordsArePhrases();
    assert LowerPhrase(Keywords[k]);
  }

  /** A phrase written in any mix of upper and lower case is detected anywhere in
      a message: only its lower case has to be a keyword. */
  lemma AnyCaseDetected(before: string, s: string, k: nat, after: string)
    requires k < |Keywords|
    requires Lower(s) == Keywords[k]
    ensures IsCrisisMessage(before + s + after)
  {
    LowerConcat(before + s, after);
    LowerConcat(before, s);
    OccursInside(Lower(before), Keywords[k], Lower(after));
  }

  /** An upper-case phrase folds onto its keyword, so it is detected. */
  lemma UpperCasePhraseDetected()
    ensures Lower("ХОЧУ УМЕРЕТЬ") == Keywords[4]
    ensures IsCrisisMessage("ХОЧУ УМЕРЕТЬ")
  {
    var s := "ХОЧУ УМЕРЕТЬ";
    assert forall i :: 0 <= i < |s| ==> Lower(s)[i] == Keywords[4][i];
    AnyCaseDetected("", s, 4, "");
    assert "" + s + "" == s;
  }
}
