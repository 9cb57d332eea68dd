/**
  The intent classifier: four keyword tests on the lower-cased, stripped query.
  Each holds when any keyword of its list occurs in the query as a substring.
 */
module Intents {
  import opened Text

  const GREETINGS: seq<string> :=
    ["hi", "hello", "hey", "hoi", "greetings", "good morning", "good afternoon", "good evening"]
  const THANKS: seq<string> := ["thank", "thanks", "thank you", "thx"]
  const HELP_KEYWORDS: seq<string> := ["help", "what can you do", "commands", "options"]
  const LIST_KEYWORDS: seq<string> := ["list", "show all", "all diseases", "what diseases"]

  /** Some keyword of `keywords` occurs in `s`. */
  predicate MentionsAny(s: string, keywords: seq<string>)
  {
    exists i :: 0 <= i < |keywords| && Contains(s, keywords[i])
  }

  /** The form every intent test inspects: `query.lower().strip()`. */
  function Normalized(query: string): string
  {
    Strip(Lower(query))
  }

  /** `is_greeting`: some keyword occurs in the query; the `strip()` makes no difference. */
  predicate IsGreeting(query: string): (b: bool)
    ensures b <==> MentionsAny(Lower(query), GREETINGS)
  {
    MentionsAnyIgnoresPadding(Lower(query), GREETINGS);
    MentionsAny(Normalized(query), GREETINGS)
  }

  /** `is_thanks`: some keyword occurs in the query; the `strip()` makes no difference. */
  predicate IsThanks(query: string): (b: bool)
    ensures b <==> MentionsAny(Lower(query), THANKS)
  {
    MentionsAnyIgnoresPadding(Lower(query), THANKS);
    MentionsAny(Normalized(query), THANKS)
  }

  /** `is_help`: some keyword occurs in the query; the `strip()` makes no difference. */
  predicate IsHelp(query: string): (b: bool)
    ensures b <==> MentionsAny(Lower(query), HELP_KEYWORDS)
  {
    MentionsAnyIgnoresPadding(Lower(query), HELP_KEYWORDS);
    MentionsAny(Normalized(query), HELP_KEYWORDS)
  }

  /** `is_list_request`: some keyword occurs in the query; the `strip()` makes no difference. */
  predicate IsListRequest(query: string): (b: bool)
    ensures b <==> MentionsAny(Lower(query), LIST_KEYWORDS)
  {
    MentionsAnyIgnoresPadding(Lower(query), LIST_KEYWORDS);
    MentionsAny(Normalized(query), LIST_KEYWORDS)
  }

  /** A keyword that neither starts nor ends with whitespace. */
  predicate Trimmed(k: string)
  {
    k != [] && !IsSpace(k[0]) && !IsSpace(k[|k| - 1])
  }

  /** Stripping the query never changes whether a trimmed keyword occurs in it. */
  lemma KeywordIgnoresPadding(s: string, k: string)
    requires Trimmed(k)
    ensures Contains(Strip(s), k) <==> Contains(s, k)
  {
    var a, b := StripIsSlice(s);
    if Contains(Strip(s), k) {
      var i :| 0 <= i <= |s[a..b]| - |k| && OccursAt(s[a..b], k, i);
      SliceOfSlice(s, a, b, i, i + |k|);
      assert OccursAt(s, k, a + i);
    }
    if Contains(s, k) {
      var i :| 0 <= i <= |s| - |k| && OccursAt(s, k, i);
      assert s[i] == k[0];
      assert s[i + |k| - 1] == k[|k| - 1];
      assert a <= i && i + |k| <= b;
      SliceOfSlice(s, a, b, i - a, i - a + |k|);
      assert OccursAt(s[a..b], k, i - a);
    }
  }

  lemma MentionsAnyIgnoresPadding(s: string, keywords: seq<string>)
    requires forall i :: 0 <= i < |keywords| ==> Trimmed(keywords[i])
    ensures MentionsAny(Strip(s), keywords) <==> MentionsAny(s, keywords)
  {
    forall i | 0 <= i < |keywords| ensures Contains(Strip(s), keywords[i]) <==> Contains(s, keywords[i]) {
      KeywordIgnoresPadding(s, keywords[i]);
    }
  }
}
