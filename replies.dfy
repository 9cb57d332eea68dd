/**
  The replies the assistant gives. A reply is kept as a value that records
  which answer was chosen and the table text it embeds; `Render` produces the
  text the user reads, with the fixed wording and emoji of each answer.
 */
module Replies {
  import opened Text

  datatype Reply =
    | AskPrompt
    | GreetingReply
    | HelpReply
    | DiseaseCatalogue(groups: seq<(string, seq<string>)>)
    | ThanksReply
    | PlantDiseases(plant: string, diseases: seq<string>)
    | NotFound(suggestions: seq<string>)
    | SupplementInfo(disease: string, supplement: string, link: string)
    | TreatmentInfo(disease: string, steps: string)
    | DescriptionInfo(disease: string, description: string)
    | Summary(disease: string, description: string, steps: string, supplement: string)

  const BULLET: string := "\n\U{2022} "

  /** Shown in place of suggestions when there are none. */
  const FALLBACK_SUGGESTIONS: string := "Apple Scab, Tomato Early Blight, Grape Black Rot"

  const ASK_PROMPT: string := "Please ask me something! I can help you with plant diseases, treatments, and supplements."

  const GREETING: string :=
    "Hello! \U{1F44B} I'm your plant disease assistant. I can help you with:\n\n"
    + "\U{2022} Information about plant diseases\n\U{2022} Treatment and prevention methods\n"
    + "\U{2022} Supplement recommendations\n\U{2022} List diseases by plant (e.g., 'tomato diseases')\n\n"
    + "Feel free to ask me anything about plant health!\n\n"
    + "Try asking: 'What are tomato diseases?' or 'How to treat apple scab?'"

  const HELP: string :=
    "\U{1F331} Here's what I can help you with:\n\n"
    + "1\U{FE0F}\U{20E3} Get disease information: 'What is tomato early blight?'\n"
    + "2\U{FE0F}\U{20E3} Treatment advice: 'How to treat grape black rot?'\n"
    + "3\U{FE0F}\U{20E3} Supplement recommendations: 'Supplement for potato late blight'\n"
    + "4\U{FE0F}\U{20E3} List diseases: 'Show all tomato diseases'\n"
    + "5\U{FE0F}\U{20E3} List all diseases: 'List all diseases'\n\n"
    + "Just ask naturally and I'll understand!"

  const THANKS_REPLY: string :=
    "You're welcome! Feel free to ask if you have any more questions about plant diseases or treatments. Happy gardening! \U{1F331}"

  const CATALOGUE_HEAD: string := "\U{1F33F} All Available Diseases by Plant:\n\n"
  const CATALOGUE_TAIL: string := "\n\U{1F4A1} Ask me about any disease for detailed information!"

  const LISTING_HEAD: string := "Here are all the "
  const LISTING_MIDDLE: string := " diseases in my database:\n\n\U{2022} "
  const LISTING_TAIL: string := "\n\nYou can ask me about any of these for more details!"

  const NOT_FOUND_HEAD: string :=
    "I'm sorry, I couldn't find information about that disease. \n\nDid you mean one of these?\n\U{2022} "
  const NOT_FOUND_TAIL: string := "\n\nOr type 'list all diseases' to see all available diseases."

  const SUPPLEMENT_HEAD: string := "\U{1F48A} Supplement Recommendation for "
  const SUPPLEMENT_MIDDLE: string := ":\n\n"
  const SUPPLEMENT_LINK: string := "\n\n\U{1F6D2} Purchase Link:\n"

  /** One line per disease of a plant, as the inner loop of the listing appends them. */
  function DiseaseLines(diseases: seq<string>): string
  {
    if diseases == [] then []
    else DiseaseLines(diseases[..|diseases| - 1]) + DiseaseLine(diseases[|diseases| - 1])
  }

  function DiseaseLine(disease: string): string
  {
    "  \U{2022} " + disease + "\n"
  }

  function GroupHeading(plant: string): string
  {
    "\n" + Upper(plant) + ":\n"
  }

  /** A heading per plant followed by its disease lines, as the outer loop appends them. */
  function GroupLines(groups: seq<(string, seq<string>)>): string
  {
    if groups == [] then []
    else
      var g := groups[|groups| - 1];
      GroupLines(groups[..|groups| - 1]) + GroupHeading(g.0) + DiseaseLines(g.1)
  }

  /** The words of a suggestion list, or the fixed trio when it is empty. */
  function SuggestionText(suggestions: seq<string>): string
  {
    if suggestions == [] then FALLBACK_SUGGESTIONS else Join(BULLET, suggestions)
  }

  /** The text of a reply. */
  function Render(r: Reply): string
  {
    match r
    case AskPrompt => ASK_PROMPT
    case GreetingReply => GREETING
    case HelpReply => HELP
    case DiseaseCatalogue(groups) => CATALOGUE_HEAD + GroupLines(groups) + CATALOGUE_TAIL
    case ThanksReply => THANKS_REPLY
    case PlantDiseases(plant, diseases) =>
      LISTING_HEAD + Title(plant) + LISTING_MIDDLE + Join(BULLET, diseases) + LISTING_TAIL
    case NotFound(suggestions) =>
      NOT_FOUND_HEAD + SuggestionText(suggestions) + NOT_FOUND_TAIL
    case SupplementInfo(disease, supplement, link) =>
      SUPPLEMENT_HEAD + disease + SUPPLEMENT_MIDDLE + supplement + SUPPLEMENT_LINK + link
    case TreatmentInfo(disease, steps) =>
      "\U{1F33F} Treatment for " + disease + ":\n\n" + steps
    case DescriptionInfo(disease, description) =>
      "\U{1F4CB} " + disease + ":\n\n" + description
    case Summary(disease, description, steps, supplement) =>
      "\U{1F4CB} " + disease + "\n\n\U{1F4D6} Description:\n" + description
      + "\n\n\U{1F33F} Treatment:\n" + steps + "\n\n\U{1F48A} Recommended Supplement:\n" + supplement
  }

  // ---------------------------------------------------------------------
  // Lemmas

  /** The listing text is its groups' lines between the fixed header and footer. */
  lemma RenderCatalogue(groups: seq<(string, seq<string>)>)
    ensures Render(DiseaseCatalogue(groups)) == CATALOGUE_HEAD + GroupLines(groups) + CATALOGUE_TAIL
  {
  }

  /** One more disease adds its line at the end. */
  lemma DiseaseLinesSnoc(diseases: seq<string>, j: nat)
    requires j < |diseases|
    ensures DiseaseLines(diseases[..j + 1]) == DiseaseLines(diseases[..j]) + DiseaseLine(diseases[j])
  {
    assert diseases[..j + 1][..j] == diseases[..j];
  }

  /** One more group adds its heading and lines at the end. */
  lemma GroupLinesSnoc(groups: seq<(string, seq<string>)>, i: nat)
    requires i < |groups|
    ensures GroupLines(groups[..i + 1]) == GroupLines(groups[..i]) + GroupHeading(groups[i].0) + DiseaseLines(groups[i].1)
  {
    assert groups[..i + 1][..i] == groups[..i];
  }

  /** Every disease of a plant gets its own bullet line. */
  lemma {:induction false} DiseaseLinesShowAll(diseases: seq<string>, k: nat)
    requires k < |diseases|
    ensures Contains(DiseaseLines(diseases), DiseaseLine(diseases[k]))
  {
    var n := |diseases| - 1;
    var prior := diseases[..n];
    if k == n {
      ContainsMiddle(DiseaseLines(prior), DiseaseLine(diseases[k]), []);
      assert DiseaseLines(diseases) == DiseaseLines(prior) + DiseaseLine(diseases[k]) + [];
    } else {
      DiseaseLinesShowAll(prior, k);
      assert prior[k] == diseases[k];
      ContainsWithin([], DiseaseLines(prior), DiseaseLine(diseases[n]), DiseaseLine(diseases[k]));
      assert DiseaseLines(diseases) == [] + DiseaseLines(prior) + DiseaseLine(diseases[n]);
    }
  }

  /** Every group of the listing has its heading and every one of its disease lines. */
  lemma {:induction false} GroupLinesShowAll(groups: seq<(string, seq<string>)>, i: nat)
    requires i < |groups|
    ensures Contains(GroupLines(groups), GroupHeading(groups[i].0))
    ensures forall k :: 0 <= k < |groups[i].1| ==> Contains(GroupLines(groups), DiseaseLine(groups[i].1[k]))
  {
    var n := |groups| - 1;
    var prior := groups[..n];
    var g := groups[n];
    if i == n {
      assert GroupLines(groups) == GroupLines(prior) + GroupHeading(g.0) + DiseaseLines(g.1);
      ContainsMiddle(GroupLines(prior), GroupHeading(g.0), DiseaseLines(g.1));
      forall k | 0 <= k < |g.1| ensures Contains(GroupLines(groups), DiseaseLine(g.1[k])) {
        DiseaseLinesShowAll(g.1, k);
        ContainsWithin(GroupLines(prior) + GroupHeading(g.0), DiseaseLines(g.1), [], DiseaseLine(g.1[k]));
        assert GroupLines(groups) == GroupLines(prior) + GroupHeading(g.0) + DiseaseLines(g.1) + [];
      }
    } else {
      GroupLinesShowAll(prior, i);
      assert prior[i] == groups[i];
      var rest := GroupHeading(g.0) + DiseaseLines(g.1);
      assert GroupLines(groups) == [] + GroupLines(prior) + rest;
      ContainsWithin([], GroupLines(prior), rest, GroupHeading(groups[i].0));
      forall k | 0 <= k < |groups[i].1| ensures Contains(GroupLines(groups), DiseaseLine(groups[i].1[k])) {
        ContainsWithin([], GroupLines(prior), rest, DiseaseLine(groups[i].1[k]));
      }
    }
  }

  /** The rendered listing shows each plant's heading and each of its diseases. */
  lemma CatalogueShowsAll(groups: seq<(string, seq<string>)>, i: nat, k: nat)
    requires i < |groups| && k < |groups[i].1|
    ensures Contains(Render(DiseaseCatalogue(groups)), GroupHeading(groups[i].0))
    ensures Contains(Render(DiseaseCatalogue(groups)), DiseaseLine(groups[i].1[k]))
  {
    GroupLinesShowAll(groups, i);
    ContainsWithin(CATALOGUE_HEAD, GroupLines(groups), CATALOGUE_TAIL, GroupHeading(groups[i].0));
    ContainsWithin(CATALOGUE_HEAD, GroupLines(groups), CATALOGUE_TAIL, DiseaseLine(groups[i].1[k]));
  }

  /**
    The not-found text shows every suggestion; with no suggestion it shows
    the fixed trio instead.
   */
  lemma NotFoundShows(suggestions: seq<string>, k: nat)
    requires k < |suggestions|
    ensures Contains(Render(NotFound(suggestions)), suggestions[k])
  {
    JoinContainsParts(BULLET, suggestions, k);
    assert Render(NotFound(suggestions)) == NOT_FOUND_HEAD + Join(BULLET, suggestions) + NOT_FOUND_TAIL;
    ContainsWithin(NOT_FOUND_HEAD, Join(BULLET, suggestions), NOT_FOUND_TAIL, suggestions[k]);
  }

  lemma NotFoundFallback()
    ensures Contains(Render(NotFound([])), FALLBACK_SUGGESTIONS)
  {
    assert Render(NotFound([])) == NOT_FOUND_HEAD + FALLBACK_SUGGESTIONS + NOT_FOUND_TAIL;
    ContainsMiddle(NOT_FOUND_HEAD, FALLBACK_SUGGESTIONS, NOT_FOUND_TAIL);
  }

  /** The plant listing shows every disease it was given. */
  lemma PlantListingShows(plant: string, diseases: seq<string>, k: nat)
    requires k < |diseases|
    ensures Contains(Render(PlantDiseases(plant, diseases)), diseases[k])
  {
    var head := LISTING_HEAD + Title(plant) + LISTING_MIDDLE;
    JoinContainsParts(BULLET, diseases, k);
    assert Render(PlantDiseases(plant, diseases)) == head + Join(BULLET, diseases) + LISTING_TAIL;
    ContainsWithin(head, Join(BULLET, diseases), LISTING_TAIL, diseases[k]);
  }

  /** The supplement answer shows the disease, the supplement and the purchase link. */
  lemma SupplementShows(disease: string, supplement: string, link: string)
    ensures Contains(Render(SupplementInfo(disease, supplement, link)), disease)
    ensures Contains(Render(SupplementInfo(disease, supplement, link)), supplement)
    ensures Contains(Render(SupplementInfo(disease, supplement, link)), link)
  {
    var a, b, c := SUPPLEMENT_HEAD, SUPPLEMENT_MIDDLE, SUPPLEMENT_LINK;
    var text := Render(SupplementInfo(disease, supplement, link));
    assert text == a + disease + (b + supplement + c + link);
    ContainsMiddle(a, disease, b + supplement + c + link);
    assert text == a + disease + b + supplement + (c + link);
    ContainsMiddle(a + disease + b, supplement, c + link);
    assert text == a + disease + b + supplement + c + link + [];
    ContainsMiddle(a + disease + b + supplement + c, link, []);
  }
}
