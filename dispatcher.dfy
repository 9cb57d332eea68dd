/**
  The dispatcher: which reply a query gets. Blank queries get a prompt; then
  greetings, help, the full listing and thanks are tried in that order; what is
  left is answered about the plants or diseases the query names.
 */
module Dispatcher {
  import opened Wrappers
  import opened Text
  import opened Knowledge
  import opened Scorer
  import opened Intents
  import opened Grouper
  import opened Ranker
  import opened Replies

  /** The plants a query may ask to have listed, in the order they are tried. */
  const PLANTS: seq<string> :=
    ["tomato", "apple", "grape", "corn", "potato", "pepper", "peach", "cherry", "strawberry",
     "blueberry", "orange", "raspberry", "soybean", "squash"]

  const DESCRIPTION_KEYWORDS: seq<string> := ["what is", "tell me about", "describe", "information about", "info about"]
  const TREATMENT_KEYWORDS: seq<string> :=
    ["how to treat", "treatment", "cure", "prevent", "prevention", "steps", "control", "manage"]
  const SUPPLEMENT_KEYWORDS: seq<string> :=
    ["supplement", "fertilizer", "product", "buy", "purchase", "recommendation", "recommend"]

  /** A best match scoring below this is not trusted. */
  const CONFIDENCE_THRESHOLD: real := 0.3

  /** How many suggestions a failed lookup offers. */
  const SUGGESTION_COUNT: int := 5

  /** The lower-cased query asks for a listing. */
  predicate AsksForListing(queryLower: string)
  {
    Contains(queryLower, "disease") || Contains(queryLower, "all") || Contains(queryLower, "list")
  }

  /** The query names `plant`, asks for a listing, and the table has diseases for that plant. */
  predicate Qualifies(rows: seq<Row>, queryLower: string, plant: string)
  {
    Contains(queryLower, plant) && AsksForListing(queryLower) && DiseasesForPlant(rows, plant) != []
  }

  /** Position of the first plant of `plants` from `from` on that qualifies, if any. */
  function FirstQualifying(rows: seq<Row>, queryLower: string, plants: seq<string>, from: nat): (r: Option<nat>)
    requires from <= |plants|
    ensures r.Some? ==> from <= r.value < |plants| && Qualifies(rows, queryLower, plants[r.value])
    ensures r.Some? ==> forall j :: from <= j < r.value ==> !Qualifies(rows, queryLower, plants[j])
    ensures r.None? <==> forall j :: from <= j < |plants| ==> !Qualifies(rows, queryLower, plants[j])
    decreases |plants| - from
  {
    if from == |plants| then None
    else if Qualifies(rows, queryLower, plants[from]) then Some(from)
    else FirstQualifying(rows, queryLower, plants, from + 1)
  }

  /** A plant that does not qualify is passed over. */
  lemma FirstQualifyingSkip(rows: seq<Row>, queryLower: string, plants: seq<string>, i: nat)
    requires i < |plants| && !Qualifies(rows, queryLower, plants[i])
    ensures FirstQualifying(rows, queryLower, plants, i) == FirstQualifying(rows, queryLower, plants, i + 1)
  {
  }

  /** What a confident lookup answers about the matched row: supplement, treatment, description or everything. */
  function LookupReply(row: Row, queryLower: string): (r: Reply)
    ensures r.SupplementInfo? || r.TreatmentInfo? || r.DescriptionInfo? || r.Summary?
  {
    if MentionsAny(queryLower, SUPPLEMENT_KEYWORDS) then
      SupplementInfo(row.diseaseName, row.supplementName, row.buyLink)
    else if MentionsAny(queryLower, TREATMENT_KEYWORDS) then
      TreatmentInfo(row.diseaseName, row.possibleSteps)
    else if MentionsAny(queryLower, DESCRIPTION_KEYWORDS) then
      DescriptionInfo(row.diseaseName, row.description)
    else
      Summary(row.diseaseName, row.description, row.possibleSteps, row.supplementName)
  }

  /** What `extract_disease_info` answers. */
  function ExtractReply(ratio: Ratio, rows: seq<Row>, query: string): Reply
  {
    var queryLower := Lower(query);
    var hit := FirstQualifying(rows, queryLower, PLANTS, 0);
    if hit.Some? then
      PlantDiseases(PLANTS[hit.value], DiseasesForPlant(rows, PLANTS[hit.value]))
    else
      var m := BestMatch(ratio, rows, query, DiseaseName);
      if m.score < CONFIDENCE_THRESHOLD then
        NotFound(Suggestions(ratio, rows, query, SUGGESTION_COUNT))
      else
        BestMatchSpec(ratio, rows, query, DiseaseName);
        LookupReply(rows[m.index.value], queryLower)
  }

  /** The query is empty or whitespace only: `not query or query.strip() == ''`. */
  predicate Blank(query: string)
  {
    query == [] || Strip(query) == []
  }

  /** What `answer_query` answers once a table is loaded. */
  function Respond(ratio: Ratio, rows: seq<Row>, query: string): Reply
  {
    if Blank(query) then AskPrompt
    else if IsGreeting(query) then GreetingReply
    else if IsHelp(query) then HelpReply
    else if IsListRequest(query) then DiseaseCatalogue(Catalogue(rows))
    else if IsThanks(query) then ThanksReply
    else ExtractReply(ratio, rows, query)
  }

  // ---------------------------------------------------------------------
  // Lemmas

  /** A lookup answer is one of the four row answers. */
  lemma ExtractReplyKinds(ratio: Ratio, rows: seq<Row>, query: string)
    ensures var r := ExtractReply(ratio, rows, query);
            r.PlantDiseases? || r.NotFound? || r.SupplementInfo? || r.TreatmentInfo? || r.DescriptionInfo? || r.Summary?
  {
  }

  /** The prompt is given exactly for the empty or all-whitespace query. */
  lemma RespondBlank(ratio: Ratio, rows: seq<Row>, query: string)
    ensures Respond(ratio, rows, query) == AskPrompt <==> AllSpace(query)
  {
    StripEmptyIffBlank(query);
    if !Blank(query) {
      var r := Respond(ratio, rows, query);
      if !IsGreeting(query) && !IsHelp(query) && !IsListRequest(query) && !IsThanks(query) {
        ExtractReplyKinds(ratio, rows, query);
        assert r == ExtractReply(ratio, rows, query);
      }
      assert !r.AskPrompt?;
    }
  }

  /**
    The fixed priority of the canned answers: each is given exactly when its
    test passes and no earlier test did; anything else is a lookup.
   */
  lemma RespondPriority(ratio: Ratio, rows: seq<Row>, query: string)
    ensures var r := Respond(ratio, rows, query);
            && (r == GreetingReply <==> !AllSpace(query) && IsGreeting(query))
            && (r == HelpReply <==> !AllSpace(query) && !IsGreeting(query) && IsHelp(query))
            && (r.DiseaseCatalogue? <==> !AllSpace(query) && !IsGreeting(query) && !IsHelp(query) && IsListRequest(query))
            && (r.DiseaseCatalogue? ==> r.groups == Catalogue(rows))
            && (r == ThanksReply <==>
                  !AllSpace(query) && !IsGreeting(query) && !IsHelp(query) && !IsListRequest(query) && IsThanks(query))
            && ((!AllSpace(query) && !IsGreeting(query) && !IsHelp(query) && !IsListRequest(query) && !IsThanks(query)) ==>
                  r == ExtractReply(ratio, rows, query))
  {
    StripEmptyIffBlank(query);
    ExtractReplyKinds(ratio, rows, query);
  }

  /**
    When some plant qualifies, the answer lists the diseases of a plant that
    qualifies and comes no later in the plant order.
   */
  lemma PlantListingFirst(ratio: Ratio, rows: seq<Row>, query: string, j: nat)
    requires j < |PLANTS| && Qualifies(rows, Lower(query), PLANTS[j])
    ensures var r := ExtractReply(ratio, rows, query);
            && r.PlantDiseases?
            && r.plant in PLANTS[..j + 1]
            && Qualifies(rows, Lower(query), r.plant)
            && r.diseases == DiseasesForPlant(rows, r.plant)
  {
    var hit := FirstQualifying(rows, Lower(query), PLANTS, 0);
    assert hit.Some? && hit.value <= j;
    assert PLANTS[..j + 1][hit.value] == PLANTS[hit.value];
  }

  /**
    Without a qualifying plant, the answer is the not-found text exactly when
    the best match scores below 0.3; it then offers at most five row names,
    each similar to the query above 0.1.
   */
  lemma LowConfidence(ratio: Ratio, rows: seq<Row>, query: string)
    requires forall j :: 0 <= j < |PLANTS| ==> !Qualifies(rows, Lower(query), PLANTS[j])
    ensures var r := ExtractReply(ratio, rows, query);
            && (r.NotFound? <==> BestMatch(ratio, rows, query, DiseaseName).score < CONFIDENCE_THRESHOLD)
            && (r.NotFound? ==> r.suggestions == Suggestions(ratio, rows, query, SUGGESTION_COUNT))
            && (r.NotFound? ==> |r.suggestions| <= SUGGESTION_COUNT)
            && (r.NotFound? ==> forall i :: 0 <= i < |r.suggestions| ==>
                  r.suggestions[i] in DiseaseNames(rows) && NameScore(ratio, query, r.suggestions[i]) > SUGGESTION_CUTOFF)
  {
    var queryLower := Lower(query);
    assert FirstQualifying(rows, queryLower, PLANTS, 0).None?;
    var m := BestMatch(ratio, rows, query, DiseaseName);
    if m.score < CONFIDENCE_THRESHOLD {
      assert ExtractReply(ratio, rows, query) == NotFound(Suggestions(ratio, rows, query, SUGGESTION_COUNT));
      SuggestionsSpec(ratio, rows, query, SUGGESTION_COUNT);
    } else {
      var k := ConfidentLookup(ratio, rows, query);
    }
  }

  /**
    Without a qualifying plant and with a best score of at least 0.3, the
    answer is about the first row with the highest score, which exists.
   */
  lemma ConfidentLookup(ratio: Ratio, rows: seq<Row>, query: string) returns (k: nat)
    requires forall j :: 0 <= j < |PLANTS| ==> !Qualifies(rows, Lower(query), PLANTS[j])
    requires BestMatch(ratio, rows, query, DiseaseName).score >= CONFIDENCE_THRESHOLD
    ensures k < |rows|
    ensures BestMatch(ratio, rows, query, DiseaseName).index == Some(k)
    ensures forall i :: 0 <= i < |rows| ==> ScoreAt(ratio, rows, query, DiseaseName, i) <= ScoreAt(ratio, rows, query, DiseaseName, k)
    ensures forall i :: 0 <= i < k ==> ScoreAt(ratio, rows, query, DiseaseName, i) < ScoreAt(ratio, rows, query, DiseaseName, k)
    ensures ExtractReply(ratio, rows, query) == LookupReply(rows[k], Lower(query))
  {
    BestMatchSpec(ratio, rows, query, DiseaseName);
    k := BestMatch(ratio, rows, query, DiseaseName).index.value;
  }

  /**
    The kind of lookup answer: supplement before treatment before description,
    and the full summary when none is asked for. The supplement answer carries
    the row's supplement and link and nothing else of the row.
   */
  lemma LookupPriority(row: Row, queryLower: string)
    ensures var r := LookupReply(row, queryLower);
            && (r.SupplementInfo? <==> MentionsAny(queryLower, SUPPLEMENT_KEYWORDS))
            && (r.TreatmentInfo? <==> !MentionsAny(queryLower, SUPPLEMENT_KEYWORDS) && MentionsAny(queryLower, TREATMENT_KEYWORDS))
            && (r.DescriptionInfo? <==>
                  !MentionsAny(queryLower, SUPPLEMENT_KEYWORDS) && !MentionsAny(queryLower, TREATMENT_KEYWORDS)
                  && MentionsAny(queryLower, DESCRIPTION_KEYWORDS))
            && (r.Summary? <==>
                  !MentionsAny(queryLower, SUPPLEMENT_KEYWORDS) && !MentionsAny(queryLower, TREATMENT_KEYWORDS)
                  && !MentionsAny(queryLower, DESCRIPTION_KEYWORDS))
            && r.disease == row.diseaseName
            && (r.SupplementInfo? ==> r.supplement == row.supplementName && r.link == row.buyLink)
            && (r.TreatmentInfo? || r.Summary? ==> r.steps == row.possibleSteps)
            && (r.DescriptionInfo? || r.Summary? ==> r.description == row.description)
  {
  }

  /**
    A query that names a row's disease exactly, up to letter case, is never
    answered with the not-found text (unless a plant listing comes first).
   */
  lemma ExactNameIsConfident(ratio: Ratio, rows: seq<Row>, query: string, k: nat)
    requires k < |rows|
    requires Lower(query) == Lower(rows[k].diseaseName)
    requires !AllSpace(query)
    requires forall j :: 0 <= j < |PLANTS| ==> !Qualifies(rows, Lower(query), PLANTS[j])
    ensures BestMatch(ratio, rows, query, DiseaseName).score >= CONFIDENCE_THRESHOLD
    ensures !ExtractReply(ratio, rows, query).NotFound?
  {
    ExactValueFloor(ratio, rows, query, DiseaseName, k);
    var best := ConfidentLookup(ratio, rows, query);
  }

  /** "hi, can you help me" passes both the greeting and the help test; the greeting wins. */
  lemma GreetingBeforeHelp(ratio: Ratio, rows: seq<Row>)
    ensures IsHelp("hi, can you help me")
    ensures Respond(ratio, rows, "hi, can you help me") == GreetingReply
  {
    var q := "hi, can you help me";
    assert Lower(q) == q by {
      assert forall i :: 0 <= i < |q| ==> LowerChar(q[i]) == q[i];
    }
    assert TrimLeft(q) == q;
    assert TrimRight(q) == q;
    assert OccursAt(q, GREETINGS[0], 0);
    assert OccursAt(q, HELP_KEYWORDS[0], 12);
    assert !AllSpace(q) by {
      assert !IsSpace(q[0]);
    }
    RespondPriority(ratio, rows, q);
  }

  /**
    The keyword tests match inside words: "which tomato diseases" contains
    "hi", so it gets the greeting rather than the tomato listing.
   */
  lemma GreetingInsideWord(ratio: Ratio, rows: seq<Row>)
    ensures Respond(ratio, rows, "which tomato diseases") == GreetingReply
  {
    var q := "which tomato diseases";
    assert Lower(q) == q by {
      assert forall i :: 0 <= i < |q| ==> LowerChar(q[i]) == q[i];
    }
    assert TrimLeft(q) == q;
    assert TrimRight(q) == q;
    assert q[1..3] == GREETINGS[0] by {
      assert q[1] == 'h' && q[2] == 'i';
    }
    assert OccursAt(q, GREETINGS[0], 1);
    assert !AllSpace(q) by {
      assert !IsSpace(q[0]);
    }
    RespondPriority(ratio, rows, q);
  }
}
