/**
  The assistant object. It holds the loaded table, if any, and answers queries
  against it; every operation but `AnswerQuery` expects a table to be loaded.
 */
module Engine {
  import opened Wrappers
  import opened Text
  import opened Knowledge
  import opened Scorer
  import opened Intents
  import opened Grouper
  import opened Ranker
  import opened Replies
  import opened Dispatcher

  datatype QueryError = TableNotLoaded

  /**
    The text of the full listing, built line by line: a heading per plant and
    a bullet line per disease, between a fixed header and footer.
   */
  method CatalogueText(groups: seq<(string, seq<string>)>) returns (result: string)
    ensures result == CATALOGUE_HEAD + GroupLines(groups) + CATALOGUE_TAIL
  {
    var body := "";
    var i := 0;
    while i < |groups|
      invariant 0 <= i <= |groups|
      invariant body == GroupLines(groups[..i])
    {
      var plant := groups[i].0;
      var diseases := groups[i].1;
      var lines := "";
      var j := 0;
      while j < |diseases|
        invariant 0 <= j <= |diseases|
        invariant lines == DiseaseLines(diseases[..j])
      {
        DiseaseLinesSnoc(diseases, j);
        lines := lines + DiseaseLine(diseases[j]);
        j := j + 1;
      }
      assert diseases[..j] == diseases;
      GroupLinesSnoc(groups, i);
      body := body + GroupHeading(plant) + lines;
      i := i + 1;
    }
    assert groups[..i] == groups;
    result := CATALOGUE_HEAD + body + CATALOGUE_TAIL;
  }

  class TableQuestionAnswering {
    /** The loaded table; `None` until one is loaded. */
    var table: Option<seq<Row>>

    /** The similarity ratio of the string matcher. */
    const ratio: Ratio

    constructor (ratio: Ratio)
      ensures table == None && this.ratio == ratio
    {
      this.ratio := ratio;
      table := None;
    }

    /** Installs a table that has already been read, every cell as text. */
    method LoadTable(rows: seq<Row>)
      modifies this
      ensures table == Some(rows)
    {
      table := Some(rows);
    }

    /** `get_all_diseases`: plants in first-appearance order, each with its diseases in row order. */
    method GetAllDiseases() returns (index: PlantIndex)
      requires table.Some?
      ensures index == AllDiseases(table.value)
    {
      var rows := table.value;
      var plants: seq<string> := [];
      var diseases: map<string, seq<string>> := map[];
      var i := 0;
      while i < |rows|
        invariant 0 <= i <= |rows|
        invariant PlantIndex(plants, diseases) == AllDiseases(rows[..i])
      {
        var name := rows[i].diseaseName;
        AllDiseasesStep(rows, i);
        ghost var prev := PlantIndex(plants, diseases);
        if ':' in name {
          var plant := PlantOf(name);
          var disease := DiseaseOf(name);
          ghost var known := plant in diseases;
          ghost var before := diseases;
          if plant !in diseases {
            plants := plants + [plant];
            diseases := diseases[plant := []];
          }
          diseases := diseases[plant := diseases[plant] + [disease]];
          assert diseases == before[plant := (if known then before[plant] else []) + [disease]];
        }
        assert PlantIndex(plants, diseases) == GroupStep(prev, rows[i]);
        i := i + 1;
      }
      assert rows[..i] == rows;
      index := PlantIndex(plants, diseases);
    }

    /** `get_diseases_for_plant`: the names that mention the plant, in row order. */
    method GetDiseasesForPlant(plant: string) returns (diseases: seq<string>)
      requires table.Some?
      ensures diseases == DiseasesForPlant(table.value, plant)
    {
      var rows := table.value;
      var plantLower := Lower(plant);
      diseases := [];
      var i := 0;
      while i < |rows|
        invariant 0 <= i <= |rows|
        invariant diseases == DiseasesForPlant(rows[..i], plant)
      {
        assert rows[..i + 1][..i] == rows[..i];
        var name := rows[i].diseaseName;
        if Contains(Lower(name), plantLower) {
          diseases := diseases + [name];
        }
        i := i + 1;
      }
      assert rows[..i] == rows;
    }

    /**
      `suggest_similar_diseases`: names ranked by similarity, the first `topN`
      kept when they score above 0.1.
     */
    method SuggestSimilarDiseases(query: string, topN: int) returns (names: seq<string>)
      requires table.Some?
      ensures names == Suggestions(ratio, table.value, query, topN)
      ensures topN >= 0 ==> |names| <= topN
      ensures forall i :: 0 <= i < |names| ==>
                names[i] in DiseaseNames(table.value) && NameScore(ratio, query, names[i]) > SUGGESTION_CUTOFF
      ensures forall i, j :: 0 <= i < j < |names| ==> NameScore(ratio, query, names[i]) >= NameScore(ratio, query, names[j])
      ensures forall k, i :: 0 <= k < |table.value| && 0 <= i < |names|
                && NameScore(ratio, query, table.value[k].diseaseName) > SUGGESTION_CUTOFF
                && table.value[k].diseaseName !in names
                ==> NameScore(ratio, query, names[i]) >= NameScore(ratio, query, table.value[k].diseaseName)
      ensures topN >= 0 && |names| < topN ==>
                forall k :: 0 <= k < |table.value| && NameScore(ratio, query, table.value[k].diseaseName) > SUGGESTION_CUTOFF
                  ==> table.value[k].diseaseName in names
    {
      var rows := table.value;
      var suggestions: seq<Scored> := [];
      var i := 0;
      while i < |rows|
        invariant 0 <= i <= |rows|
        invariant |suggestions| == i
        invariant forall j :: 0 <= j < i ==>
                    suggestions[j] == Scored(rows[j].diseaseName, NameScore(ratio, query, rows[j].diseaseName))
      {
        var name := rows[i].diseaseName;
        var score := Similarity(ratio, Lower(query), Lower(name));
        suggestions := suggestions + [Scored(name, score)];
        i := i + 1;
      }
      assert suggestions == ScoredNames(ratio, rows, query);
      suggestions := SortByScoreDesc(suggestions);
      names := NamesOf(AboveCutoff(SlicePrefix(suggestions, topN)));
      SuggestionsSpec(ratio, rows, query, topN);
      SuggestionsTopN(ratio, rows, query, topN);
    }

    /**
      `find_best_match`: the first row with the highest combined score, with
      that score; no row, and score 0, when no row scores above 0.
     */
    method FindBestMatch(query: string, column: Column) returns (index: Option<nat>, score: real)
      requires table.Some?
      ensures Match(index, score) == BestMatch(ratio, table.value, query, column)
      ensures 0.0 <= score <= 1.0
      ensures forall i :: 0 <= i < |table.value| ==> ScoreAt(ratio, table.value, query, column, i) <= score
      ensures index.None? <==> score == 0.0
      ensures index.Some? ==> index.value < |table.value| && ScoreAt(ratio, table.value, query, column, index.value) == score
      ensures index.Some? ==> forall j :: 0 <= j < index.value ==> ScoreAt(ratio, table.value, query, column, j) < score
    {
      var rows := table.value;
      var queryLower := Lower(query);
      index, score := None, 0.0;
      var i := 0;
      while i < |rows|
        invariant 0 <= i <= |rows|
        invariant Match(index, score) == BestMatch(ratio, rows[..i], query, column)
      {
        BestMatchStep(ratio, rows, query, column, i);
        var value := Lower(Field(rows[i], column));
        var similarity := Similarity(ratio, queryLower, value);
        var queryWords := Split(queryLower);
        var wordMatches := WordHits(queryWords, value);
        var wordScore := if queryWords != [] then wordMatches as real / |queryWords| as real else 0.0;
        var combined := similarity * 0.6 + wordScore * 0.4;
        assert wordScore == WordScore(queryLower, value);
        assert combined == ScoreAt(ratio, rows, query, column, i);
        if combined > score {
          score := combined;
          index := Some(i);
        }
        i := i + 1;
      }
      assert rows[..i] == rows;
      ghost var m := BestMatch(ratio, rows, query, column);
      assert index == m.index && score == m.score;
      BestMatchSpec(ratio, rows, query, column);
    }

    /**
      The plant-listing scan of `extract_disease_info`: the first of `plants`,
      in order, that the query names while asking for a listing and that has
      diseases in the table, with those diseases.
     */
    method FirstListing(plants: seq<string>, queryLower: string) returns (hit: Option<nat>, diseases: seq<string>)
      requires table.Some?
      ensures hit == FirstQualifying(table.value, queryLower, plants, 0)
      ensures hit.Some? ==> diseases == DiseasesForPlant(table.value, plants[hit.value])
    {
      var rows := table.value;
      var i := 0;
      while i < |plants|
        invariant 0 <= i <= |plants|
        invariant FirstQualifying(rows, queryLower, plants, 0) == FirstQualifying(rows, queryLower, plants, i)
      {
        var plant := plants[i];
        if Contains(queryLower, plant) && AsksForListing(queryLower) {
          diseases := GetDiseasesForPlant(plant);
          if diseases != [] {
            return Some(i), diseases;
          }
        }
        FirstQualifyingSkip(rows, queryLower, plants, i);
        i := i + 1;
      }
      return None, [];
    }

    /** `extract_disease_info`: a plant listing, the not-found text, or an answer about the best-matching row. */
    method ExtractDiseaseInfo(query: string) returns (answer: string)
      requires table.Some?
      ensures answer == Render(ExtractReply(ratio, table.value, query))
    {
      var rows := table.value;
      var queryLower := Lower(query);
      var hit, diseases := FirstListing(PLANTS, queryLower);
      var reply: Reply;
      if hit.Some? {
        reply := PlantDiseases(PLANTS[hit.value], diseases);
      } else {
        var best, bestScore := FindBestMatch(query, DiseaseName);
        if bestScore < CONFIDENCE_THRESHOLD {
          var suggestions := SuggestSimilarDiseases(query, SUGGESTION_COUNT);
          reply := NotFound(suggestions);
        } else {
          var row := rows[best.value];
          if MentionsAny(queryLower, SUPPLEMENT_KEYWORDS) {
            reply := SupplementInfo(row.diseaseName, row.supplementName, row.buyLink);
          } else if MentionsAny(queryLower, TREATMENT_KEYWORDS) {
            reply := TreatmentInfo(row.diseaseName, row.possibleSteps);
          } else if MentionsAny(queryLower, DESCRIPTION_KEYWORDS) {
            reply := DescriptionInfo(row.diseaseName, row.description);
          } else {
            reply := Summary(row.diseaseName, row.description, row.possibleSteps, row.supplementName);
          }
          assert reply == LookupReply(row, queryLower);
        }
      }
      assert reply == ExtractReply(ratio, rows, query);
      answer := Render(reply);
    }

    /**
      `answer_query`: an error when no table is loaded, otherwise the answer
      the dispatcher chooses, as text.
     */
    method AnswerQuery(query: string) returns (r: Result<string, QueryError>)
      ensures table.None? ==> r == Failure(TableNotLoaded)
      ensures table.Some? ==> r == Success(Render(Respond(ratio, table.value, query)))
    {
      if table.None? {
        return Failure(TableNotLoaded);
      }
      if query == [] || Strip(query) == [] {
        return Success(ASK_PROMPT);
      }
      if IsGreeting(query) {
        return Success(GREETING);
      }
      if IsHelp(query) {
        return Success(HELP);
      }
      if IsListRequest(query) {
        var index := GetAllDiseases();
        AllDiseasesWellFormed(table.value);
        var listing := CatalogueText(SortedItems(index));
        RenderCatalogue(SortedItems(index));
        return Success(listing);
      }
      if IsThanks(query) {
        return Success(THANKS_REPLY);
      }
      var answer := ExtractDiseaseInfo(query);
      return Success(answer);
    }
  }
}
