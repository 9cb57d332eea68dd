/**
  The match ranker. A row's combined score blends the similarity of the query
  to one of its fields (weight 0.6) with the share of the query's words that
  occur in that field (weight 0.4); the best match is the first row with the
  highest combined score. Suggestions rank disease names by plain similarity.
 */
module Ranker {
  import opened Wrappers
  import opened Text
  import opened Knowledge
  import opened Scorer

  /** Suggestions must score strictly above this. */
  const SUGGESTION_CUTOFF: real := 0.1

  /** How many of `words` occur in `value`. */
  function WordHits(words: seq<string>, value: string): (n: nat)
    ensures n <= |words|
    ensures n == |words| <==> forall i :: 0 <= i < |words| ==> Contains(value, words[i])
  {
    if words == [] then 0
    else
      var prior := words[..|words| - 1];
      assert forall i :: 0 <= i < |prior| ==> prior[i] == words[i];
      WordHits(prior, value) + (if Contains(value, words[|words| - 1]) then 1 else 0)
  }

  /** Share of the query's words that occur in `value`, or 0 when the query has no words. */
  function WordScore(queryLower: string, value: string): (r: real)
    ensures 0.0 <= r <= 1.0
  {
    var words := Split(queryLower);
    if words == [] then 0.0
    else
      var hits := WordHits(words, value);
      Share(hits as real, |words| as real);
      hits as real / |words| as real
  }

  lemma Share(part: real, whole: real)
    requires 0.0 <= part <= whole && whole > 0.0
    ensures 0.0 <= part / whole <= 1.0
    ensures part == whole ==> part / whole == 1.0
  {
  }

  /** When every word of the query occurs in the value, the word score is 1. */
  lemma FullWordScore(queryLower: string, value: string)
    requires Split(queryLower) != []
    requires WordHits(Split(queryLower), value) == |Split(queryLower)|
    ensures WordScore(queryLower, value) == 1.0
  {
    var n := |Split(queryLower)| as real;
    Share(n, n);
  }

  /** `score * 0.6 + word_score * 0.4` for the lower-cased query and value. */
  function CombinedScore(ratio: Ratio, query: string, value: string): (r: real)
    ensures 0.0 <= r <= 1.0
  {
    var queryLower := Lower(query);
    var valueLower := Lower(value);
    Similarity(ratio, queryLower, valueLower) * 0.6 + WordScore(queryLower, valueLower) * 0.4
  }

  /** The combined score of row `i`. */
  function ScoreAt(ratio: Ratio, rows: seq<Row>, query: string, column: Column, i: nat): real
    requires i < |rows|
  {
    CombinedScore(ratio, query, Field(rows[i], column))
  }

  /** A best match: the chosen row, if any, and its score. */
  datatype Match = Match(index: Option<nat>, score: real)

  /**
    What `find_best_match` returns: a scan that starts from no row and score 0
    and moves to a row only when its score is strictly higher.
   */
  function BestMatch(ratio: Ratio, rows: seq<Row>, query: string, column: Column): Match
  {
    if rows == [] then Match(None, 0.0)
    else
      var n := |rows| - 1;
      var prior := BestMatch(ratio, rows[..n], query, column);
      var score := CombinedScore(ratio, query, Field(rows[n], column));
      if score > prior.score then Match(Some(n), score) else prior
  }

  /** One step of the scan: row `i` is taken only when it beats the best so far. */
  lemma BestMatchStep(ratio: Ratio, rows: seq<Row>, query: string, column: Column, i: nat)
    requires i < |rows|
    ensures var prior := BestMatch(ratio, rows[..i], query, column);
            var score := ScoreAt(ratio, rows, query, column, i);
            BestMatch(ratio, rows[..i + 1], query, column) == if score > prior.score then Match(Some(i), score) else prior
  {
    assert rows[..i + 1][..i] == rows[..i];
  }

  lemma ScoreAtPrefix(ratio: Ratio, rows: seq<Row>, query: string, column: Column, n: nat, i: nat)
    requires i < n <= |rows|
    ensures ScoreAt(ratio, rows[..n], query, column, i) == ScoreAt(ratio, rows, query, column, i)
  {
    assert rows[..n][i] == rows[i];
  }

  /** The scan's score lies in [0, 1]; a chosen row is valid, scores above 0 and is the score. */
  lemma {:induction false} BestMatchRange(ratio: Ratio, rows: seq<Row>, query: string, column: Column)
    ensures var m := BestMatch(ratio, rows, query, column);
            && 0.0 <= m.score <= 1.0
            && (m.index.None? ==> m.score == 0.0)
            && (m.index.Some? ==>
                  m.index.value < |rows| && m.score > 0.0 && ScoreAt(ratio, rows, query, column, m.index.value) == m.score)
  {
    if rows != [] {
      var n := |rows| - 1;
      var prior := BestMatch(ratio, rows[..n], query, column);
      var score := ScoreAt(ratio, rows, query, column, n);
      BestMatchRange(ratio, rows[..n], query, column);
      BestMatchStep(ratio, rows, query, column, n);
      assert rows[..n + 1] == rows;
      if score > prior.score {
        assert BestMatch(ratio, rows, query, column) == Match(Some(n), score);
      } else {
        assert BestMatch(ratio, rows, query, column) == prior;
        if prior.index.Some? {
          ScoreAtPrefix(ratio, rows, query, column, n, prior.index.value);
        }
      }
    }
  }

  /** No row scores above the scan's score. */
  lemma {:induction false} BestMatchBounds(ratio: Ratio, rows: seq<Row>, query: string, column: Column)
    ensures forall i :: 0 <= i < |rows| ==> ScoreAt(ratio, rows, query, column, i) <= BestMatch(ratio, rows, query, column).score
  {
    if rows != [] {
      var n := |rows| - 1;
      var prior := BestMatch(ratio, rows[..n], query, column);
      var score := ScoreAt(ratio, rows, query, column, n);
      BestMatchBounds(ratio, rows[..n], query, column);
      BestMatchStep(ratio, rows, query, column, n);
      assert rows[..n + 1] == rows;
      var best := BestMatch(ratio, rows, query, column).score;
      assert prior.score <= best && score <= best by {
        if score > prior.score {
          assert BestMatch(ratio, rows, query, column) == Match(Some(n), score);
        } else {
          assert BestMatch(ratio, rows, query, column) == prior;
        }
      }
      forall i | 0 <= i < |rows| ensures ScoreAt(ratio, rows, query, column, i) <= best {
        if i < n {
          ScoreAtPrefix(ratio, rows, query, column, n, i);
        }
      }
    }
  }

  /** Every row before the chosen one scores strictly less. */
  lemma {:induction false} BestMatchFirst(ratio: Ratio, rows: seq<Row>, query: string, column: Column)
    ensures var m := BestMatch(ratio, rows, query, column);
            m.index.Some? ==> forall j :: 0 <= j < m.index.value && j < |rows| ==> ScoreAt(ratio, rows, query, column, j) < m.score
  {
    if rows != [] {
      var n := |rows| - 1;
      BestMatchFirst(ratio, rows[..n], query, column);
      BestMatchBounds(ratio, rows[..n], query, column);
      BestMatchRange(ratio, rows[..n], query, column);
      BestMatchStep(ratio, rows, query, column, n);
      assert rows[..n + 1] == rows;
      var m := BestMatch(ratio, rows, query, column);
      if m.index.Some? {
        forall j | 0 <= j < m.index.value && j < |rows| ensures ScoreAt(ratio, rows, query, column, j) < m.score {
          ScoreAtPrefix(ratio, rows, query, column, n, j);
        }
      }
    }
  }

  /**
    The best match is the first row with the highest combined score. Its score
    lies in [0, 1] and bounds every row's score; there is no row exactly when
    no row scores above 0, and then the score is 0.
   */
  lemma BestMatchSpec(ratio: Ratio, rows: seq<Row>, query: string, column: Column)
    ensures var m := BestMatch(ratio, rows, query, column);
            && 0.0 <= m.score <= 1.0
            && (forall i :: 0 <= i < |rows| ==> ScoreAt(ratio, rows, query, column, i) <= m.score)
            && (m.index.None? <==> m.score == 0.0)
            && (m.index.None? <==> forall i :: 0 <= i < |rows| ==> ScoreAt(ratio, rows, query, column, i) <= 0.0)
            && (m.index.Some? ==>
                  && m.index.value < |rows|
                  && ScoreAt(ratio, rows, query, column, m.index.value) == m.score
                  && forall j :: 0 <= j < m.index.value ==> ScoreAt(ratio, rows, query, column, j) < m.score)
  {
    BestMatchRange(ratio, rows, query, column);
    BestMatchBounds(ratio, rows, query, column);
    BestMatchFirst(ratio, rows, query, column);
  }

  /** Of two rows with the same value, the later one is never the best match. */
  lemma EarlierDuplicateWins(ratio: Ratio, rows: seq<Row>, query: string, column: Column, i: nat, j: nat)
    requires i < j < |rows|
    requires Field(rows[i], column) == Field(rows[j], column)
    ensures BestMatch(ratio, rows, query, column).index != Some(j)
  {
    BestMatchSpec(ratio, rows, query, column);
    assert ScoreAt(ratio, rows, query, column, i) == ScoreAt(ratio, rows, query, column, j);
  }

  /**
    When every word of the query occurs in some row's value, that row scores at
    least 0.4, so the best match exists and scores at least 0.4.
   */
  lemma WordOverlapFloor(ratio: Ratio, rows: seq<Row>, query: string, column: Column, k: nat)
    requires k < |rows|
    requires Split(Lower(query)) != []
    requires forall w :: w in Split(Lower(query)) ==> Contains(Lower(Field(rows[k], column)), w)
    ensures BestMatch(ratio, rows, query, column).index.Some?
    ensures BestMatch(ratio, rows, query, column).score >= 0.4
  {
    var words := Split(Lower(query));
    var value := Lower(Field(rows[k], column));
    assert WordHits(words, value) == |words| by {
      forall i | 0 <= i < |words| ensures Contains(value, words[i]) {
        assert words[i] in words;
      }
    }
    FullWordScore(Lower(query), value);
    assert ScoreAt(ratio, rows, query, column, k) >= 0.4;
    BestMatchSpec(ratio, rows, query, column);
  }

  /** A query equal to a row's value up to letter case, and not blank, is matched with score at least 0.4. */
  lemma ExactValueFloor(ratio: Ratio, rows: seq<Row>, query: string, column: Column, k: nat)
    requires k < |rows|
    requires Lower(query) == Lower(Field(rows[k], column))
    requires !AllSpace(query)
    ensures BestMatch(ratio, rows, query, column).index.Some?
    ensures BestMatch(ratio, rows, query, column).score >= 0.4
  {
    LowerBlank(query);
    SplitEmptyIffBlank(Lower(query));
    SplitWordsOccur(Lower(query));
    WordOverlapFloor(ratio, rows, query, column, k);
  }

  // ---------------------------------------------------------------------
  // Suggestions

  /** A disease name with its similarity to the query. */
  datatype Scored = Scored(name: string, score: real)

  /** The score `suggest_similar_diseases` gives a name. */
  function NameScore(ratio: Ratio, query: string, name: string): real
  {
    Similarity(ratio, Lower(query), Lower(name))
  }

  /** The `(disease_name, score)` pairs, in row order. */
  function ScoredNames(ratio: Ratio, rows: seq<Row>, query: string): seq<Scored>
  {
    seq(|rows|, i requires 0 <= i < |rows| => Scored(rows[i].diseaseName, NameScore(ratio, query, rows[i].diseaseName)))
  }

  predicate NonIncreasing(s: seq<Scored>)
  {
    forall i, j :: 0 <= i < j < |s| ==> s[i].score >= s[j].score
  }

  /** The elements of `s` with score `v`, in order. */
  function ScoreClass(s: seq<Scored>, v: real): seq<Scored>
  {
    if s == [] then []
    else (if s[0].score == v then [s[0]] else []) + ScoreClass(s[1..], v)
  }

  /** Puts `x` in front of the first element that does not score above it. */
  function InsertDesc(x: Scored, t: seq<Scored>): (r: seq<Scored>)
    ensures multiset(r) == multiset(t) + multiset{x}
  {
    if t == [] then [x]
    else if t[0].score <= x.score then [x] + t
    else
      assert t == [t[0]] + t[1..];
      [t[0]] + InsertDesc(x, t[1..])
  }

  /** `list.sort(key=score, reverse=True)`: descending by score, and stable. */
  function SortByScoreDesc(s: seq<Scored>): (r: seq<Scored>)
    ensures multiset(r) == multiset(s)
  {
    if s == [] then []
    else
      assert s == [s[0]] + s[1..];
      InsertDesc(s[0], SortByScoreDesc(s[1..]))
  }

  lemma {:induction false} InsertDescSorted(x: Scored, t: seq<Scored>)
    requires NonIncreasing(t)
    ensures NonIncreasing(InsertDesc(x, t))
  {
    if t == [] {
      assert InsertDesc(x, t) == [x];
    } else if t[0].score <= x.score {
      assert InsertDesc(x, t) == [x] + t;
      forall j | 0 <= j < |t| ensures t[j].score <= x.score {
        NonIncreasingAt(t, 0, j);
      }
      ConsNonIncreasing(x, t);
    } else {
      TailNonIncreasing(t);
      InsertDescSorted(x, t[1..]);
      var u := InsertDesc(x, t[1..]);
      assert InsertDesc(x, t) == [t[0]] + u;
      forall j | 0 <= j < |u| ensures u[j].score <= t[0].score {
        assert u[j] in multiset(u);
        if u[j] != x {
          assert u[j] in multiset(t[1..]);
          var k :| 0 <= k < |t[1..]| && t[1..][k] == u[j];
          NonIncreasingAt(t, 0, k + 1);
        }
      }
      ConsNonIncreasing(t[0], u);
    }
  }

  /** A head scoring at least every element of a non-increasing tail keeps it non-increasing. */
  lemma ConsNonIncreasing(h: Scored, u: seq<Scored>)
    requires NonIncreasing(u)
    requires forall j :: 0 <= j < |u| ==> u[j].score <= h.score
    ensures NonIncreasing([h] + u)
  {
    var s := [h] + u;
    forall i, j | 0 <= i < j < |s| ensures s[i].score >= s[j].score {
      assert s[j] == u[j - 1];
      if i > 0 {
        assert s[i] == u[i - 1];
      }
    }
  }

  /** The sort's result is in non-increasing score order. */
  lemma {:induction false} SortByScoreDescSorted(s: seq<Scored>)
    ensures NonIncreasing(SortByScoreDesc(s))
  {
    if s != [] {
      SortByScoreDescSorted(s[1..]);
      InsertDescSorted(s[0], SortByScoreDesc(s[1..]));
    }
  }

  lemma ScoreClassCons(x: Scored, t: seq<Scored>, v: real)
    ensures ScoreClass([x] + t, v) == (if x.score == v then [x] else []) + ScoreClass(t, v)
  {
    assert ([x] + t)[0] == x && ([x] + t)[1..] == t;
  }

  lemma {:induction false} InsertDescClass(x: Scored, t: seq<Scored>, v: real)
    ensures ScoreClass(InsertDesc(x, t), v) == (if x.score == v then [x] else []) + ScoreClass(t, v)
  {
    if t == [] {
      ScoreClassCons(x, [], v);
      assert [x] + [] == [x];
    } else if t[0].score <= x.score {
      assert InsertDesc(x, t) == [x] + t;
      ScoreClassCons(x, t, v);
    } else {
      InsertDescClass(x, t[1..], v);
      InsertDescClassStep(x, t, v);
    }
  }

  /** The recursive case of `InsertDescClass`: `x` passes `t[0]`, which scores higher. */
  lemma InsertDescClassStep(x: Scored, t: seq<Scored>, v: real)
    requires t != [] && t[0].score > x.score
    requires ScoreClass(InsertDesc(x, t[1..]), v) == (if x.score == v then [x] else []) + ScoreClass(t[1..], v)
    ensures ScoreClass(InsertDesc(x, t), v) == (if x.score == v then [x] else []) + ScoreClass(t, v)
  {
    var u := InsertDesc(x, t[1..]);
    assert InsertDesc(x, t) == [t[0]] + u;
    ScoreClassCons(t[0], u, v);
    ScoreClassCons(t[0], t[1..], v);
    assert [t[0]] + t[1..] == t;
    var head, rest := (if t[0].score == v then [t[0]] else []), ScoreClass(t[1..], v);
    var mine := if x.score == v then [x] else [];
    // At most one of `x` and `t[0]` has score `v`, so their order does not matter.
    if mine == [] {
      assert mine + (head + rest) == head + rest && mine + rest == rest;
    } else {
      assert head == [];
      assert head + (mine + rest) == mine + rest && head + rest == rest;
    }
  }

  /** Stability: the elements of each score keep their relative order. */
  lemma {:induction false} SortByScoreDescStable(s: seq<Scored>, v: real)
    ensures ScoreClass(SortByScoreDesc(s), v) == ScoreClass(s, v)
  {
    if s != [] {
      SortByScoreDescStable(s[1..], v);
      InsertDescClass(s[0], SortByScoreDesc(s[1..]), v);
    }
  }

  lemma {:induction false} ScoreClassMembers(s: seq<Scored>, v: real, z: Scored)
    requires z in ScoreClass(s, v)
    ensures z in s && z.score == v
  {
    if s != [] && z !in (if s[0].score == v then [s[0]] else []) {
      ScoreClassMembers(s[1..], v, z);
    }
  }

  lemma HeadInClass(s: seq<Scored>)
    ensures s != [] ==> s[0] in ScoreClass(s, s[0].score)
  {
  }

  lemma HeadIsMax(s: seq<Scored>, z: Scored)
    requires NonIncreasing(s) && z in s
    ensures z.score <= s[0].score
  {
    var i :| 0 <= i < |s| && s[i] == z;
  }

  lemma TailNonIncreasing(s: seq<Scored>)
    requires NonIncreasing(s) && s != []
    ensures NonIncreasing(s[1..])
  {
    forall i, j | 0 <= i < j < |s[1..]| ensures s[1..][i].score >= s[1..][j].score {
      assert s[1..][i] == s[i + 1] && s[1..][j] == s[j + 1];
    }
  }

  /** Two non-increasing sequences with the same score classes start with the same element. */
  lemma HeadsAgree(a: seq<Scored>, b: seq<Scored>)
    requires NonIncreasing(a) && NonIncreasing(b) && a != [] && b != []
    requires forall v :: ScoreClass(a, v) == ScoreClass(b, v)
    ensures a[0] == b[0]
  {
    assert ScoreClass(a, b[0].score) == ScoreClass(b, b[0].score);
    assert ScoreClass(a, a[0].score) == ScoreClass(b, a[0].score);
    HeadsAgreeAt(a, b);
  }

  /** `HeadsAgree` from the two score classes of the heads alone. */
  lemma HeadsAgreeAt(a: seq<Scored>, b: seq<Scored>)
    requires NonIncreasing(a) && NonIncreasing(b) && a != [] && b != []
    requires ScoreClass(a, b[0].score) == ScoreClass(b, b[0].score)
    requires ScoreClass(a, a[0].score) == ScoreClass(b, a[0].score)
    ensures a[0] == b[0]
  {
    var x, y := a[0], b[0];
    HeadInClass(a);
    HeadInClass(b);
    ScoreClassMembers(a, y.score, y);
    HeadIsMax(a, y);
    ScoreClassMembers(b, x.score, x);
    HeadIsMax(b, x);
    assert x.score == y.score;
    var ca, cb := ScoreClass(a, x.score), ScoreClass(b, x.score);
    assert ca == [x] + ScoreClass(a[1..], x.score);
    assert cb == [y] + ScoreClass(b[1..], x.score);
    assert ca[0] == x && cb[0] == y;
  }

  /** With equal heads, equal score classes carry over to the tails. */
  lemma TailsAgree(a: seq<Scored>, b: seq<Scored>)
    requires a != [] && b != [] && a[0] == b[0]
    requires forall v :: ScoreClass(a, v) == ScoreClass(b, v)
    ensures forall v :: ScoreClass(a[1..], v) == ScoreClass(b[1..], v)
  {
    var x := a[0];
    forall v ensures ScoreClass(a[1..], v) == ScoreClass(b[1..], v) {
      var ca, cb := ScoreClass(a[1..], v), ScoreClass(b[1..], v);
      assert ScoreClass(a, v) == ScoreClass(b, v);
      if x.score == v {
        assert ([x] + ca)[1..] == ca && ([x] + cb)[1..] == cb;
      } else {
        assert [] + ca == ca && [] + cb == cb;
      }
    }
  }

  lemma {:induction false} SameClassesSame(a: seq<Scored>, b: seq<Scored>)
    requires NonIncreasing(a) && NonIncreasing(b)
    requires forall v :: ScoreClass(a, v) == ScoreClass(b, v)
    ensures a == b
    decreases |a| + |b|
  {
    HeadInClass(a);
    HeadInClass(b);
    if a == [] && b == [] {
    } else if a == [] || b == [] {
      assert false;
    } else {
      HeadsAgree(a, b);
      TailsAgree(a, b);
      TailNonIncreasing(a);
      TailNonIncreasing(b);
      SameClassesSame(a[1..], b[1..]);
      assert a == [a[0]] + a[1..] && b == [b[0]] + b[1..];
    }
  }

  /**
    The model's sort is the only stable descending order: any arrangement in
    non-increasing score order that keeps each score's elements in their
    original order equals it.
   */
  lemma StableSortUnique(s: seq<Scored>, t: seq<Scored>)
    requires NonIncreasing(t)
    requires forall v :: ScoreClass(t, v) == ScoreClass(s, v)
    ensures t == SortByScoreDesc(s)
  {
    SortByScoreDescSorted(s);
    forall v ensures ScoreClass(t, v) == ScoreClass(SortByScoreDesc(s), v) {
      SortByScoreDescStable(s, v);
    }
    SameClassesSame(t, SortByScoreDesc(s));
  }

  /** `s[:n]`, where a negative `n` drops that many elements from the end. */
  function SlicePrefix<T>(s: seq<T>, n: int): seq<T>
  {
    var k := if n >= 0 then (if n < |s| then n else |s|) else (if |s| + n > 0 then |s| + n else 0);
    s[..k]
  }

  /** The elements scoring above the cutoff, in order. */
  function AboveCutoff(s: seq<Scored>): seq<Scored>
  {
    if s == [] then []
    else (if s[0].score > SUGGESTION_CUTOFF then [s[0]] else []) + AboveCutoff(s[1..])
  }

  function NamesOf(s: seq<Scored>): seq<string>
  {
    seq(|s|, i requires 0 <= i < |s| => s[i].name)
  }

  /** What `suggest_similar_diseases(query, top_n)` returns. */
  function Suggestions(ratio: Ratio, rows: seq<Row>, query: string, topN: int): seq<string>
  {
    NamesOf(AboveCutoff(SlicePrefix(SortByScoreDesc(ScoredNames(ratio, rows, query)), topN)))
  }

  lemma {:induction false} AboveCutoffSound(s: seq<Scored>)
    ensures |AboveCutoff(s)| <= |s|
    ensures forall x :: x in AboveCutoff(s) ==> x in s && x.score > SUGGESTION_CUTOFF
  {
    if s != [] {
      AboveCutoffSound(s[1..]);
    }
  }

  lemma {:induction false} AboveCutoffKeeps(s: seq<Scored>, x: Scored)
    requires x in s && x.score > SUGGESTION_CUTOFF
    ensures x in AboveCutoff(s)
  {
    if s[0] != x {
      assert x in s[1..] by {
        var i :| 0 <= i < |s| && s[i] == x;
        assert s[1..][i - 1] == x;
      }
      AboveCutoffKeeps(s[1..], x);
    }
  }

  lemma {:induction false} AboveCutoffOrdered(s: seq<Scored>)
    requires NonIncreasing(s)
    ensures NonIncreasing(AboveCutoff(s))
  {
    if s != [] {
      TailNonIncreasing(s);
      AboveCutoffOrdered(s[1..]);
      var r' := AboveCutoff(s[1..]);
      if s[0].score > SUGGESTION_CUTOFF {
        AboveCutoffSound(s[1..]);
        forall j | 0 <= j < |r'| ensures r'[j].score <= s[0].score {
          assert r'[j] in s[1..];
          var k :| 0 <= k < |s[1..]| && s[1..][k] == r'[j];
          assert s[k + 1] == r'[j];
        }
        assert AboveCutoff(s) == [s[0]] + r';
      } else {
        assert AboveCutoff(s) == r';
      }
    }
  }

  /** Every pair of the scan carries a row's name and that name's score. */
  predicate FromRows(ratio: Ratio, rows: seq<Row>, query: string, s: seq<Scored>)
  {
    forall x :: x in s ==> x.name in DiseaseNames(rows) && x.score == NameScore(ratio, query, x.name)
  }

  lemma ScoredNamesFromRows(ratio: Ratio, rows: seq<Row>, query: string)
    ensures FromRows(ratio, rows, query, ScoredNames(ratio, rows, query))
  {
    var s := ScoredNames(ratio, rows, query);
    forall x | x in s ensures x.name in DiseaseNames(rows) && x.score == NameScore(ratio, query, x.name) {
      var i :| 0 <= i < |s| && s[i] == x;
      assert DiseaseNames(rows)[i] == x.name;
    }
  }

  lemma PrefixMember<T>(s: seq<T>, k: nat, x: T)
    requires k <= |s| && x in s[..k]
    ensures x in s
  {
    var i :| 0 <= i < k && s[..k][i] == x;
    assert s[i] == x;
  }

  lemma NonIncreasingAt(s: seq<Scored>, i: int, j: int)
    ensures NonIncreasing(s) && 0 <= i < j < |s| ==> s[i].score >= s[j].score
  {
  }

  /** The ranked pairs: one per row, in non-increasing score order, each a row's name and its score. */
  lemma RankedFacts(ratio: Ratio, rows: seq<Row>, query: string)
    ensures var sorted := SortByScoreDesc(ScoredNames(ratio, rows, query));
            |sorted| == |rows| && NonIncreasing(sorted) && FromRows(ratio, rows, query, sorted)
  {
    var s := ScoredNames(ratio, rows, query);
    var sorted := SortByScoreDesc(s);
    ScoredNamesFromRows(ratio, rows, query);
    SortByScoreDescSorted(s);
    assert |multiset(sorted)| == |multiset(s)|;
    forall x | x in sorted ensures x.name in DiseaseNames(rows) && x.score == NameScore(ratio, query, x.name) {
      assert x in multiset(s);
    }
  }

  /** A prefix keeps the order and the provenance of the pairs. */
  lemma PrefixFacts(ratio: Ratio, rows: seq<Row>, query: string, s: seq<Scored>, k: nat)
    requires k <= |s| && NonIncreasing(s) && FromRows(ratio, rows, query, s)
    ensures NonIncreasing(s[..k]) && FromRows(ratio, rows, query, s[..k])
  {
    forall x | x in s[..k] ensures x in s {
      PrefixMember(s, k, x);
    }
  }

  /** The filter keeps the order and the provenance of the pairs. */
  lemma FilterFacts(ratio: Ratio, rows: seq<Row>, query: string, t: seq<Scored>)
    requires NonIncreasing(t) && FromRows(ratio, rows, query, t)
    ensures var f := AboveCutoff(t);
            |f| <= |t| && NonIncreasing(f) && FromRows(ratio, rows, query, f)
            && forall i :: 0 <= i < |f| ==> f[i].score > SUGGESTION_CUTOFF
  {
    AboveCutoffSound(t);
    AboveCutoffOrdered(t);
    var f := AboveCutoff(t);
    forall i | 0 <= i < |f| ensures f[i].score > SUGGESTION_CUTOFF {
      assert f[i] in f;
    }
  }

  /** The names of pairs that keep order and provenance are row names, in order of their scores. */
  lemma NamesFacts(ratio: Ratio, rows: seq<Row>, query: string, f: seq<Scored>)
    requires NonIncreasing(f) && FromRows(ratio, rows, query, f)
    requires forall i :: 0 <= i < |f| ==> f[i].score > SUGGESTION_CUTOFF
    ensures var r := NamesOf(f);
            |r| == |f|
            && (forall i :: 0 <= i < |r| ==> r[i] in DiseaseNames(rows) && NameScore(ratio, query, r[i]) > SUGGESTION_CUTOFF)
            && (forall i, j :: 0 <= i < j < |r| ==> NameScore(ratio, query, r[i]) >= NameScore(ratio, query, r[j]))
  {
    var r := NamesOf(f);
    forall i | 0 <= i < |r| ensures r[i] == f[i].name && f[i].score == NameScore(ratio, query, r[i]) {
      assert f[i] in f;
    }
  }

  /**
    At most `top_n` suggestions, never more than there are rows; each is a
    row's disease name whose similarity is above 0.1; and they come in
    non-increasing order of similarity.
   */
  lemma SuggestionsSpec(ratio: Ratio, rows: seq<Row>, query: string, topN: int)
    ensures var r := Suggestions(ratio, rows, query, topN);
            && (topN >= 0 ==> |r| <= topN)
            && |r| <= |rows|
            && (forall i :: 0 <= i < |r| ==> r[i] in DiseaseNames(rows) && NameScore(ratio, query, r[i]) > SUGGESTION_CUTOFF)
            && (forall i, j :: 0 <= i < j < |r| ==> NameScore(ratio, query, r[i]) >= NameScore(ratio, query, r[j]))
  {
    var sorted := SortByScoreDesc(ScoredNames(ratio, rows, query));
    var t := SlicePrefix(sorted, topN);
    var f := AboveCutoff(t);
    RankedFacts(ratio, rows, query);
    PrefixFacts(ratio, rows, query, sorted, |t|);
    assert t == sorted[..|t|];
    FilterFacts(ratio, rows, query, t);
    NamesFacts(ratio, rows, query, f);
  }

  /**
    Fewer than `top_n` suggestions means none was cut off: then every row whose
    name scores above 0.1 is suggested.
   */
  lemma SuggestionsComplete(ratio: Ratio, rows: seq<Row>, query: string, topN: int, k: nat)
    requires topN >= 0 && k < |rows|
    requires NameScore(ratio, query, rows[k].diseaseName) > SUGGESTION_CUTOFF
    requires |Suggestions(ratio, rows, query, topN)| < topN
    ensures rows[k].diseaseName in Suggestions(ratio, rows, query, topN)
  {
    var s := ScoredNames(ratio, rows, query);
    var sorted := SortByScoreDesc(s);
    var t := SlicePrefix(sorted, topN);
    var f := AboveCutoff(t);
    assert NamesOf(f) == Suggestions(ratio, rows, query, topN);
    var e := s[k];
    assert e in multiset(sorted) by {
      assert e in multiset(s);
    }
    var p :| 0 <= p < |sorted| && sorted[p] == e;
    SortByScoreDescSorted(s);
    if p >= |t| {
      // The slice is full and the filter dropped one of its elements, which
      // scores no higher than the cutoff and yet at least as high as `e`.
      assert |t| == topN;
      var q := FirstDropped(t);
      NonIncreasingAt(sorted, q, p);
      assert false;
    }
    assert e in t by {
      assert t[p] == e;
    }
    AboveCutoffKeeps(t, e);
    var j :| 0 <= j < |f| && f[j] == e;
    assert NamesOf(f)[j] == rows[k].diseaseName;
  }

  /**
    The suggestions are the top-scoring names: a row whose name scores above
    0.1 and is not suggested scores no higher than any suggestion, so it was
    left out only because the list was already full.
   */
  lemma SuggestionsAreTop(ratio: Ratio, rows: seq<Row>, query: string, topN: int, k: nat)
    requires k < |rows|
    requires NameScore(ratio, query, rows[k].diseaseName) > SUGGESTION_CUTOFF
    requires rows[k].diseaseName !in Suggestions(ratio, rows, query, topN)
    ensures var r := Suggestions(ratio, rows, query, topN);
            forall i :: 0 <= i < |r| ==> NameScore(ratio, query, r[i]) >= NameScore(ratio, query, rows[k].diseaseName)
  {
    var s := ScoredNames(ratio, rows, query);
    var sorted := SortByScoreDesc(s);
    var t := SlicePrefix(sorted, topN);
    assert t == sorted[..|t|];
    var e := s[k];
    assert e in multiset(sorted) by {
      assert e in multiset(s);
    }
    var p :| 0 <= p < |sorted| && sorted[p] == e;
    RankedFacts(ratio, rows, query);
    KeptScoreAtLeast(ratio, rows, query, sorted, |t|, p);
  }

  /**
    `SuggestionsAreTop` and `SuggestionsComplete` for every row at once: an
    unsuggested name above 0.1 scores no higher than any suggestion, and a
    list shorter than `top_n` leaves out no name above 0.1.
   */
  lemma SuggestionsTopN(ratio: Ratio, rows: seq<Row>, query: string, topN: int)
    ensures var r := Suggestions(ratio, rows, query, topN);
            forall k, i :: 0 <= k < |rows| && 0 <= i < |r|
              && NameScore(ratio, query, rows[k].diseaseName) > SUGGESTION_CUTOFF && rows[k].diseaseName !in r
              ==> NameScore(ratio, query, r[i]) >= NameScore(ratio, query, rows[k].diseaseName)
    ensures var r := Suggestions(ratio, rows, query, topN);
            topN >= 0 && |r| < topN ==>
              forall k :: 0 <= k < |rows| && NameScore(ratio, query, rows[k].diseaseName) > SUGGESTION_CUTOFF
                ==> rows[k].diseaseName in r
  {
    var r := Suggestions(ratio, rows, query, topN);
    forall k, i | 0 <= k < |rows| && 0 <= i < |r|
      && NameScore(ratio, query, rows[k].diseaseName) > SUGGESTION_CUTOFF && rows[k].diseaseName !in r
      ensures NameScore(ratio, query, r[i]) >= NameScore(ratio, query, rows[k].diseaseName)
    {
      SuggestionsAreTop(ratio, rows, query, topN, k);
    }
    if topN >= 0 && |r| < topN {
      forall k | 0 <= k < |rows| && NameScore(ratio, query, rows[k].diseaseName) > SUGGESTION_CUTOFF
        ensures rows[k].diseaseName in r
      {
        SuggestionsComplete(ratio, rows, query, topN, k);
      }
    }
  }

  /**
    In a ranked list, an element above the cutoff whose name the slice of
    length `n` and the filter do not keep scores no higher than any kept name.
   */
  lemma KeptScoreAtLeast(ratio: Ratio, rows: seq<Row>, query: string, sorted: seq<Scored>, n: nat, p: nat)
    requires n <= |sorted| && p < |sorted| && NonIncreasing(sorted) && FromRows(ratio, rows, query, sorted)
    requires sorted[p].score > SUGGESTION_CUTOFF && sorted[p].name !in NamesOf(AboveCutoff(sorted[..n]))
    ensures var r := NamesOf(AboveCutoff(sorted[..n]));
            forall i :: 0 <= i < |r| ==> NameScore(ratio, query, r[i]) >= sorted[p].score
  {
    var f := AboveCutoff(sorted[..n]);
    var r := NamesOf(f);
    if sorted[p] in f {
      NamesOfHas(f, sorted[p]);
      assert false;
    }
    DroppedScoresLower(sorted, n, p);
    PrefixFacts(ratio, rows, query, sorted, n);
    FilterFacts(ratio, rows, query, sorted[..n]);
    forall i | 0 <= i < |r| ensures NameScore(ratio, query, r[i]) >= sorted[p].score {
      assert f[i] in f;
      assert r[i] == f[i].name;
    }
  }

  lemma NamesOfHas(f: seq<Scored>, x: Scored)
    requires x in f
    ensures x.name in NamesOf(f)
  {
    var j :| 0 <= j < |f| && f[j] == x;
    assert NamesOf(f)[j] == x.name;
  }

  /** An element above the cutoff that the slice-and-filter drops scores no higher than anything it keeps. */
  lemma DroppedScoresLower(sorted: seq<Scored>, n: nat, p: nat)
    requires n <= |sorted| && p < |sorted| && NonIncreasing(sorted)
    requires sorted[p].score > SUGGESTION_CUTOFF && sorted[p] !in AboveCutoff(sorted[..n])
    ensures forall x :: x in AboveCutoff(sorted[..n]) ==> x.score >= sorted[p].score
  {
    var t := sorted[..n];
    if p < n {
      assert t[p] == sorted[p];
      AboveCutoffKeeps(t, sorted[p]);
    }
    AboveCutoffSound(t);
    forall x | x in AboveCutoff(t) ensures x.score >= sorted[p].score {
      var q :| 0 <= q < n && t[q] == x;
      NonIncreasingAt(sorted, q, p);
    }
  }

  lemma FirstDropped(t: seq<Scored>) returns (q: nat)
    requires |AboveCutoff(t)| < |t|
    ensures q < |t| && t[q].score <= SUGGESTION_CUTOFF
  {
    if forall i :: 0 <= i < |t| ==> t[i].score > SUGGESTION_CUTOFF {
      AllAboveKept(t);
      assert false;
    }
    q :| 0 <= q < |t| && t[q].score <= SUGGESTION_CUTOFF;
  }

  lemma {:induction false} AllAboveKept(t: seq<Scored>)
    requires forall i :: 0 <= i < |t| ==> t[i].score > SUGGESTION_CUTOFF
    ensures AboveCutoff(t) == t
  {
    if t != [] {
      AllAboveKept(t[1..]);
      assert t == [t[0]] + t[1..];
    }
  }
}
