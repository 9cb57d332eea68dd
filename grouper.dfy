/**
  The plant/disease grouper. A disease name has the form "<Plant>: <Disease>";
  grouping splits it at the first ':' and collects, per plant, the diseases in
  row order. Plant filtering keeps the names that mention a plant, in any case.
 */
module Grouper {
  import opened Text
  import opened Knowledge

  /** The trimmed text before the first ':' of a name. */
  function PlantOf(name: string): string
    requires ':' in name
  {
    Strip(name[..Find(name, ':')])
  }

  /** The trimmed text after the first ':' of a name. */
  function DiseaseOf(name: string): string
    requires ':' in name
  {
    Strip(name[Find(name, ':') + 1..])
  }

  /** The row's name has a ':' and names plant `p` before it. */
  predicate FiledUnder(row: Row, p: string)
  {
    ':' in row.diseaseName && PlantOf(row.diseaseName) == p
  }

  /** Number of rows whose name contains ':'. */
  function ColonRows(rows: seq<Row>): nat
  {
    if rows == [] then 0
    else ColonRows(rows[..|rows| - 1]) + (if ':' in rows[|rows| - 1].diseaseName then 1 else 0)
  }

  /** The plants of the rows that contribute to the grouping, in order of first appearance. */
  function PlantsIn(rows: seq<Row>): seq<string>
  {
    if rows == [] then []
    else
      var prior := PlantsIn(rows[..|rows| - 1]);
      var name := rows[|rows| - 1].diseaseName;
      if ':' in name && PlantOf(name) !in prior then prior + [PlantOf(name)] else prior
  }

  /** The diseases filed under plant `p`, in row order. */
  function DiseasesOf(rows: seq<Row>, p: string): seq<string>
  {
    if rows == [] then []
    else
      var name := rows[|rows| - 1].diseaseName;
      DiseasesOf(rows[..|rows| - 1], p) + (if FiledUnder(rows[|rows| - 1], p) then [DiseaseOf(name)] else [])
  }

  /**
    A dictionary from plant to disease list, with the key order the dictionary
    keeps (insertion order).
   */
  datatype PlantIndex = PlantIndex(plants: seq<string>, diseases: map<string, seq<string>>)

  /**
    One step of the grouping loop: a row whose name has a ':' adds its plant
    as a new key if it is not one yet, and appends its disease to that key's list.
   */
  function GroupStep(index: PlantIndex, row: Row): PlantIndex
  {
    var name := row.diseaseName;
    if ':' !in name then index
    else
      var p := PlantOf(name);
      var known := p in index.diseases;
      PlantIndex(if known then index.plants else index.plants + [p],
                 index.diseases[p := (if known then index.diseases[p] else []) + [DiseaseOf(name)]])
  }

  /** What `get_all_diseases` returns for a table: the grouping loop run over every row. */
  function AllDiseases(rows: seq<Row>): PlantIndex
  {
    if rows == [] then PlantIndex([], map[])
    else GroupStep(AllDiseases(rows[..|rows| - 1]), rows[|rows| - 1])
  }

  /** The grouping's keys are its plants, each listed once. */
  lemma {:induction false} AllDiseasesWellFormed(rows: seq<Row>)
    ensures var index := AllDiseases(rows);
            (forall p :: p in index.plants <==> p in index.diseases) && Distinct(index.plants)
  {
    if rows != [] {
      AllDiseasesWellFormed(rows[..|rows| - 1]);
    }
  }

  /** The grouping of one more row of a table is one more loop step. */
  lemma AllDiseasesStep(rows: seq<Row>, i: nat)
    requires i < |rows|
    ensures AllDiseases(rows[..i + 1]) == GroupStep(AllDiseases(rows[..i]), rows[i])
  {
    assert rows[..i + 1][..i] == rows[..i];
  }

  /** The grouping stated outright: each plant of the table mapped to the diseases filed under it. */
  function Grouping(rows: seq<Row>): PlantIndex
  {
    var ps := PlantsIn(rows);
    PlantIndex(ps, map p | p in ps :: DiseasesOf(rows, p))
  }

  /** The row mentions the plant: its lower-cased name contains the lower-cased plant. */
  predicate Mentions(row: Row, plant: string)
  {
    Contains(Lower(row.diseaseName), Lower(plant))
  }

  /** What `get_diseases_for_plant` returns: the names that mention the plant, in row order. */
  function DiseasesForPlant(rows: seq<Row>, plant: string): seq<string>
  {
    if rows == [] then []
    else
      var last := rows[|rows| - 1];
      DiseasesForPlant(rows[..|rows| - 1], plant) + (if Mentions(last, plant) then [last.diseaseName] else [])
  }

  /** Total length of the lists of an index, summed over its keys. */
  function Listed(ps: seq<string>, diseases: map<string, seq<string>>): nat
  {
    if ps == [] then 0
    else Listed(ps[..|ps| - 1], diseases) + (if ps[|ps| - 1] in diseases then |diseases[ps[|ps| - 1]]| else 0)
  }

  /** `sorted(index.items())`: the entries in ascending plant order. */
  function SortedItems(index: PlantIndex): (r: seq<(string, seq<string>)>)
    requires forall p :: p in index.plants ==> p in index.diseases
    ensures |r| == |index.plants|
  {
    var keys := SortStrings(index.plants);
    assert forall i :: 0 <= i < |keys| ==> keys[i] in multiset(index.plants);
    seq(|keys|, i requires 0 <= i < |keys| => (keys[i], index.diseases[keys[i]]))
  }

  /** The listing shown for "list all diseases": plants in ascending order with their diseases. */
  function Catalogue(rows: seq<Row>): seq<(string, seq<string>)>
  {
    AllDiseasesWellFormed(rows);
    SortedItems(AllDiseases(rows))
  }

  // ---------------------------------------------------------------------
  // Lemmas

  lemma {:induction false} PlantsInMembers(rows: seq<Row>, p: string)
    ensures p in PlantsIn(rows) <==> exists i :: 0 <= i < |rows| && FiledUnder(rows[i], p)
    ensures p !in PlantsIn(rows) ==> DiseasesOf(rows, p) == []
  {
    if rows != [] {
      var prior := rows[..|rows| - 1];
      PlantsInMembers(prior, p);
      if exists i :: 0 <= i < |rows| && FiledUnder(rows[i], p) {
        var i :| 0 <= i < |rows| && FiledUnder(rows[i], p);
        if i < |rows| - 1 { assert prior[i] == rows[i]; }
      }
      if exists i :: 0 <= i < |prior| && FiledUnder(prior[i], p) {
        var i :| 0 <= i < |prior| && FiledUnder(prior[i], p);
        assert rows[i] == prior[i];
      }
    }
  }

  lemma {:induction false} PlantsInDistinct(rows: seq<Row>)
    ensures Distinct(PlantsIn(rows))
  {
    if rows != [] {
      PlantsInDistinct(rows[..|rows| - 1]);
    }
  }

  lemma MapsEqual(a: map<string, seq<string>>, b: map<string, seq<string>>)
    requires forall k :: k in a <==> k in b
    requires forall k :: k in a ==> a[k] == b[k]
    ensures a == b
  {
  }

  lemma PlantsInSnoc(rows: seq<Row>, row: Row)
    ensures var name := row.diseaseName;
            PlantsIn(rows + [row]) ==
              if ':' in name && PlantOf(name) !in PlantsIn(rows) then PlantsIn(rows) + [PlantOf(name)] else PlantsIn(rows)
  {
    assert (rows + [row])[..|rows|] == rows;
  }

  lemma DiseasesOfSnoc(rows: seq<Row>, row: Row, q: string)
    ensures DiseasesOf(rows + [row], q) ==
            DiseasesOf(rows, q) + (if FiledUnder(row, q) then [DiseaseOf(row.diseaseName)] else [])
  {
    assert (rows + [row])[..|rows|] == rows;
  }

  /** Adding one row to the table changes the grouping the way one loop step does. */
  lemma GroupingSnoc(rows: seq<Row>, row: Row)
    ensures Grouping(rows + [row]) == GroupStep(Grouping(rows), row)
  {
    PlantsInSnoc(rows, row);
    if ':' in row.diseaseName {
      GroupingSnocFiled(rows, row);
    } else {
      var ix, ix' := Grouping(rows), Grouping(rows + [row]);
      forall q | q in ix'.diseases ensures ix'.diseases[q] == ix.diseases[q] {
        DiseasesOfSnoc(rows, row, q);
      }
      MapsEqual(ix'.diseases, ix.diseases);
    }
  }

  lemma GroupingSnocFiled(rows: seq<Row>, row: Row)
    requires ':' in row.diseaseName
    ensures var ix := Grouping(rows);
            var p := PlantOf(row.diseaseName);
            var m := ix.diseases;
            Grouping(rows + [row]).diseases == m[p := (if p in m then m[p] else []) + [DiseaseOf(row.diseaseName)]]
  {
    var name := row.diseaseName;
    var ix, ix' := Grouping(rows), Grouping(rows + [row]);
    PlantsInSnoc(rows, row);
    var p := PlantOf(name);
    PlantsInMembers(rows, p);
    var m := ix.diseases;
    var expected := m[p := (if p in m then m[p] else []) + [DiseaseOf(name)]];
    assert ix'.plants == if p in ix.plants then ix.plants else ix.plants + [p];
    forall q ensures q in ix'.diseases <==> q in expected {
      assert q in ix'.diseases <==> q in ix'.plants;
      assert q in m <==> q in ix.plants;
    }
    forall q | q in ix'.diseases ensures ix'.diseases[q] == expected[q] {
      DiseasesOfSnoc(rows, row, q);
      if q == p {
        assert ix'.diseases[q] == DiseasesOf(rows, p) + [DiseaseOf(name)];
      } else {
        assert !FiledUnder(row, q);
        assert q in ix.plants;
      }
    }
    MapsEqual(ix'.diseases, expected);
  }

  /**
    The loop computes the grouping: its keys are the plants in order of first
    appearance, and each key's list holds the diseases filed under it, in row order.
   */
  lemma {:induction false} AllDiseasesIsGrouping(rows: seq<Row>)
    ensures AllDiseases(rows) == Grouping(rows)
  {
    if rows == [] {
      MapsEqual(Grouping(rows).diseases, map[]);
    } else {
      var n := |rows| - 1;
      AllDiseasesIsGrouping(rows[..n]);
      GroupingSnoc(rows[..n], rows[n]);
      assert rows[..n] + [rows[n]] == rows;
    }
  }

  /** `get_diseases_for_plant` keeps exactly the rows that mention the plant, once each, in row order. */
  lemma {:induction false} DiseasesForPlantRows(rows: seq<Row>, plant: string) returns (idx: seq<nat>)
    ensures |idx| == |DiseasesForPlant(rows, plant)|
    ensures forall j :: 0 <= j < |idx| ==>
              idx[j] < |rows| && DiseasesForPlant(rows, plant)[j] == rows[idx[j]].diseaseName
    ensures forall j, k :: 0 <= j < k < |idx| ==> idx[j] < idx[k]
    ensures forall i :: 0 <= i < |rows| ==> (i in idx <==> Mentions(rows[i], plant))
  {
    if rows == [] {
      idx := [];
    } else {
      var n := |rows| - 1;
      var prior := rows[..n];
      assert rows == prior + [rows[n]];
      var idx' := DiseasesForPlantRows(prior, plant);
      var r, r' := DiseasesForPlant(rows, plant), DiseasesForPlant(prior, plant);
      if Mentions(rows[n], plant) {
        assert r == r' + [rows[n].diseaseName];
        idx := idx' + [n];
        forall j | 0 <= j < |idx'| ensures idx[j] == idx'[j] && r[j] == r'[j] && rows[idx[j]] == prior[idx'[j]] {
        }
      } else {
        assert r == r';
        idx := idx';
        forall j | 0 <= j < |idx'| ensures rows[idx[j]] == prior[idx'[j]] {
        }
      }
      forall i | 0 <= i < n ensures (i in idx <==> i in idx') && rows[i] == prior[i] {
      }
    }
  }

  /** Positions of the rows filed under `p`, in row order. */
  function FiledPositions(rows: seq<Row>, p: string): (idx: seq<nat>)
    ensures forall j :: 0 <= j < |idx| ==> idx[j] < |rows|
  {
    if rows == [] then []
    else
      var n := |rows| - 1;
      FiledPositions(rows[..n], p) + (if FiledUnder(rows[n], p) then [n] else [])
  }

  lemma {:induction false} FiledPositionsValues(rows: seq<Row>, p: string)
    ensures var idx := FiledPositions(rows, p);
            |idx| == |DiseasesOf(rows, p)| &&
            forall j :: 0 <= j < |idx| ==>
              FiledUnder(rows[idx[j]], p) && DiseasesOf(rows, p)[j] == DiseaseOf(rows[idx[j]].diseaseName)
  {
    if rows != [] {
      var n := |rows| - 1;
      var prior := rows[..n];
      FiledPositionsValues(prior, p);
      var idx, idx' := FiledPositions(rows, p), FiledPositions(prior, p);
      var r, r' := DiseasesOf(rows, p), DiseasesOf(prior, p);
      forall j | 0 <= j < |idx'|
        ensures idx[j] == idx'[j] && r[j] == r'[j] && rows[idx[j]] == prior[idx'[j]]
      {
      }
    }
  }

  lemma {:induction false} FiledPositionsIncreasing(rows: seq<Row>, p: string)
    ensures forall j, k :: 0 <= j < k < |FiledPositions(rows, p)| ==> FiledPositions(rows, p)[j] < FiledPositions(rows, p)[k]
  {
    if rows != [] {
      var n := |rows| - 1;
      FiledPositionsIncreasing(rows[..n], p);
      var idx, idx' := FiledPositions(rows, p), FiledPositions(rows[..n], p);
      assert forall j :: 0 <= j < |idx'| ==> idx[j] == idx'[j] && idx'[j] < n;
    }
  }

  lemma {:induction false} FiledPositionsMembers(rows: seq<Row>, p: string)
    ensures var idx := FiledPositions(rows, p);
            forall i :: 0 <= i < |rows| ==> (i in idx <==> FiledUnder(rows[i], p))
  {
    if rows != [] {
      var n := |rows| - 1;
      var prior := rows[..n];
      FiledPositionsMembers(prior, p);
      var idx, idx' := FiledPositions(rows, p), FiledPositions(prior, p);
      forall i | 0 <= i < |rows| ensures i in idx <==> FiledUnder(rows[i], p) {
        if i < n {
          assert rows[i] == prior[i];
          assert i in idx <==> i in idx';
        }
      }
    }
  }

  /** Each list of the grouping holds the remainders of exactly the rows filed under its plant, in row order. */
  lemma DiseasesOfRows(rows: seq<Row>, p: string) returns (idx: seq<nat>)
    ensures |idx| == |DiseasesOf(rows, p)|
    ensures forall j :: 0 <= j < |idx| ==>
              idx[j] < |rows| && FiledUnder(rows[idx[j]], p) &&
              DiseasesOf(rows, p)[j] == DiseaseOf(rows[idx[j]].diseaseName)
    ensures forall j, k :: 0 <= j < k < |idx| ==> idx[j] < idx[k]
    ensures forall i :: 0 <= i < |rows| ==> (i in idx <==> FiledUnder(rows[i], p))
  {
    idx := FiledPositions(rows, p);
    FiledPositionsValues(rows, p);
    FiledPositionsIncreasing(rows, p);
    FiledPositionsMembers(rows, p);
  }

  /** The grouping's keys are exactly the plants of the rows with a ':', each once. */
  lemma AllDiseasesKeys(rows: seq<Row>, p: string)
    ensures var index := AllDiseases(rows);
            (p in index.plants <==> p in index.diseases) &&
            (p in index.plants <==> exists i :: 0 <= i < |rows| && FiledUnder(rows[i], p)) &&
            forall i, j :: 0 <= i < j < |index.plants| ==> index.plants[i] != index.plants[j]
  {
    AllDiseasesIsGrouping(rows);
    PlantsInMembers(rows, p);
    PlantsInDistinct(rows);
  }

  /** Growing the list of one key `p` by one entry grows the total over distinct `ps` by one when `p` is among them. */
  lemma {:induction false} ListedBump(ps: seq<string>, m: map<string, seq<string>>, m': map<string, seq<string>>, p: string)
    requires forall i, j :: 0 <= i < j < |ps| ==> ps[i] != ps[j]
    requires forall q :: q in ps && q != p ==> (q in m <==> q in m') && (q in m ==> |m[q]| == |m'[q]|)
    requires p in m' && |m'[p]| == (if p in m then |m[p]| else 0) + 1
    ensures Listed(ps, m') == Listed(ps, m) + (if p in ps then 1 else 0)
  {
    if ps != [] {
      var prior := ps[..|ps| - 1];
      ListedBump(prior, m, m', p);
      assert ps == prior + [ps[|ps| - 1]];
    }
  }

  lemma {:induction false} ListedSame(ps: seq<string>, m: map<string, seq<string>>, m': map<string, seq<string>>)
    requires forall p :: p in ps ==> (p in m <==> p in m') && (p in m ==> |m[p]| == |m'[p]|)
    ensures Listed(ps, m) == Listed(ps, m')
  {
    if ps != [] {
      ListedSame(ps[..|ps| - 1], m, m');
    }
  }

  /** Every row with a ':' contributes exactly one list entry: the lists' total length is the number of such rows. */
  lemma {:induction false} AllDiseasesTotal(rows: seq<Row>)
    ensures Listed(AllDiseases(rows).plants, AllDiseases(rows).diseases) == ColonRows(rows)
  {
    if rows != [] {
      var n := |rows| - 1;
      var prior := rows[..n];
      var row := rows[n];
      AllDiseasesTotal(prior);
      var ix := AllDiseases(prior);
      AllDiseasesWellFormed(prior);
      assert AllDiseases(rows) == GroupStep(ix, row);
      assert ColonRows(rows) == ColonRows(prior) + (if ':' in row.diseaseName then 1 else 0);
      if ':' in row.diseaseName {
        ListedStep(ix, row);
      }
    }
  }

  lemma ListedStep(ix: PlantIndex, row: Row)
    requires ':' in row.diseaseName
    requires forall p :: p in ix.plants <==> p in ix.diseases
    requires Distinct(ix.plants)
    ensures var ix' := GroupStep(ix, row);
            Listed(ix'.plants, ix'.diseases) == Listed(ix.plants, ix.diseases) + 1
  {
    var ix' := GroupStep(ix, row);
    var p := PlantOf(row.diseaseName);
    ListedBump(ix.plants, ix.diseases, ix'.diseases, p);
    if p !in ix.plants {
      assert ix'.plants == ix.plants + [p];
      assert (ix.plants + [p])[..|ix.plants|] == ix.plants;
    }
  }

  /** The catalogue's entries are the sorted plants, each with its list from the grouping. */
  lemma CatalogueEntries(rows: seq<Row>)
    ensures var c := Catalogue(rows);
            var index := AllDiseases(rows);
            var keys := SortStrings(index.plants);
            |c| == |keys| == |index.plants| &&
            forall i :: 0 <= i < |c| ==> keys[i] in index.diseases && c[i] == (keys[i], index.diseases[keys[i]])
  {
    var index := AllDiseases(rows);
    var keys := SortStrings(index.plants);
    var c := Catalogue(rows);
    AllDiseasesWellFormed(rows);
    assert c == SortedItems(index);
    forall i | 0 <= i < |c| ensures keys[i] in index.diseases && c[i] == (keys[i], index.diseases[keys[i]]) {
      assert keys[i] in multiset(index.plants);
    }
  }

  /**
    The catalogue lists every plant of the grouping once, in ascending order,
    each with its list from the grouping.
   */
  lemma CatalogueSpec(rows: seq<Row>)
    ensures var c := Catalogue(rows);
            var index := AllDiseases(rows);
            |c| == |index.plants| &&
            (forall i, j :: 0 <= i < j < |c| ==> StrLe(c[i].0, c[j].0) && c[i].0 != c[j].0) &&
            (forall i :: 0 <= i < |c| ==> c[i].0 in index.diseases && c[i].1 == index.diseases[c[i].0]) &&
            (forall p :: p in index.plants ==> exists i :: 0 <= i < |c| && c[i].0 == p)
  {
    var index := AllDiseases(rows);
    var keys := SortStrings(index.plants);
    var c := Catalogue(rows);
    CatalogueEntries(rows);
    AllDiseasesIsGrouping(rows);
    assert forall i :: 0 <= i < |c| ==> c[i].0 == keys[i];
    CatalogueOrdered(index.plants, keys, rows);
    SortedKeysCover(index.plants, keys);
  }

  lemma SortedKeysCover(plants: seq<string>, keys: seq<string>)
    requires keys == SortStrings(plants)
    ensures forall p :: p in plants ==> exists i :: 0 <= i < |keys| && keys[i] == p
  {
    forall p | p in plants ensures exists i :: 0 <= i < |keys| && keys[i] == p {
      assert p in multiset(keys);
    }
  }

  /** Sorting the distinct plants gives them in strictly ascending order. */
  lemma CatalogueOrdered(plants: seq<string>, keys: seq<string>, rows: seq<Row>)
    requires plants == PlantsIn(rows) && keys == SortStrings(plants)
    ensures forall i, j :: 0 <= i < j < |keys| ==> StrLe(keys[i], keys[j]) && keys[i] != keys[j]
  {
    SortStringsSorted(plants);
    PlantsInDistinct(rows);
    PermutationKeepsDistinct(plants, keys);
  }

  predicate Distinct(s: seq<string>)
  {
    forall i, j :: 0 <= i < j < |s| ==> s[i] != s[j]
  }

  lemma PermutationKeepsDistinct(s: seq<string>, t: seq<string>)
    requires Distinct(s) && multiset(t) == multiset(s)
    ensures Distinct(t)
  {
    forall i, j | 0 <= i < j < |t| ensures t[i] != t[j] {
      if t[i] == t[j] {
        TwiceCounted(t, i, j);
        DistinctOnce(s, t[i]);
      }
    }
  }

  lemma TwiceCounted(t: seq<string>, i: nat, j: nat)
    requires i < j < |t| && t[i] == t[j]
    ensures multiset(t)[t[i]] >= 2
  {
    assert t == t[..i] + [t[i]] + t[i + 1..j] + [t[j]] + t[j + 1..];
  }

  lemma {:induction false} DistinctOnce(s: seq<string>, x: string)
    requires Distinct(s)
    ensures multiset(s)[x] <= 1
  {
    if s != [] {
      var n := |s| - 1;
      DistinctOnce(s[..n], x);
      assert s == s[..n] + [s[n]];
      if s[n] == x {
        assert x !in s[..n];
      }
    }
  }
}
