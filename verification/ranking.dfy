/** Ranking the catalog for one profile (`getCareerRecommendations`): every
    career is scored, its score rounded with `Math.round`, and the list is
    sorted by rounded score, highest first, with ties left in catalog order. */
module Ranking {
  import opened Text
  import opened JsMath
  import opened CareerData
  import opened Compatibility
  import opened StableSort

  /** One entry of the recommendation list. */
  datatype Recommendation = Recommendation(career: Career, compatibilityScore: int, reasons: seq<string>)

  /** The sort key of the recommendation list. */
  function Score(r: Recommendation): int
  {
    r.compatibilityScore
  }

  /** The best possible rounded score: the four weights add up to 90. */
  const MaxScore: int := 90

  /** One career scored for one profile, the score rounded to an integer. */
  function Recommend(profile: UserProfile, career: Career): (r: Recommendation)
    ensures r.career == career
    ensures 0 <= r.compatibilityScore <= MaxScore
    ensures CalculateCompatibility(profile, career).score - 0.5 < r.compatibilityScore as real
    ensures r.compatibilityScore as real <= CalculateCompatibility(profile, career).score + 0.5
    ensures r.reasons == CalculateCompatibility(profile, career).reasons
  {
    var c := CalculateCompatibility(profile, career);
    RoundWithin(c.score, 0, MaxScore);
    Recommendation(career, Round(c.score), c.reasons)
  }

  /** Two recommendations for the same profile coincide exactly when their
      careers do. */
  lemma RecommendInjective(profile: UserProfile, a: Career, b: Career)
    ensures Recommend(profile, a) == Recommend(profile, b) <==> a == b
  {
  }

  /** `careers.map(...)`: the catalog scored in catalog order. */
  function ScoreAll(profile: UserProfile, catalog: seq<Career>): (r: seq<Recommendation>)
    ensures |r| == |catalog|
    ensures forall i :: 0 <= i < |catalog| ==> r[i] == Recommend(profile, catalog[i])
  {
    seq(|catalog|, i requires 0 <= i < |catalog| => Recommend(profile, catalog[i]))
  }

  /** Scoring keeps the number of copies of each career. */
  lemma ScoreAllCounts(profile: UserProfile, catalog: seq<Career>, c: Career)
    ensures multiset(ScoreAll(profile, catalog))[Recommend(profile, c)] == multiset(catalog)[c]
  {
    var f := (d: Career) => Recommend(profile, d);
    forall b | f(b) == f(c)
      ensures b == c
    {
      RecommendInjective(profile, b, c);
    }
    MapCount(catalog, ScoreAll(profile, catalog), f, c);
  }

  /** Scoring a duplicate-free catalog gives a duplicate-free list, and each
      recommendation sits where its career sits in the catalog. */
  lemma ScoreAllPositions(profile: UserProfile, catalog: seq<Career>, c: Career)
    requires NoDup(catalog) && c in catalog
    ensures Recommend(profile, c) in ScoreAll(profile, catalog)
    ensures IndexOf(ScoreAll(profile, catalog), Recommend(profile, c)) == IndexOf(catalog, c)
  {
    var s := ScoreAll(profile, catalog);
    var k := IndexOf(catalog, c);
    assert s[k] == Recommend(profile, c);
    var j := IndexOf(s, Recommend(profile, c));
    RecommendInjective(profile, catalog[j], c);
  }

  lemma ScoreAllNoDup(profile: UserProfile, catalog: seq<Career>)
    requires NoDup(catalog)
    ensures NoDup(ScoreAll(profile, catalog))
  {
    var s := ScoreAll(profile, catalog);
    forall i, j | 0 <= i < j < |s|
      ensures s[i] != s[j]
    {
      RecommendInjective(profile, catalog[i], catalog[j]);
    }
  }

  /** Every entry of a permutation of the scored catalog is the scored
      form of a catalog career. */
  lemma PermutedEntries(profile: UserProfile, catalog: seq<Career>, r: seq<Recommendation>)
    requires multiset(r) == multiset(ScoreAll(profile, catalog))
    ensures forall i :: 0 <= i < |r| ==> r[i].career in catalog && r[i] == Recommend(profile, r[i].career)
    ensures forall c :: c in catalog ==> Recommend(profile, c) in r
    ensures forall c :: multiset(r)[Recommend(profile, c)] == multiset(catalog)[c]
  {
    var s := ScoreAll(profile, catalog);
    forall i | 0 <= i < |r|
      ensures r[i].career in catalog && r[i] == Recommend(profile, r[i].career)
    {
      assert r[i] in multiset(s);
      var k :| 0 <= k < |s| && s[k] == r[i];
    }
    forall c
      ensures multiset(r)[Recommend(profile, c)] == multiset(catalog)[c]
    {
      ScoreAllCounts(profile, catalog, c);
    }
    forall c | c in catalog
      ensures Recommend(profile, c) in r
    {
      assert multiset(r)[Recommend(profile, c)] > 0;
    }
  }

  /** The head of a sorted permutation of the scored catalog has the best
      score in the catalog. */
  lemma SortedHeadIsBest(profile: UserProfile, catalog: seq<Career>, r: seq<Recommendation>)
    requires multiset(r) == multiset(ScoreAll(profile, catalog)) && SortedDesc(r, Score)
    ensures |r| > 0 ==> forall c :: c in catalog ==> r[0].compatibilityScore >= Recommend(profile, c).compatibilityScore
  {
    PermutedEntries(profile, catalog, r);
    forall c | c in catalog && |r| > 0
      ensures r[0].compatibilityScore >= Recommend(profile, c).compatibilityScore
    {
      SortedHeadIsMax(r, Score, Recommend(profile, c));
    }
  }

  /** The ranked list: each career of the catalog appears exactly as often
      as in the catalog, scored for the profile; the list is ordered by
      score, highest first; equal scores keep their catalog order; and the
      head carries the best score of the catalog. */
  function Rank(profile: UserProfile, catalog: seq<Career>): (r: seq<Recommendation>)
    ensures |r| == |catalog|
    ensures forall i :: 0 <= i < |r| ==> r[i].career in catalog && r[i] == Recommend(profile, r[i].career)
    ensures forall c :: c in catalog ==> Recommend(profile, c) in r
    ensures forall c :: multiset(r)[Recommend(profile, c)] == multiset(catalog)[c]
    ensures SortedDesc(r, Score)
    ensures Stable(ScoreAll(profile, catalog), r, Score)
    ensures forall i :: 0 <= i < |r| ==> 0 <= r[i].compatibilityScore <= MaxScore
    ensures |r| > 0 ==> forall c :: c in catalog ==> r[0].compatibilityScore >= Recommend(profile, c).compatibilityScore
  {
    var r := SortDesc(ScoreAll(profile, catalog), Score);
    PermutedEntries(profile, catalog, r);
    SortedHeadIsBest(profile, catalog, r);
    r
  }

  /** Any list that is sorted by score and keeps ties in catalog order is
      the ranked list: the stable sort leaves no freedom. */
  lemma RankIsTheOnlyStableOrder(profile: UserProfile, catalog: seq<Career>, other: seq<Recommendation>)
    requires SortedDesc(other, Score) && Stable(ScoreAll(profile, catalog), other, Score)
    ensures other == Rank(profile, catalog)
  {
    StableSortUnique(other, Rank(profile, catalog), Score);
  }

  /** Careers with equal rounded scores appear in catalog order. */
  lemma RankTiesKeepCatalogOrder(profile: UserProfile, catalog: seq<Career>, i: int, j: int)
    requires NoDup(catalog)
    requires 0 <= i < j < |catalog|
    requires Rank(profile, catalog)[i].compatibilityScore == Rank(profile, catalog)[j].compatibilityScore
    ensures IndexOf(catalog, Rank(profile, catalog)[i].career) < IndexOf(catalog, Rank(profile, catalog)[j].career)
  {
    var s := ScoreAll(profile, catalog);
    var r := Rank(profile, catalog);
    ScoreAllNoDup(profile, catalog);
    ScoreAllPositions(profile, catalog, r[i].career);
    ScoreAllPositions(profile, catalog, r[j].career);
    StableTiesKeepOrder(s, r, Score, i, j);
  }

  /** `getCareerRecommendations`: the whole catalog, ranked. */
  function GetCareerRecommendations(profile: UserProfile): (r: seq<Recommendation>)
    ensures |r| == |Careers|
    ensures forall c :: c in Careers ==> Recommend(profile, c) in r
    ensures SortedDesc(r, Score)
  {
    Rank(profile, Careers)
  }
}
