/** The category analysis (`getCareerCategoryAnalysis`): five fixed
    categories, each scored as the rounded mean of the scores of the
    recommendations whose title mentions one of its keywords, then sorted by
    score, highest first, ties in taxonomy order. */
module Categories {
  import opened Text
  import opened JsMath
  import opened StableSort
  import opened Ranking

  datatype Category = Category(name: string, keywords: seq<string>)

  /** One row of the analysis. */
  datatype CategoryScore = CategoryScore(category: string, score: int)

  const Technology: Category := Category("Technology", ["software", "data", "cybersecurity", "engineer", "developer"])
  const Business: Category := Category("Business", ["marketing", "financial", "product", "manager", "business"])
  const Healthcare: Category := Category("Healthcare", ["healthcare", "medical", "health", "clinical"])
  const Creative: Category := Category("Creative", ["design", "ux", "ui", "creative", "artist"])
  const Sciences: Category := Category("Sciences", ["scientist", "research", "environmental", "biology", "chemistry"])

  const Taxonomy: seq<Category> := [Technology, Business, Healthcare, Creative, Sciences]

  /** The names of the taxonomy are pairwise different. */
  lemma TaxonomyNamesDistinct()
    ensures forall i, j :: 0 <= i < j < |Taxonomy| ==> Taxonomy[i].name != Taxonomy[j].name
  {
  }

  /** Some keyword, lower-cased, occurs in `title`. */
  predicate MentionsSome(title: string, keywords: seq<string>)
    ensures MentionsSome(title, keywords) <==> exists k :: k in keywords && Contains(title, Lower(k))
  {
    if |keywords| == 0 then false
    else Contains(title, Lower(keywords[0])) || MentionsSome(title, keywords[1..])
  }

  /** A recommendation belongs to a category when its lower-cased career
      title contains one of the category's keywords. */
  predicate InCategory(rec: Recommendation, cat: Category)
    ensures InCategory(rec, cat) <==> exists kw :: kw in cat.keywords && IsSubstring(Lower(kw), Lower(rec.career.title))
  {
    assert forall kw :: Contains(Lower(rec.career.title), Lower(kw)) <==> IsSubstring(Lower(kw), Lower(rec.career.title)) by {
      forall kw {
        ContainsIffSubstring(Lower(rec.career.title), Lower(kw));
      }
    }
    MentionsSome(Lower(rec.career.title), cat.keywords)
  }

  /** The recommendations of a category, in list order. */
  function Members(recs: seq<Recommendation>, cat: Category): (m: seq<Recommendation>)
    ensures |m| <= |recs|
    ensures forall rec :: rec in m <==> rec in recs && InCategory(rec, cat)
  {
    Filter(recs, rec => InCategory(rec, cat))
  }

  /** `reduce((sum, rec) => sum + rec.compatibilityScore, 0)`. */
  function SumScores(recs: seq<Recommendation>): (r: int)
    ensures (forall rec :: rec in recs ==> 0 <= rec.compatibilityScore) ==> 0 <= r
  {
    if |recs| == 0 then 0
    else
      assert recs[0] in recs;
      recs[0].compatibilityScore + SumScores(recs[1..])
  }

  /** The sum is the left-to-right fold of `reduce`: the sum of all but the
      last, plus the last. */
  lemma {:induction false} SumScoresLeftFold(recs: seq<Recommendation>)
    requires |recs| > 0
    ensures SumScores(recs) == SumScores(recs[..|recs| - 1]) + recs[|recs| - 1].compatibilityScore
    decreases |recs|
  {
    if |recs| > 1 {
      SumScoresLeftFold(recs[1..]);
      assert recs[..|recs| - 1][1..] == recs[1..][..|recs| - 2];
    }
  }

  /** The sum lies between the count times a lower bound and the count times
      an upper bound of the scores. */
  lemma {:induction false} SumScoresBounds(recs: seq<Recommendation>, lo: int, hi: int)
    requires forall rec :: rec in recs ==> lo <= rec.compatibilityScore <= hi
    ensures |recs| * lo <= SumScores(recs) <= |recs| * hi
  {
    if |recs| > 0 {
      var n := |recs| - 1;
      assert recs[0] in recs;
      SumScoresBounds(recs[1..], lo, hi);
      MulSucc(n, lo);
      MulSucc(n, hi);
    }
  }

  lemma MulSucc(n: int, x: int)
    ensures (n + 1) * x == n * x + x
  {
  }

  /** A quotient of a value between `n * lo` and `n * hi` by `n` lies
      between `lo` and `hi`. */
  lemma QuotientBetween(s: real, n: real, lo: real, hi: real)
    requires n > 0.0 && n * lo <= s <= n * hi
    ensures lo <= s / n <= hi
  {
    assert s / n * n == s;
  }

  /** The rounded mean score, 0 for an empty list (the `length > 0` guard). */
  function RoundedMean(recs: seq<Recommendation>): (r: int)
    ensures |recs| == 0 ==> r == 0
  {
    if |recs| > 0 then Round(SumScores(recs) as real / |recs| as real) else 0
  }

  /** The rounded mean of a non-empty list stays within any bounds of its
      scores. */
  lemma RoundedMeanWithin(recs: seq<Recommendation>, lo: int, hi: int)
    requires |recs| > 0
    requires forall rec :: rec in recs ==> lo <= rec.compatibilityScore <= hi
    ensures lo <= RoundedMean(recs) <= hi
  {
    var sum := SumScores(recs);
    SumScoresBounds(recs, lo, hi);
    MeanBetween(sum, |recs|, lo, hi);
    RoundWithin(sum as real / |recs| as real, lo, hi);
  }

  /** The mean of `k` values whose sum lies between `k * lo` and `k * hi`
      lies between `lo` and `hi`. */
  lemma MeanBetween(sum: int, k: nat, lo: int, hi: int)
    requires k > 0 && k * lo <= sum <= k * hi
    ensures lo as real <= sum as real / k as real <= hi as real
  {
    var n := k as real;
    assert n * lo as real <= sum as real <= n * hi as real;
    QuotientBetween(sum as real, n, lo as real, hi as real);
  }

  /** Every score lies in the range a recommendation can have. */
  predicate ScoresInRange(recs: seq<Recommendation>)
  {
    forall rec :: rec in recs ==> 0 <= rec.compatibilityScore <= MaxScore
  }

  /** The score of one category. */
  function ScoreCategory(recs: seq<Recommendation>, cat: Category): (r: CategoryScore)
    ensures r.category == cat.name
    ensures |Members(recs, cat)| == 0 ==> r.score == 0
    ensures ScoresInRange(recs) ==> 0 <= r.score <= MaxScore
  {
    var m := Members(recs, cat);
    var r := CategoryScore(cat.name, RoundedMean(m));
    assert ScoresInRange(recs) ==> 0 <= r.score <= MaxScore by {
      if ScoresInRange(recs) && |m| > 0 {
        RoundedMeanWithin(m, 0, MaxScore);
      }
    }
    r
  }

  /** The sort key of the analysis. */
  function CategoryKey(c: CategoryScore): int
  {
    c.score
  }

  /** The taxonomy scored in taxonomy order, before sorting. */
  function ScoreTaxonomy(recs: seq<Recommendation>): (r: seq<CategoryScore>)
    ensures |r| == |Taxonomy|
    ensures forall i :: 0 <= i < |Taxonomy| ==> r[i] == ScoreCategory(recs, Taxonomy[i])
  {
    seq(|Taxonomy|, i requires 0 <= i < |Taxonomy| => ScoreCategory(recs, Taxonomy[i]))
  }

  /** `getCareerCategoryAnalysis`: one row per category of the taxonomy,
      ordered by score, highest first, equal scores in taxonomy order, and
      within the score range whenever the recommendations are. */
  function CategoryAnalysis(recs: seq<Recommendation>): (r: seq<CategoryScore>)
    ensures |r| == |Taxonomy|
    ensures forall cat :: cat in Taxonomy ==> ScoreCategory(recs, cat) in r
    ensures forall i :: 0 <= i < |r| ==> r[i] in ScoreTaxonomy(recs)
    ensures SortedDesc(r, CategoryKey)
    ensures Stable(ScoreTaxonomy(recs), r, CategoryKey)
    ensures ScoresInRange(recs) ==> forall i :: 0 <= i < |r| ==> 0 <= r[i].score <= MaxScore
  {
    var t := ScoreTaxonomy(recs);
    var r := SortDesc(t, CategoryKey);
    forall cat | cat in Taxonomy
      ensures ScoreCategory(recs, cat) in r
    {
      var k :| 0 <= k < |Taxonomy| && Taxonomy[k] == cat;
      assert t[k] in multiset(r);
    }
    forall i | 0 <= i < |r|
      ensures r[i] in t
    {
      assert r[i] in multiset(t);
    }
    r
  }

  /** The scored taxonomy has no repeated row, since the names differ. */
  lemma ScoreTaxonomyNoDup(recs: seq<Recommendation>)
    ensures NoDup(ScoreTaxonomy(recs))
  {
    TaxonomyNamesDistinct();
  }

  /** Categories with equal scores keep their taxonomy order. */
  lemma AnalysisTiesKeepTaxonomyOrder(recs: seq<Recommendation>, i: int, j: int)
    requires 0 <= i < j < |Taxonomy|
    requires CategoryAnalysis(recs)[i].score == CategoryAnalysis(recs)[j].score
    ensures IndexOf(ScoreTaxonomy(recs), CategoryAnalysis(recs)[i]) < IndexOf(ScoreTaxonomy(recs), CategoryAnalysis(recs)[j])
  {
    ScoreTaxonomyNoDup(recs);
    StableTiesKeepOrder(ScoreTaxonomy(recs), CategoryAnalysis(recs), CategoryKey, i, j);
  }

  /** When every recommendation has the same score, every category with a
      member has exactly that score. */
  lemma UniformScoresGiveUniformCategories(recs: seq<Recommendation>, cat: Category, v: int)
    requires forall rec :: rec in recs ==> rec.compatibilityScore == v
    requires |Members(recs, cat)| > 0
    ensures ScoreCategory(recs, cat).score == v
  {
    RoundedMeanWithin(Members(recs, cat), v, v);
  }
}
