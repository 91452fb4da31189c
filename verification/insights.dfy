/** The insights drawn from a ranked list (`generateCareerInsights`): the
    most frequent skills among the first five careers, the growth outlook of
    the first career, and the work environments of the first three. */
module Insights {
  import opened Text
  import opened StableSort
  import opened Ranking

  /** One entry of the skill tally: a skill and how often it occurs. */
  datatype SkillCount = SkillCount(skill: string, count: nat)

  datatype CareerInsights = CareerInsights(
    topSkillsToFocus: seq<string>,
    growthOutlook: string,
    workEnvironmentTypes: seq<string>)

  /** How many careers feed the skill tally and the work environments. */
  const SkillWindow: nat := 5
  const EnvironmentWindow: nat := 3
  /** How many skills are reported. */
  const TopSkillCount: nat := 5
  /** The outlook reported when the list is empty or the outlook is blank. */
  const DefaultOutlook: string := "Moderate"

  /** The skills of the careers of `recs`, concatenated in list order. */
  function SkillsOf(recs: seq<Recommendation>): (r: seq<string>)
    ensures forall s :: s in r <==> exists i :: 0 <= i < |recs| && s in recs[i].career.skills
  {
    if |recs| == 0 then []
    else
      var rest := SkillsOf(recs[1..]);
      assert forall i :: 0 < i < |recs| ==> recs[i] == recs[1..][i - 1];
      recs[0].career.skills + rest
  }

  /** The work environments of the careers of `recs` (`flatMap`). */
  function EnvironmentsOf(recs: seq<Recommendation>): (r: seq<string>)
    ensures forall s :: s in r <==> exists i :: 0 <= i < |recs| && s in recs[i].career.workEnvironment
  {
    if |recs| == 0 then []
    else
      var rest := EnvironmentsOf(recs[1..]);
      assert forall i :: 0 < i < |recs| ==> recs[i] == recs[1..][i - 1];
      recs[0].career.workEnvironment + rest
  }

  /** `flatMap` keeps the list order: the skills of a concatenation are the
      skills of each part, one after the other. */
  lemma {:induction false} SkillsOfAppend(a: seq<Recommendation>, b: seq<Recommendation>)
    ensures SkillsOf(a + b) == SkillsOf(a) + SkillsOf(b)
    decreases |a|
  {
    if |a| > 0 {
      assert (a + b)[1..] == a[1..] + b;
      SkillsOfAppend(a[1..], b);
    } else {
      assert a + b == b;
    }
  }

  /** One career contributes its skills in their listed order, repeats
      included. */
  lemma SkillsOfSingle(r: Recommendation)
    ensures SkillsOf([r]) == r.career.skills
  {
    assert SkillsOf([r][1..]) == [];
  }

  lemma {:induction false} EnvironmentsOfAppend(a: seq<Recommendation>, b: seq<Recommendation>)
    ensures EnvironmentsOf(a + b) == EnvironmentsOf(a) + EnvironmentsOf(b)
    decreases |a|
  {
    if |a| > 0 {
      assert (a + b)[1..] == a[1..] + b;
      EnvironmentsOfAppend(a[1..], b);
    } else {
      assert a + b == b;
    }
  }

  lemma EnvironmentsOfSingle(r: Recommendation)
    ensures EnvironmentsOf([r]) == r.career.workEnvironment
  {
    assert EnvironmentsOf([r][1..]) == [];
  }

  /** How often `s` occurs in `flat`. */
  function Occurrences(flat: seq<string>, s: string): nat
  {
    multiset(flat)[s]
  }

  /** The `Map` built by the counting loop, as its entries in insertion
      order: each distinct skill once, at its first occurrence, with its
      number of occurrences. */
  function Tally(flat: seq<string>): (t: seq<SkillCount>)
    ensures |t| == |Dedup(flat)|
    ensures forall i :: 0 <= i < |t| ==> t[i] == SkillCount(Dedup(flat)[i], Occurrences(flat, Dedup(flat)[i]))
  {
    var d := Dedup(flat);
    seq(|d|, i requires 0 <= i < |d| => SkillCount(d[i], Occurrences(flat, d[i])))
  }

  /** One pass of the counting loop, `map.set(s, (map.get(s) || 0) + 1)`,
      on the map's entries in insertion order: an existing key keeps its
      place and counts one more, a new key is appended with count 1. */
  function Bump(t: seq<SkillCount>, s: string): (u: seq<SkillCount>)
    ensures |u| == |t| || |u| == |t| + 1
  {
    if |t| == 0 then [SkillCount(s, 1)]
    else if t[0].skill == s then [SkillCount(s, t[0].count + 1)] + t[1..]
    else [t[0]] + Bump(t[1..], s)
  }

  /** The counting loop over `flat`, from an empty map. */
  function TallyLoop(flat: seq<string>): (t: seq<SkillCount>)
    ensures |t| <= |flat|
  {
    if |flat| == 0 then []
    else Bump(TallyLoop(flat[..|flat| - 1]), flat[|flat| - 1])
  }

  /** A key the map does not hold is appended with count 1. */
  lemma {:induction false} BumpNew(t: seq<SkillCount>, s: string)
    requires forall i :: 0 <= i < |t| ==> t[i].skill != s
    ensures Bump(t, s) == t + [SkillCount(s, 1)]
    decreases |t|
  {
    if |t| > 0 {
      BumpNew(t[1..], s);
    }
  }

  /** A key the map holds (once, at `k`) counts one more, in place. */
  lemma {:induction false} BumpExisting(t: seq<SkillCount>, s: string, k: nat)
    requires k < |t| && t[k].skill == s
    requires forall i :: 0 <= i < k ==> t[i].skill != s
    ensures Bump(t, s) == t[k := SkillCount(s, t[k].count + 1)]
    decreases k
  {
    if k > 0 {
      BumpExisting(t[1..], s, k - 1);
      assert [t[0]] + t[1..][k - 1 := SkillCount(s, t[k].count + 1)] == t[k := SkillCount(s, t[k].count + 1)];
    }
  }

  /** Occurrences in a list grown by one element. */
  lemma OccurrencesSnoc(init: seq<string>, x: string, y: string)
    ensures Occurrences(init + [x], y) == Occurrences(init, y) + (if y == x then 1 else 0)
  {
  }

  /** A skill not seen before adds an entry with count 1 at the end. */
  lemma TallySnocNew(init: seq<string>, x: string)
    requires x !in init
    ensures Tally(init + [x]) == Tally(init) + [SkillCount(x, 1)]
  {
    var flat := init + [x];
    assert flat[..|flat| - 1] == init;
    var d := Dedup(init);
    assert Dedup(flat) == d + [x];
    var t := Tally(init);
    var u := Tally(flat);
    forall i | 0 <= i < |t|
      ensures u[i] == t[i]
    {
      assert d[i] in d;
      OccurrencesSnoc(init, x, d[i]);
    }
    OccurrencesSnoc(init, x, x);
    assert u[|t|] == SkillCount(x, 1);
  }

  /** A skill seen before counts one more in its entry. */
  lemma TallySnocExisting(init: seq<string>, x: string)
    requires x in init
    ensures x in Dedup(init)
    ensures Tally(init + [x]) == Tally(init)[IndexOf(Dedup(init), x) := SkillCount(x, Tally(init)[IndexOf(Dedup(init), x)].count + 1)]
  {
    var flat := init + [x];
    assert flat[..|flat| - 1] == init;
    var d := Dedup(init);
    assert Dedup(flat) == d;
    var k := IndexOf(d, x);
    var t := Tally(init);
    var u := Tally(flat);
    DedupSpec(init);
    forall i | 0 <= i < |t|
      ensures u[i] == t[k := SkillCount(x, t[k].count + 1)][i]
    {
      OccurrencesSnoc(init, x, d[i]);
    }
  }

  /** The counting loop builds exactly the tally: each distinct skill once,
      in first-seen order, with its number of occurrences. */
  lemma {:induction false} TallyLoopIsTally(flat: seq<string>)
    ensures TallyLoop(flat) == Tally(flat)
    decreases |flat|
  {
    if |flat| > 0 {
      var init := flat[..|flat| - 1];
      var x := flat[|flat| - 1];
      assert flat == init + [x];
      TallyLoopIsTally(init);
      var t := Tally(init);
      var d := Dedup(init);
      if x in init {
        TallySnocExisting(init, x);
        var k := IndexOf(d, x);
        forall i | 0 <= i < k
          ensures t[i].skill != x
        {
          assert d[i] in d[..k];
        }
        BumpExisting(t, x, k);
      } else {
        forall i | 0 <= i < |t|
          ensures t[i].skill != x
        {
          assert d[i] in d;
        }
        BumpNew(t, x);
        TallySnocNew(init, x);
      }
    }
  }

  function CountKey(e: SkillCount): int
  {
    e.count
  }

  function Skills(entries: seq<SkillCount>): (r: seq<string>)
    ensures |r| == |entries|
    ensures forall i :: 0 <= i < |entries| ==> r[i] == entries[i].skill
  {
    seq(|entries|, i requires 0 <= i < |entries| => entries[i].skill)
  }

  /** Every entry of the tally records its skill's true count, and the
      tally holds every skill once. */
  lemma TallyFacts(flat: seq<string>)
    ensures forall e :: e in Tally(flat) ==> e.count == Occurrences(flat, e.skill) && e.skill in flat
    ensures forall s :: s in flat ==> SkillCount(s, Occurrences(flat, s)) in Tally(flat)
    ensures NoDup(Tally(flat))
  {
    DedupSpec(flat);
    var t := Tally(flat);
    var d := Dedup(flat);
    forall s | s in flat
      ensures SkillCount(s, Occurrences(flat, s)) in t
    {
      var k := IndexOf(d, s);
      assert t[k] == SkillCount(s, Occurrences(flat, s));
    }
    forall i, j | 0 <= i < j < |t|
      ensures t[i] != t[j]
    {
      assert t[i].skill == d[i] && t[j].skill == d[j];
    }
  }

  /** The tally sorted by count, highest first, ties in first-seen order. */
  function SortedTally(flat: seq<string>): (q: seq<SkillCount>)
    ensures multiset(q) == multiset(Tally(flat))
    ensures SortedDesc(q, CountKey)
    ensures Stable(Tally(flat), q, CountKey)
  {
    TallyLoopIsTally(flat);
    SortDesc(TallyLoop(flat), CountKey)
  }

  /** The skills of the sorted tally are pairwise different. */
  lemma SortedTallySkillsDistinct(flat: seq<string>)
    ensures NoDup(Skills(SortedTally(flat)))
    ensures forall e :: e in SortedTally(flat) ==> e.count == Occurrences(flat, e.skill) && e.skill in flat
  {
    var q := SortedTally(flat);
    TallyFacts(flat);
    PermutationKeepsNoDup(Tally(flat), q);
    forall e | e in q
      ensures e.count == Occurrences(flat, e.skill) && e.skill in flat
    {
      assert e in multiset(Tally(flat));
    }
    forall i, j | 0 <= i < j < |q|
      ensures q[i].skill != q[j].skill
    {
      assert q[i] in q && q[j] in q;
    }
  }

  /** `topSkillsToFocus`: the skills of the first five entries of the
      sorted tally; fewer when there are fewer distinct skills. */
  function TopSkills(flat: seq<string>): (r: seq<string>)
    ensures |r| == if |Dedup(flat)| < TopSkillCount then |Dedup(flat)| else TopSkillCount
    ensures forall i :: 0 <= i < |r| ==> r[i] == SortedTally(flat)[i].skill
  {
    Skills(Take(SortedTally(flat), TopSkillCount))
  }

  /** The reported skills are skills of `flat`, each reported once. */
  lemma TopSkillsDistinct(flat: seq<string>)
    ensures NoDup(TopSkills(flat))
    ensures forall s :: s in TopSkills(flat) ==> s in flat
  {
    var q := SortedTally(flat);
    var r := TopSkills(flat);
    SortedTallySkillsDistinct(flat);
    assert forall i :: 0 <= i < |r| ==> r[i] == Skills(q)[i] && q[i] in q;
  }

  /** Counts never increase along the reported skills. */
  lemma TopSkillsByFrequency(flat: seq<string>)
    ensures forall i, j :: 0 <= i < j < |TopSkills(flat)| ==> Occurrences(flat, TopSkills(flat)[i]) >= Occurrences(flat, TopSkills(flat)[j])
  {
    var q := SortedTally(flat);
    SortedTallySkillsDistinct(flat);
    assert forall i :: 0 <= i < |TopSkills(flat)| ==> q[i] in q;
  }

  /** No skill left out occurs more often than a skill that was reported. */
  lemma TopSkillsAreMostFrequent(flat: seq<string>, s: string, i: int)
    requires s in flat && s !in TopSkills(flat) && 0 <= i < |TopSkills(flat)|
    ensures Occurrences(flat, s) <= Occurrences(flat, TopSkills(flat)[i])
  {
    var q := SortedTally(flat);
    var r := TopSkills(flat);
    SortedTallySkillsDistinct(flat);
    TallyFacts(flat);
    var e := SkillCount(s, Occurrences(flat, s));
    assert e in multiset(q);
    var k :| 0 <= k < |q| && q[k] == e;
    assert k >= |r|;
    assert q[i] in q;
  }

  /** Skills with equal counts are reported in the order they were first
      seen. */
  lemma TopSkillTiesKeepFirstSeenOrder(flat: seq<string>, i: int, j: int)
    requires 0 <= i < j < |TopSkills(flat)|
    requires Occurrences(flat, TopSkills(flat)[i]) == Occurrences(flat, TopSkills(flat)[j])
    ensures TopSkills(flat)[i] in flat && TopSkills(flat)[j] in flat
    ensures IndexOf(flat, TopSkills(flat)[i]) < IndexOf(flat, TopSkills(flat)[j])
  {
    var t := Tally(flat);
    var q := SortedTally(flat);
    var d := Dedup(flat);
    var r := TopSkills(flat);
    TallyFacts(flat);
    SortedTallySkillsDistinct(flat);
    DedupSpec(flat);
    assert r[i] == q[i].skill && r[j] == q[j].skill;
    assert q[i] in q && q[j] in q;
    StableTiesKeepOrder(t, q, CountKey, i, j);
    var a := IndexOf(t, q[i]);
    var b := IndexOf(t, q[j]);
    assert t[a].skill == d[a] && t[b].skill == d[b];
  }

  /** `growthOutlook`: the first career's outlook, or the default when the
      list is empty or that outlook is the empty string (`||`). */
  function GrowthOutlook(recs: seq<Recommendation>): (r: string)
    ensures r != ""
    ensures |recs| > 0 && recs[0].career.growthOutlook != "" ==> r == recs[0].career.growthOutlook
    ensures |recs| == 0 || recs[0].career.growthOutlook == "" ==> r == DefaultOutlook
  {
    if |recs| > 0 && recs[0].career.growthOutlook != "" then recs[0].career.growthOutlook
    else DefaultOutlook
  }

  /** `workEnvironmentTypes`: the environments of the first three careers,
      each once, in order of first mention. */
  function WorkEnvironments(recs: seq<Recommendation>): (r: seq<string>)
    ensures NoDup(r)
    ensures forall s :: s in r <==> exists i :: 0 <= i < |recs| && i < EnvironmentWindow && s in recs[i].career.workEnvironment
    ensures forall s :: s in r <==> s in EnvironmentsOf(Take(recs, EnvironmentWindow))
    ensures forall i, j :: 0 <= i < j < |r| ==> IndexOf(EnvironmentsOf(Take(recs, EnvironmentWindow)), r[i]) < IndexOf(EnvironmentsOf(Take(recs, EnvironmentWindow)), r[j])
  {
    var top := Take(recs, EnvironmentWindow);
    DedupSpec(EnvironmentsOf(top));
    assert forall i :: 0 <= i < |top| ==> top[i] == recs[i];
    Dedup(EnvironmentsOf(top))
  }

  /** `generateCareerInsights`. */
  function GenerateCareerInsights(recs: seq<Recommendation>): (r: CareerInsights)
    ensures |r.topSkillsToFocus| <= TopSkillCount
    ensures NoDup(r.topSkillsToFocus)
    ensures forall s :: s in r.topSkillsToFocus ==> exists i :: 0 <= i < |recs| && i < SkillWindow && s in recs[i].career.skills
    ensures r.growthOutlook != ""
    ensures NoDup(r.workEnvironmentTypes)
  {
    var top := Take(recs, SkillWindow);
    var skills := TopSkills(SkillsOf(top));
    TopSkillsDistinct(SkillsOf(top));
    assert forall i :: 0 <= i < |top| ==> top[i] == recs[i];
    CareerInsights(skills, GrowthOutlook(recs), WorkEnvironments(recs))
  }
}
