/** Facts about the fixed catalog and the vocabularies of the profile form,
    and worked examples of the engine on them. */
module CatalogFacts {
  import opened Text
  import opened CareerData
  import opened Compatibility
  import opened Ranking
  import opened Categories

  /** The outlooks the catalog uses. */
  const Outlooks: set<string> := {"Very High", "High", "Moderate"}

  /** Ten careers with distinct ids, so the catalog has no repeated entry
      and ties in the ranking are ordered by a well-defined catalog order. */
  lemma CatalogIdsDistinct()
    ensures |Careers| == 10
    ensures forall i, j :: 0 <= i < j < |Careers| ==> Careers[i].id != Careers[j].id
    ensures NoDup(Careers)
  {
  }

  /** Every career lists five skills and three work environments. */
  lemma CatalogSkillCounts()
    ensures forall c :: c in Careers ==> |c.skills| == 5 && |c.workEnvironment| == 3
  {
  }

  /** Every outlook is one of the three used, so never blank. */
  lemma CatalogOutlooks()
    ensures forall c :: c in Careers ==> c.growthOutlook in Outlooks && c.growthOutlook != ""
  {
  }

  /** Minimum GPAs lie between 2.7 and 3.2 on the 4.0 scale. */
  lemma CatalogMinimumGpas()
    ensures forall c :: c in Careers ==> 2.7 <= c.academicReqs.minGPA <= 3.2
  {
  }

  /** Twenty distinct skills. */
  lemma SkillsListDistinct()
    ensures |SkillsList| == 20 && NoDup(SkillsList)
  {
  }

  /** Twenty distinct interests. */
  lemma InterestsListDistinct()
    ensures |InterestsList| == 20 && NoDup(InterestsList)
  {
  }

  /** Twenty distinct academic subjects. */
  lemma AcademicSubjectsDistinct()
    ensures |AcademicSubjects| == 20 && NoDup(AcademicSubjects)
  {
  }

  /** The data scientist belongs to two categories: "data" puts it in
      Technology and "scientist" in Sciences. */
  lemma DataScientistCategories(profile: UserProfile)
    ensures InCategory(Recommend(profile, DataScientist), Technology)
    ensures InCategory(Recommend(profile, DataScientist), Sciences)
  {
    var title := "data scientist";
    assert Lower(DataScientist.title) == title;
    TitleMentionsData(title);
    TitleMentionsScientist(title);
  }

  lemma TitleMentionsData(title: string)
    requires title == "data scientist"
    ensures MentionsSome(title, Technology.keywords)
  {
    assert Lower("data") == "data";
    assert "data" <= title;
    assert Contains(title, "data");
  }

  lemma TitleMentionsScientist(title: string)
    requires title == "data scientist"
    ensures MentionsSome(title, Sciences.keywords)
  {
    assert Lower("scientist") == "scientist";
    assert title[5..14] == "scientist";
    assert OccursAt(title, "scientist", 5);
    ContainsIffSubstring(title, "scientist");
  }
}
