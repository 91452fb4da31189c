/** A worked example of the engine: a programming-minded student scored
    against the software engineer and the HR specialist of the catalog,
    and where the HR specialist lands in the category chart. */
module WorkedExample {
  import opened Text
  import opened CareerData
  import opened Compatibility
  import opened Ranking
  import opened StableSort
  import Categories

  /** A 3.5 student who picked two programming skills, an interest in
      technology and computer science as subject. */
  const SampleProfile: UserProfile :=
    UserProfile(3.5, ["Programming", "Problem Solving"], ["Technology"], ["Computer Science"], [])

  /** Every selected term of the sample matches the same term of the
      software engineer. */
  lemma EngineerMatchesEverything(p: UserProfile, se: Career)
    requires p == SampleProfile && se == SoftwareEngineer
    ensures forall a :: a in p.skills ==> MatchesSome(a, se.skills)
    ensures forall a :: a in p.interests ==> MatchesSome(a, se.interests)
    ensures forall a :: a in p.academicSubjects ==> MatchesSome(a, se.academicReqs.preferredSubjects)
  {
    forall a | a in p.skills + p.interests + p.academicSubjects
      ensures TermsMatch(a, a)
    {
      TermsMatchSymmetricReflexive(a, a);
    }
  }

  /** The sample scores the maximum of 90 against the software engineer:
      both skills, the interest and the subject all match, and 3.5 meets
      the 3.0 minimum. */
  lemma EngineerScoresNinety(p: UserProfile, se: Career)
    requires p == SampleProfile && se == SoftwareEngineer
    ensures CalculateCompatibility(p, se).score == 90.0
    ensures Recommend(p, se).compatibilityScore == 90
  {
    EngineerMatchesEverything(p, se);
    FullMatchScoresMaximum(p, se);
  }

  // Lower-cased forms of the terms the example compares.

  lemma LowerProgramming() ensures Lower("Programming") == "programming" {}
  lemma LowerProblemSolving() ensures Lower("Problem Solving") == "problem solving" {}
  lemma LowerTechnology() ensures Lower("Technology") == "technology" {}
  lemma LowerComputerScience() ensures Lower("Computer Science") == "computer science" {}
  lemma LowerPeopleManagement() ensures Lower("People Management") == "people management" {}
  lemma LowerCommunication() ensures Lower("Communication") == "communication" {}
  lemma LowerOrganization() ensures Lower("Organization") == "organization" {}
  lemma LowerPolicyKnowledge() ensures Lower("Policy Knowledge") == "policy knowledge" {}
  lemma LowerConflictResolution() ensures Lower("Conflict Resolution") == "conflict resolution" {}
  lemma LowerHumanResources() ensures Lower("Human Resources") == "human resources" {}
  lemma LowerPsychology() ensures Lower("Psychology") == "psychology" {}
  lemma LowerBusiness() ensures Lower("Business") == "business" {}
  lemma LowerPeople() ensures Lower("People") == "people" {}

  /** Two terms each holding a letter the other lacks (after lower-casing)
      do not match: neither occurs in the other. */
  lemma LettersKeepApart(a: string, b: string, la: string, lb: string, x: char, y: char)
    requires Lower(a) == la && Lower(b) == lb
    requires x in la && x !in lb && y in lb && y !in la
    ensures !TermsMatch(a, b)
  {
    NotContainsMissingChar(lb, la, x);
    NotContainsMissingChar(la, lb, y);
  }

  // "Programming" against each of the HR specialist's skills.
  lemma ProgrammingVsPeopleManagement() ensures !TermsMatch("Programming", "People Management")
  {
    LowerProgramming();
    LowerPeopleManagement();
    LettersKeepApart("Programming", "People Management", "programming", "people management", 'r', 'e');
  }
  lemma ProgrammingVsCommunication() ensures !TermsMatch("Programming", "Communication")
  {
    LowerProgramming();
    LowerCommunication();
    LettersKeepApart("Programming", "Communication", "programming", "communication", 'p', 'c');
  }
  lemma ProgrammingVsOrganization() ensures !TermsMatch("Programming", "Organization")
  {
    LowerProgramming();
    LowerOrganization();
    LettersKeepApart("Programming", "Organization", "programming", "organization", 'p', 'z');
  }
  lemma ProgrammingVsPolicyKnowledge() ensures !TermsMatch("Programming", "Policy Knowledge")
  {
    LowerProgramming();
    LowerPolicyKnowledge();
    LettersKeepApart("Programming", "Policy Knowledge", "programming", "policy knowledge", 'r', 'l');
  }
  lemma ProgrammingVsConflictResolution() ensures !TermsMatch("Programming", "Conflict Resolution")
  {
    LowerProgramming();
    LowerConflictResolution();
    LettersKeepApart("Programming", "Conflict Resolution", "programming", "conflict resolution", 'p', 'c');
  }

  /** "Programming" matches none of the HR specialist's skills. */
  lemma ProgrammingMissesHrSkills()
    ensures !MatchesSome("Programming", HrSpecialist.skills)
  {
    ProgrammingVsPeopleManagement();
    ProgrammingVsCommunication();
    ProgrammingVsOrganization();
    ProgrammingVsPolicyKnowledge();
    ProgrammingVsConflictResolution();
  }

  // "Problem Solving" against each of the HR specialist's skills.
  lemma ProblemSolvingVsPeopleManagement() ensures !TermsMatch("Problem Solving", "People Management")
  {
    LowerProblemSolving();
    LowerPeopleManagement();
    LettersKeepApart("Problem Solving", "People Management", "problem solving", "people management", 'r', 'a');
  }
  lemma ProblemSolvingVsCommunication() ensures !TermsMatch("Problem Solving", "Communication")
  {
    LowerProblemSolving();
    LowerCommunication();
    LettersKeepApart("Problem Solving", "Communication", "problem solving", "communication", 'p', 'c');
  }
  lemma ProblemSolvingVsOrganization() ensures !TermsMatch("Problem Solving", "Organization")
  {
    LowerProblemSolving();
    LowerOrganization();
    LettersKeepApart("Problem Solving", "Organization", "problem solving", "organization", 'p', 'a');
  }
  lemma ProblemSolvingVsPolicyKnowledge() ensures !TermsMatch("Problem Solving", "Policy Knowledge")
  {
    LowerProblemSolving();
    LowerPolicyKnowledge();
    LettersKeepApart("Problem Solving", "Policy Knowledge", "problem solving", "policy knowledge", 'r', 'c');
  }
  lemma ProblemSolvingVsConflictResolution() ensures !TermsMatch("Problem Solving", "Conflict Resolution")
  {
    LowerProblemSolving();
    LowerConflictResolution();
    LettersKeepApart("Problem Solving", "Conflict Resolution", "problem solving", "conflict resolution", 'p', 'c');
  }

  /** "Problem Solving" matches none of the HR specialist's skills. */
  lemma ProblemSolvingMissesHrSkills()
    ensures !MatchesSome("Problem Solving", HrSpecialist.skills)
  {
    ProblemSolvingVsPeopleManagement();
    ProblemSolvingVsCommunication();
    ProblemSolvingVsOrganization();
    ProblemSolvingVsPolicyKnowledge();
    ProblemSolvingVsConflictResolution();
  }

  // "Technology" against each of the HR specialist's interests.
  lemma TechnologyVsHumanResources() ensures !TermsMatch("Technology", "Human Resources")
  {
    LowerTechnology();
    LowerHumanResources();
    LettersKeepApart("Technology", "Human Resources", "technology", "human resources", 't', 'u');
  }
  lemma TechnologyVsPsychology() ensures !TermsMatch("Technology", "Psychology")
  {
    LowerTechnology();
    LowerPsychology();
    LettersKeepApart("Technology", "Psychology", "technology", "psychology", 't', 'p');
  }
  lemma TechnologyVsBusiness() ensures !TermsMatch("Technology", "Business")
  {
    LowerTechnology();
    LowerBusiness();
    LettersKeepApart("Technology", "Business", "technology", "business", 't', 'b');
  }
  lemma TechnologyVsPeople() ensures !TermsMatch("Technology", "People")
  {
    LowerTechnology();
    LowerPeople();
    LettersKeepApart("Technology", "People", "technology", "people", 't', 'p');
  }

  /** "Technology" matches none of the HR specialist's interests. */
  lemma TechnologyMissesHrInterests()
    ensures !MatchesSome("Technology", HrSpecialist.interests)
  {
    TechnologyVsHumanResources();
    TechnologyVsPsychology();
    TechnologyVsBusiness();
    TechnologyVsPeople();
  }

  // "Computer Science" against each of the HR specialist's subjects.
  lemma ComputerScienceVsHumanResources() ensures !TermsMatch("Computer Science", "Human Resources")
  {
    LowerComputerScience();
    LowerHumanResources();
    LettersKeepApart("Computer Science", "Human Resources", "computer science", "human resources", 'p', 'h');
  }
  lemma ComputerScienceVsPsychology() ensures !TermsMatch("Computer Science", "Psychology")
  {
    LowerComputerScience();
    LowerPsychology();
    LettersKeepApart("Computer Science", "Psychology", "computer science", "psychology", 't', 'y');
  }
  lemma ComputerScienceVsBusiness() ensures !TermsMatch("Computer Science", "Business")
  {
    LowerComputerScience();
    LowerBusiness();
    LettersKeepApart("Computer Science", "Business", "computer science", "business", 't', 'b');
  }

  /** "Computer Science" matches none of the HR specialist's subjects. */
  lemma ComputerScienceMissesHrSubjects()
    ensures !MatchesSome("Computer Science", HrSpecialist.academicReqs.preferredSubjects)
  {
    ComputerScienceVsHumanResources();
    ComputerScienceVsPsychology();
    ComputerScienceVsBusiness();
  }

  lemma SampleSkillsMissHr()
    ensures forall a :: a in SampleProfile.skills ==> !MatchesSome(a, HrSpecialist.skills)
  {
    ProgrammingMissesHrSkills();
    ProblemSolvingMissesHrSkills();
  }

  lemma SampleInterestsMissHr()
    ensures forall a :: a in SampleProfile.interests ==> !MatchesSome(a, HrSpecialist.interests)
  {
    TechnologyMissesHrInterests();
  }

  lemma SampleSubjectsMissHr()
    ensures forall a :: a in SampleProfile.academicSubjects ==> !MatchesSome(a, HrSpecialist.academicReqs.preferredSubjects)
  {
    ComputerScienceMissesHrSubjects();
  }

  /** Against the HR specialist only the academic level counts: no skill,
      interest or subject matches, and 3.5 meets the 2.7 minimum, so the
      score is 10 and the GPA sentence is the only reason. */
  lemma HrScoresTen(p: UserProfile, hr: Career)
    requires p == SampleProfile && hr == HrSpecialist
    ensures CalculateCompatibility(p, hr).score == 10.0
    ensures CalculateCompatibility(p, hr).reasons == [MeetsGpaReason]
    ensures Recommend(p, hr).compatibilityScore == 10
  {
    SampleSkillsMissHr();
    SampleInterestsMissHr();
    SampleSubjectsMissHr();
    NoMatchScoresGpaOnly(p, hr);
  }

  /** In a list sorted by descending score, a strictly higher score sits
      strictly earlier. */
  lemma HigherScoreEarlier(r: seq<Recommendation>, i: int, j: int)
    requires SortedDesc(r, Score)
    requires 0 <= i < |r| && 0 <= j < |r| && r[i].compatibilityScore > r[j].compatibilityScore
    ensures i < j
  {
  }

  /** Of two catalog careers, the one the profile scores strictly higher
      comes strictly earlier in its ranking. */
  lemma HigherRankedFirst(profile: UserProfile, catalog: seq<Career>, a: Career, b: Career)
    requires a in catalog && b in catalog
    requires Recommend(profile, a).compatibilityScore > Recommend(profile, b).compatibilityScore
    ensures var r := Rank(profile, catalog);
      && Recommend(profile, a) in r
      && Recommend(profile, b) in r
      && forall i, j :: 0 <= i < |r| && 0 <= j < |r| && r[i] == Recommend(profile, a) && r[j] == Recommend(profile, b) ==> i < j
  {
    var r := Rank(profile, catalog);
    forall i, j | 0 <= i < |r| && 0 <= j < |r| && r[i] == Recommend(profile, a) && r[j] == Recommend(profile, b)
      ensures i < j
    {
      HigherScoreEarlier(r, i, j);
    }
  }

  /** In the sample's ranking of any catalog that holds both (the site's
      catalog among them) the software engineer comes before the HR
      specialist. */
  lemma EngineerRanksAboveHr(p: UserProfile, catalog: seq<Career>)
    requires p == SampleProfile && SoftwareEngineer in catalog && HrSpecialist in catalog
    ensures var r := Rank(p, catalog);
      && Recommend(p, SoftwareEngineer) in r
      && Recommend(p, HrSpecialist) in r
      && forall i, j :: 0 <= i < |r| && 0 <= j < |r| && r[i] == Recommend(p, SoftwareEngineer) && r[j] == Recommend(p, HrSpecialist) ==> i < j
  {
    EngineerScoresNinety(p, SoftwareEngineer);
    HrScoresTen(p, HrSpecialist);
    HigherRankedFirst(p, catalog, SoftwareEngineer, HrSpecialist);
  }

  /** The lower-cased title of the HR specialist. */
  const HrTitle: string := "hr specialist"

  lemma LowerHrTitle() ensures Lower(HrSpecialist.title) == HrTitle {}

  /** A lower-case keyword holding a letter the HR title lacks does not
      occur in that title. */
  lemma KeywordMissesHr(kw: string, x: char)
    requires Lower(kw) == kw && x in kw && x !in HrTitle
    ensures !IsSubstring(Lower(kw), HrTitle)
  {
    NotContainsMissingChar(HrTitle, kw, x);
    ContainsIffSubstring(HrTitle, kw);
  }

  /** A lower-case keyword whose first letter occurs once in the HR title,
      there followed by something else than the keyword's second letter,
      does not occur in that title. */
  lemma KeywordMissesHrAt(kw: string, pre: string, post: string)
    requires Lower(kw) == kw && |kw| >= 2 && HrTitle == pre + [kw[0]] + post
    requires kw[0] !in pre && kw[0] !in post && (|post| == 0 || post[0] != kw[1])
    ensures !IsSubstring(Lower(kw), HrTitle)
  {
    NotContainsLoneChar(HrTitle, kw, pre, post);
    ContainsIffSubstring(HrTitle, kw);
  }

  /** One lemma per category keyword, grouped by category below: the keyword,
      lower-cased, does not occur in the HR title. Each one evaluates `Lower`
      on its literal and names the letter (or the lone first letter) that keeps
      the keyword out. They are kept apart because evaluating all
      twenty-four literals in one proof exceeds the solver's budget. */
  // The Technology keywords against the HR title.
  lemma HrTitleLacksSoftware() ensures !IsSubstring(Lower("software"), HrTitle)
  {
    assert Lower("software") == "software";
    KeywordMissesHr("software", 'o');
  }
  lemma HrTitleLacksData() ensures !IsSubstring(Lower("data"), HrTitle)
  {
    assert Lower("data") == "data";
    KeywordMissesHr("data", 'd');
  }
  lemma HrTitleLacksCybersecurity() ensures !IsSubstring(Lower("cybersecurity"), HrTitle)
  {
    assert Lower("cybersecurity") == "cybersecurity";
    KeywordMissesHr("cybersecurity", 'y');
  }
  lemma HrTitleLacksEngineer() ensures !IsSubstring(Lower("engineer"), HrTitle)
  {
    assert Lower("engineer") == "engineer";
    KeywordMissesHr("engineer", 'n');
  }
  lemma HrTitleLacksDeveloper() ensures !IsSubstring(Lower("developer"), HrTitle)
  {
    assert Lower("developer") == "developer";
    KeywordMissesHr("developer", 'd');
  }

  lemma HrOutsideTechnology(rec: Recommendation)
    requires rec.career == HrSpecialist
    ensures !Categories.InCategory(rec, Categories.Technology)
  {
    LowerHrTitle();
    HrTitleLacksSoftware();
    HrTitleLacksData();
    HrTitleLacksCybersecurity();
    HrTitleLacksEngineer();
    HrTitleLacksDeveloper();
  }

  // The Business keywords against the HR title.
  lemma HrTitleLacksMarketing() ensures !IsSubstring(Lower("marketing"), HrTitle)
  {
    assert Lower("marketing") == "marketing";
    KeywordMissesHr("marketing", 'm');
  }
  lemma HrTitleLacksFinancial() ensures !IsSubstring(Lower("financial"), HrTitle)
  {
    assert Lower("financial") == "financial";
    KeywordMissesHr("financial", 'f');
  }
  lemma HrTitleLacksProduct() ensures !IsSubstring(Lower("product"), HrTitle)
  {
    assert Lower("product") == "product";
    KeywordMissesHr("product", 'o');
  }
  lemma HrTitleLacksManager() ensures !IsSubstring(Lower("manager"), HrTitle)
  {
    assert Lower("manager") == "manager";
    KeywordMissesHr("manager", 'm');
  }
  lemma HrTitleLacksBusiness() ensures !IsSubstring(Lower("business"), HrTitle)
  {
    assert Lower("business") == "business";
    KeywordMissesHr("business", 'b');
  }

  lemma HrOutsideBusiness(rec: Recommendation)
    requires rec.career == HrSpecialist
    ensures !Categories.InCategory(rec, Categories.Business)
  {
    LowerHrTitle();
    HrTitleLacksMarketing();
    HrTitleLacksFinancial();
    HrTitleLacksProduct();
    HrTitleLacksManager();
    HrTitleLacksBusiness();
  }

  // The Healthcare keywords against the HR title.
  lemma HrTitleLacksHealthcare() ensures !IsSubstring(Lower("healthcare"), HrTitle)
  {
    assert Lower("healthcare") == "healthcare";
    KeywordMissesHrAt("healthcare", "", "r specialist");
  }
  lemma HrTitleLacksMedical() ensures !IsSubstring(Lower("medical"), HrTitle)
  {
    assert Lower("medical") == "medical";
    KeywordMissesHr("medical", 'm');
  }
  lemma HrTitleLacksHealth() ensures !IsSubstring(Lower("health"), HrTitle)
  {
    assert Lower("health") == "health";
    KeywordMissesHrAt("health", "", "r specialist");
  }
  lemma HrTitleLacksClinical() ensures !IsSubstring(Lower("clinical"), HrTitle)
  {
    assert Lower("clinical") == "clinical";
    KeywordMissesHr("clinical", 'n');
  }

  lemma HrOutsideHealthcare(rec: Recommendation)
    requires rec.career == HrSpecialist
    ensures !Categories.InCategory(rec, Categories.Healthcare)
  {
    LowerHrTitle();
    HrTitleLacksHealthcare();
    HrTitleLacksMedical();
    HrTitleLacksHealth();
    HrTitleLacksClinical();
  }

  // The Creative keywords against the HR title.
  lemma HrTitleLacksDesign() ensures !IsSubstring(Lower("design"), HrTitle)
  {
    assert Lower("design") == "design";
    KeywordMissesHr("design", 'd');
  }
  lemma HrTitleLacksUx() ensures !IsSubstring(Lower("ux"), HrTitle)
  {
    assert Lower("ux") == "ux";
    KeywordMissesHr("ux", 'u');
  }
  lemma HrTitleLacksUi() ensures !IsSubstring(Lower("ui"), HrTitle)
  {
    assert Lower("ui") == "ui";
    KeywordMissesHr("ui", 'u');
  }
  lemma HrTitleLacksCreative() ensures !IsSubstring(Lower("creative"), HrTitle)
  {
    assert Lower("creative") == "creative";
    KeywordMissesHr("creative", 'v');
  }
  lemma HrTitleLacksArtist() ensures !IsSubstring(Lower("artist"), HrTitle)
  {
    assert Lower("artist") == "artist";
    KeywordMissesHrAt("artist", "hr speci", "list");
  }

  lemma HrOutsideCreative(rec: Recommendation)
    requires rec.career == HrSpecialist
    ensures !Categories.InCategory(rec, Categories.Creative)
  {
    LowerHrTitle();
    HrTitleLacksDesign();
    HrTitleLacksUx();
    HrTitleLacksUi();
    HrTitleLacksCreative();
    HrTitleLacksArtist();
  }

  // The Sciences keywords against the HR title.
  lemma HrTitleLacksScientist() ensures !IsSubstring(Lower("scientist"), HrTitle)
  {
    assert Lower("scientist") == "scientist";
    KeywordMissesHr("scientist", 'n');
  }
  lemma HrTitleLacksResearch() ensures !IsSubstring(Lower("research"), HrTitle)
  {
    assert Lower("research") == "research";
    KeywordMissesHrAt("research", "h", " specialist");
  }
  lemma HrTitleLacksEnvironmental() ensures !IsSubstring(Lower("environmental"), HrTitle)
  {
    assert Lower("environmental") == "environmental";
    KeywordMissesHr("environmental", 'n');
  }
  lemma HrTitleLacksBiology() ensures !IsSubstring(Lower("biology"), HrTitle)
  {
    assert Lower("biology") == "biology";
    KeywordMissesHr("biology", 'b');
  }
  lemma HrTitleLacksChemistry() ensures !IsSubstring(Lower("chemistry"), HrTitle)
  {
    assert Lower("chemistry") == "chemistry";
    KeywordMissesHr("chemistry", 'm');
  }

  lemma HrOutsideSciences(rec: Recommendation)
    requires rec.career == HrSpecialist
    ensures !Categories.InCategory(rec, Categories.Sciences)
  {
    LowerHrTitle();
    HrTitleLacksScientist();
    HrTitleLacksResearch();
    HrTitleLacksEnvironmental();
    HrTitleLacksBiology();
    HrTitleLacksChemistry();
  }

  /** No keyword of any category occurs in "HR Specialist", so the HR
      specialist is counted in no category of the chart, whatever its
      score and whatever else is recommended. */
  lemma HrInNoCategory(rec: Recommendation)
    requires rec.career == HrSpecialist
    ensures forall cat :: cat in Categories.Taxonomy ==> !Categories.InCategory(rec, cat)
    ensures forall recs, cat :: cat in Categories.Taxonomy ==> rec !in Categories.Members(recs, cat)
  {
    HrOutsideTechnology(rec);
    HrOutsideBusiness(rec);
    HrOutsideHealthcare(rec);
    HrOutsideCreative(rec);
    HrOutsideSciences(rec);
  }
}
