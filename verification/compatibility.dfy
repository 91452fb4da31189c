/** The compatibility scorer (`calculateCompatibility`): one profile against
    one career, giving an unrounded score and the reason sentences. */
module Compatibility {
  import opened Text
  import opened JsMath
  import opened CareerData

  /** The profile the form submits; `academicPerformance` is on the 4.0 scale
      and `personalValues` is carried but never scored. */
  datatype UserProfile = UserProfile(
    academicPerformance: real,
    skills: seq<string>,
    interests: seq<string>,
    academicSubjects: seq<string>,
    personalValues: seq<string>)

  /** The result of scoring one career: the raw (unrounded) score and the
      reasons, in the order skills, interests, subjects, academic level. */
  datatype Compatibility = Compatibility(score: real, reasons: seq<string>)

  const SkillWeight: real := 40.0
  const InterestWeight: real := 30.0
  // The comment in the scorer calls this 20%; the formula multiplies by 10.
  const SubjectWeight: real := 10.0
  const GpaBonus: real := 10.0

  /** A profile term matches a career term when either one, lower-cased,
      contains the other. */
  predicate TermsMatch(a: string, b: string)
    ensures TermsMatch(a, b) <==> IsSubstring(Lower(a), Lower(b)) || IsSubstring(Lower(b), Lower(a))
  {
    ContainsIffSubstring(Lower(b), Lower(a));
    ContainsIffSubstring(Lower(a), Lower(b));
    Contains(Lower(b), Lower(a)) || Contains(Lower(a), Lower(b))
  }

  /** `careerTerms.some(b => TermsMatch(a, b))`. */
  predicate MatchesSome(a: string, careerTerms: seq<string>)
    ensures MatchesSome(a, careerTerms) <==> exists b :: b in careerTerms && TermsMatch(a, b)
  {
    if |careerTerms| == 0 then false
    else TermsMatch(a, careerTerms[0]) || MatchesSome(a, careerTerms[1..])
  }

  /** The profile terms (in profile order, repeats kept) that match some
      career term. */
  function Matches(profileTerms: seq<string>, careerTerms: seq<string>): (m: seq<string>)
    ensures |m| <= |profileTerms|
    ensures forall a :: a in m <==> a in profileTerms && MatchesSome(a, careerTerms)
  {
    Filter(profileTerms, a => MatchesSome(a, careerTerms))
  }

  /** `(matched / Math.max(offered, 1)) * weight`. */
  function Share(matched: nat, offered: nat, weight: real): (r: real)
    ensures 0.0 <= weight && matched <= offered ==> 0.0 <= r <= weight
    ensures matched == 0 ==> r == 0.0
    ensures 0 < matched == offered ==> r == weight
  {
    var d := AtLeastOne(offered) as real;
    var fraction := matched as real / d;
    assert fraction * d == matched as real;
    assert 0.0 <= fraction;
    assert 0.0 <= weight && matched <= offered ==> 0.0 <= fraction * weight <= weight by {
      if 0.0 <= weight && matched <= offered {
        assert fraction <= 1.0;
        MulMonotone(fraction, 1.0, weight);
        MulMonotone(0.0, fraction, weight);
      }
    }
    fraction * weight
  }

  /** The comma-separated first three matches, followed by ", etc." when
      `etc` is set and more than three matched. */
  function Listed(m: seq<string>, etc: bool): (r: string)
    ensures |m| <= 3 ==> r == Join(m, ", ")
    ensures |m| > 3 && etc ==> r == Join(m[..3], ", ") + ", etc."
    ensures |m| > 3 && !etc ==> r == Join(m[..3], ", ")
  {
    Join(Take(m, 3), ", ") + (if etc && |m| > 3 then ", etc." else "")
  }

  /** The skills sentence: a fixed opening and closing around the listed
      matches. */
  function SkillsReason(m: seq<string>): (r: string)
    ensures |r| == 15 + |Listed(m, true)| + 24
    ensures r[..15] == "Your skills in " && r[15..|r| - 24] == Listed(m, true)
    ensures r[|r| - 24..] == " align with this career."
  {
    "Your skills in " + Listed(m, true) + " align with this career."
  }

  /** The interests sentence: a fixed opening and closing around the
      listed matches. */
  function InterestsReason(m: seq<string>): (r: string)
    ensures |r| == 18 + |Listed(m, true)| + 29
    ensures r[..18] == "Your interests in " && r[18..|r| - 29] == Listed(m, true)
    ensures r[|r| - 29..] == " match well with this career."
  {
    "Your interests in " + Listed(m, true) + " match well with this career."
  }

  /** The subjects sentence: a fixed opening and closing around the listed
      matches, which never end in ", etc.". */
  function SubjectsReason(m: seq<string>): (r: string)
    ensures |r| == 28 + |Listed(m, false)| + 29
    ensures r[..28] == "Your academic background in " && r[28..|r| - 29] == Listed(m, false)
    ensures r[|r| - 29..] == " is beneficial for this role."
  {
    "Your academic background in " + Listed(m, false) + " is beneficial for this role."
  }

  const MeetsGpaReason: string :=
    "Your academic performance meets or exceeds the typical requirements for this career."
  const BelowGpaReason: string :=
    "This career typically requires a stronger academic performance, but other factors may compensate."

  /** The five sentence templates are told apart, whatever terms they
      list, by their sixth character and by the third and fourteenth
      characters from their end. */
  lemma ReasonTemplatesDiffer(m: seq<string>)
    ensures var s := SkillsReason(m); |s| > 24 && s[5] == 's' && s[|s| - 3] == 'e' && s[|s| - 14] == 'h'
    ensures var s := InterestsReason(m); |s| > 29 && s[5] == 'i' && s[|s| - 3] == 'e' && s[|s| - 14] == 'h'
    ensures var s := SubjectsReason(m); |s| > 29 && s[5] == 'a' && s[|s| - 3] == 'l'
    ensures |MeetsGpaReason| == 84 && MeetsGpaReason[81] == 'e' && MeetsGpaReason[70] == 'r'
    ensures |BelowGpaReason| == 97 && BelowGpaReason[94] == 't'
  {
    var s, i, a := SkillsReason(m), InterestsReason(m), SubjectsReason(m);
    assert s[5] == s[..15][5] && s[|s| - 3] == s[|s| - 24..][21] && s[|s| - 14] == s[|s| - 24..][10];
    assert i[5] == i[..18][5] && i[|i| - 3] == i[|i| - 29..][26] && i[|i| - 14] == i[|i| - 29..][15];
    assert a[5] == a[..28][5] && a[|a| - 3] == a[|a| - 29..][26];
  }

  /** The reason sentences for the given match lists and academic level. */
  function Reasons(sm: seq<string>, im: seq<string>, am: seq<string>, meetsGpa: bool): (rs: seq<string>)
    ensures 1 <= |rs| <= 4
  {
    (if |sm| > 0 then [SkillsReason(sm)] else [])
    + ((if |im| > 0 then [InterestsReason(im)] else [])
    + ((if |am| > 0 then [SubjectsReason(am)] else [])
    + [if meetsGpa then MeetsGpaReason else BelowGpaReason]))
  }

  /** Scores `profile` against `career`.  */
  function CalculateCompatibility(profile: UserProfile, career: Career): (c: Compatibility)
    ensures 0.0 <= c.score <= SkillWeight + InterestWeight + SubjectWeight + GpaBonus
    ensures profile.academicPerformance >= career.academicReqs.minGPA ==> c.score >= GpaBonus
    ensures profile.academicPerformance < career.academicReqs.minGPA ==> c.score <= SkillWeight + InterestWeight + SubjectWeight
    ensures 1 <= |c.reasons| <= 4
  {
    var skillMatches := Matches(profile.skills, career.skills);
    var interestMatches := Matches(profile.interests, career.interests);
    var subjectMatches := Matches(profile.academicSubjects, career.academicReqs.preferredSubjects);
    var meetsGpa := profile.academicPerformance >= career.academicReqs.minGPA;
    var score :=
      Share(|skillMatches|, |profile.skills|, SkillWeight)
      + Share(|interestMatches|, |profile.interests|, InterestWeight)
      + Share(|subjectMatches|, |profile.academicSubjects|, SubjectWeight)
      + (if meetsGpa then GpaBonus else 0.0);
    Compatibility(score, Reasons(skillMatches, interestMatches, subjectMatches, meetsGpa))
  }

  /** The match relation is symmetric and reflexive. */
  lemma TermsMatchSymmetricReflexive(a: string, b: string)
    ensures TermsMatch(a, b) <==> TermsMatch(b, a)
    ensures TermsMatch(a, a)
  {
    ContainsSelf(Lower(a));
  }

  /** The match relation ignores (ASCII) letter case on either side. */
  lemma TermsMatchIgnoresCase(a: string, b: string)
    ensures TermsMatch(Lower(a), b) <==> TermsMatch(a, b)
    ensures TermsMatch(a, Lower(b)) <==> TermsMatch(a, b)
  {
    LowerIdempotent(a);
    LowerIdempotent(b);
  }

  /** The reasons come in the fixed order skills, interests, subjects,
      academic level: a match sentence is there exactly when its match list
      is non-empty, and the academic-level sentence is always there and
      last. */
  lemma ReasonsInOrder(sm: seq<string>, im: seq<string>, am: seq<string>, meetsGpa: bool)
    ensures var rs := Reasons(sm, im, am, meetsGpa);
      var ns := if |sm| > 0 then 1 else 0;
      var ni := if |im| > 0 then 1 else 0;
      var na := if |am| > 0 then 1 else 0;
      && |rs| == 1 + ns + ni + na
      && rs[|rs| - 1] == (if meetsGpa then MeetsGpaReason else BelowGpaReason)
      && (|sm| > 0 ==> rs[0] == SkillsReason(sm))
      && (|im| > 0 ==> rs[ns] == InterestsReason(im))
      && (|am| > 0 ==> rs[ns + ni] == SubjectsReason(am))
  {
  }

  /** Each match sentence is among the reasons exactly when its match list
      is non-empty. */
  lemma ReasonsPresent(sm: seq<string>, im: seq<string>, am: seq<string>, meetsGpa: bool)
    ensures var rs := Reasons(sm, im, am, meetsGpa);
      && (SkillsReason(sm) in rs <==> |sm| > 0)
      && (InterestsReason(im) in rs <==> |im| > 0)
      && (SubjectsReason(am) in rs <==> |am| > 0)
  {
    ReasonSentencesDiffer(sm, im, am);
    OptionalsPresent(SkillsReason(sm), InterestsReason(im), SubjectsReason(am),
      if meetsGpa then MeetsGpaReason else BelowGpaReason, |sm| > 0, |im| > 0, |am| > 0);
  }

  /** In a list of up to three optional distinct entries followed by a
      fixed one, each optional entry is present exactly when it was added. */
  lemma OptionalsPresent(x: string, y: string, z: string, g: string, px: bool, py: bool, pz: bool)
    requires x != y && x != z && y != z && x != g && y != g && z != g
    ensures var rs := (if px then [x] else []) + ((if py then [y] else []) + ((if pz then [z] else []) + [g]));
      && (x in rs <==> px) && (y in rs <==> py) && (z in rs <==> pz)
  {
  }

  /** Sentences of different kinds differ, whatever terms they list. */
  lemma ReasonSentencesDiffer(sm: seq<string>, im: seq<string>, am: seq<string>)
    ensures SkillsReason(sm) != InterestsReason(im) && SkillsReason(sm) != SubjectsReason(am)
    ensures InterestsReason(im) != SubjectsReason(am)
    ensures SkillsReason(sm) != MeetsGpaReason && SkillsReason(sm) != BelowGpaReason
    ensures InterestsReason(im) != MeetsGpaReason && InterestsReason(im) != BelowGpaReason
    ensures SubjectsReason(am) != MeetsGpaReason && SubjectsReason(am) != BelowGpaReason
  {
    ReasonTemplatesDiffer(sm);
    ReasonTemplatesDiffer(im);
    ReasonTemplatesDiffer(am);
  }

  lemma DivMonotone(a: real, b: real, c: real, d: real)
    requires b > 0.0 && d > 0.0 && a * d <= c * b
    ensures a / b <= c / d
  {
    var x := a / b;
    var y := c / d;
    assert x * b == a && y * d == c;
    assert x * b * d <= y * d * b;
    assert (x - y) * (b * d) <= 0.0;
  }

  lemma MulMonotone(x: real, y: real, w: real)
    requires x <= y && w >= 0.0
    ensures x * w <= y * w
  {
    assert y * w - x * w == (y - x) * w;
  }

  lemma ShareOfPositive(matched: nat, offered: nat, weight: real)
    requires offered > 0
    ensures Share(matched, offered, weight) == (matched as real / offered as real) * weight
  {
  }

  lemma WeightedFractionGrows(m: real, n: real, w: real)
    requires 0.0 <= m <= n && n >= 1.0 && w >= 0.0
    ensures (m / n) * w <= ((m + 1.0) / (n + 1.0)) * w
  {
    assert m * (n + 1.0) == m * n + m;
    assert (m + 1.0) * n == m * n + n;
    DivMonotone(m, n, m + 1.0, n + 1.0);
    MulMonotone(m / n, (m + 1.0) / (n + 1.0), w);
  }

  lemma WeightedFractionShrinks(m: real, n: real, w: real)
    requires 0.0 <= m <= n && n >= 1.0 && w >= 0.0
    ensures (m / (n + 1.0)) * w <= (m / n) * w
  {
    assert m * n <= m * (n + 1.0);
    DivMonotone(m, n + 1.0, m, n);
    MulMonotone(m / (n + 1.0), m / n, w);
  }

  /** `Share` grows (weakly) when one more offered term also matches. */
  lemma ShareGrowsWithMatch(matched: nat, offered: nat, weight: real)
    requires matched <= offered && weight >= 0.0
    ensures Share(matched + 1, offered + 1, weight) >= Share(matched, offered, weight)
  {
    var a := Share(matched + 1, offered + 1, weight);
    var b := Share(matched, offered, weight);
    if offered > 0 {
      ShareOfPositive(matched + 1, offered + 1, weight);
      ShareOfPositive(matched, offered, weight);
      var m, n := matched as real, offered as real;
      assert (matched + 1) as real == m + 1.0 && (offered + 1) as real == n + 1.0;
      assert a == ((m + 1.0) / (n + 1.0)) * weight;
      assert b == (m / n) * weight;
      WeightedFractionGrows(m, n, weight);
    } else {
      assert a == weight && b == 0.0;
    }
  }

  /** `Share` shrinks (weakly) when one more offered term does not match. */
  lemma ShareShrinksWithMiss(matched: nat, offered: nat, weight: real)
    requires matched <= offered && weight >= 0.0
    ensures Share(matched, offered + 1, weight) <= Share(matched, offered, weight)
  {
    var a := Share(matched, offered + 1, weight);
    var b := Share(matched, offered, weight);
    if offered > 0 {
      ShareOfPositive(matched, offered + 1, weight);
      ShareOfPositive(matched, offered, weight);
      var m, n := matched as real, offered as real;
      assert (offered + 1) as real == n + 1.0;
      assert a == (m / (n + 1.0)) * weight;
      assert b == (m / n) * weight;
      WeightedFractionShrinks(m, n, weight);
      assert a <= b;
    } else {
      assert a == 0.0 && b == 0.0;
    }
  }

  /** The skills part of the score. */
  function SkillPart(profile: UserProfile, career: Career): real
  {
    Share(|Matches(profile.skills, career.skills)|, |profile.skills|, SkillWeight)
  }

  /** The part of the score that does not depend on the skills. */
  function NonSkillPart(profile: UserProfile, career: Career): real
  {
    Share(|Matches(profile.interests, career.interests)|, |profile.interests|, InterestWeight)
    + Share(|Matches(profile.academicSubjects, career.academicReqs.preferredSubjects)|, |profile.academicSubjects|, SubjectWeight)
    + (if profile.academicPerformance >= career.academicReqs.minGPA then GpaBonus else 0.0)
  }

  /** One more selected skill raises the skills part (weakly) when it
      matches and lowers it (weakly) when it does not. */
  lemma {:induction false} SkillPartMonotone(profile: UserProfile, career: Career, skill: string)
    ensures MatchesSome(skill, career.skills) ==>
      SkillPart(profile.(skills := profile.skills + [skill]), career) >= SkillPart(profile, career)
    ensures !MatchesSome(skill, career.skills) ==>
      SkillPart(profile.(skills := profile.skills + [skill]), career) <= SkillPart(profile, career)
  {
    var q := profile.(skills := profile.skills + [skill]);
    var p := (a: string) => MatchesSome(a, career.skills);
    FilterAppend(profile.skills, [skill], p);
    assert Filter([skill], p) == if p(skill) then [skill] else [];
    var m := |Matches(profile.skills, career.skills)|;
    var n := |profile.skills|;
    assert |Matches(q.skills, career.skills)| == if p(skill) then m + 1 else m;
    ShareGrowsWithMatch(m, n, SkillWeight);
    ShareShrinksWithMiss(m, n, SkillWeight);
  }

  /** Selecting one more skill that some career skill matches never lowers
      the score; selecting one that matches nothing never raises it. */
  lemma AddingSkillMonotone(profile: UserProfile, career: Career, skill: string)
    ensures MatchesSome(skill, career.skills) ==>
      CalculateCompatibility(profile.(skills := profile.skills + [skill]), career).score
      >= CalculateCompatibility(profile, career).score
    ensures !MatchesSome(skill, career.skills) ==>
      CalculateCompatibility(profile.(skills := profile.skills + [skill]), career).score
      <= CalculateCompatibility(profile, career).score
  {
    var q := profile.(skills := profile.skills + [skill]);
    assert CalculateCompatibility(profile, career).score == SkillPart(profile, career) + NonSkillPart(profile, career);
    assert CalculateCompatibility(q, career).score == SkillPart(q, career) + NonSkillPart(profile, career);
    SkillPartMonotone(profile, career, skill);
  }

  /** A profile with no skills, interests or subjects scores only the
      academic bonus and gets only the academic-level sentence: the
      `Math.max(length, 1)` guard turns each empty list into a zero part. */
  lemma EmptyProfileScoresOnlyGpa(profile: UserProfile, career: Career)
    requires profile.skills == [] && profile.interests == [] && profile.academicSubjects == []
    ensures var c := CalculateCompatibility(profile, career);
      && c.score == (if profile.academicPerformance >= career.academicReqs.minGPA then GpaBonus else 0.0)
      && c.reasons == [if profile.academicPerformance >= career.academicReqs.minGPA then MeetsGpaReason else BelowGpaReason]
  {
  }

  /** When every selected term matches and the academic level is met, the
      score is the maximum of 90. */
  lemma FullMatchScoresMaximum(profile: UserProfile, career: Career)
    requires |profile.skills| > 0 && |profile.interests| > 0 && |profile.academicSubjects| > 0
    requires forall a :: a in profile.skills ==> MatchesSome(a, career.skills)
    requires forall a :: a in profile.interests ==> MatchesSome(a, career.interests)
    requires forall a :: a in profile.academicSubjects ==> MatchesSome(a, career.academicReqs.preferredSubjects)
    requires profile.academicPerformance >= career.academicReqs.minGPA
    ensures CalculateCompatibility(profile, career).score == SkillWeight + InterestWeight + SubjectWeight + GpaBonus
  {
    FilterKeepsAll(profile.skills, a => MatchesSome(a, career.skills));
    FilterKeepsAll(profile.interests, a => MatchesSome(a, career.interests));
    FilterKeepsAll(profile.academicSubjects, a => MatchesSome(a, career.academicReqs.preferredSubjects));
  }

  /** The other extreme: when no selected term matches, only the academic
      bonus is left, and the single reason is the GPA sentence. */
  lemma NoMatchScoresGpaOnly(profile: UserProfile, career: Career)
    requires forall a :: a in profile.skills ==> !MatchesSome(a, career.skills)
    requires forall a :: a in profile.interests ==> !MatchesSome(a, career.interests)
    requires forall a :: a in profile.academicSubjects ==> !MatchesSome(a, career.academicReqs.preferredSubjects)
    ensures CalculateCompatibility(profile, career).score
      == if profile.academicPerformance >= career.academicReqs.minGPA then GpaBonus else 0.0
    ensures CalculateCompatibility(profile, career).reasons
      == [if profile.academicPerformance >= career.academicReqs.minGPA then MeetsGpaReason else BelowGpaReason]
  {
    FilterDropsAll(profile.skills, a => MatchesSome(a, career.skills));
    FilterDropsAll(profile.interests, a => MatchesSome(a, career.interests));
    FilterDropsAll(profile.academicSubjects, a => MatchesSome(a, career.academicReqs.preferredSubjects));
  }

  /** Every selected term lower-cased. */
  function LowerAll(terms: seq<string>): (r: seq<string>)
    ensures |r| == |terms|
    ensures forall i :: 0 <= i < |terms| ==> r[i] == Lower(terms[i])
  {
    seq(|terms|, i requires 0 <= i < |terms| => Lower(terms[i]))
  }

  lemma {:induction false} MatchCountIgnoresCase(terms: seq<string>, careerTerms: seq<string>)
    ensures |Matches(LowerAll(terms), careerTerms)| == |Matches(terms, careerTerms)|
    decreases |terms|
  {
    if |terms| > 0 {
      MatchCountIgnoresCase(terms[1..], careerTerms);
      assert LowerAll(terms)[1..] == LowerAll(terms[1..]);
      forall b | b in careerTerms
        ensures TermsMatch(Lower(terms[0]), b) == TermsMatch(terms[0], b)
      {
        TermsMatchIgnoresCase(terms[0], b);
      }
      assert MatchesSome(Lower(terms[0]), careerTerms) == MatchesSome(terms[0], careerTerms);
    }
  }

  /** Lower-casing every selected term leaves the score unchanged. */
  lemma ScoreIgnoresCase(profile: UserProfile, career: Career)
    ensures CalculateCompatibility(
              profile.(skills := LowerAll(profile.skills),
                       interests := LowerAll(profile.interests),
                       academicSubjects := LowerAll(profile.academicSubjects)),
              career).score
            == CalculateCompatibility(profile, career).score
  {
    MatchCountIgnoresCase(profile.skills, career.skills);
    MatchCountIgnoresCase(profile.interests, career.interests);
    MatchCountIgnoresCase(profile.academicSubjects, career.academicReqs.preferredSubjects);
  }
}
