/** The profile form's state logic: the four checkbox toggles (one generic
    `Toggle`) and the submit validation chain that turns the form into the
    profile the engine scores. */
module ProfileForm {
  import opened Text
  import opened Compatibility

  /** What the form holds: the GPA slider value and the four selections in
      the order the user ticked them. */
  datatype FormState = FormState(
    academicPerformance: real,
    skills: seq<string>,
    interests: seq<string>,
    subjects: seq<string>,
    personalValues: seq<string>)

  /** The result of pressing submit: an error toast, or the profile handed
      to `onSubmit` (after which the page navigates to the results). */
  datatype SubmitOutcome = Rejected(message: string) | Submitted(profile: UserProfile)

  /** The state the form starts in: GPA 3.0 and nothing selected. */
  const InitialForm: FormState := FormState(3.0, [], [], [], [])

  const PersonalValueOptions: seq<string> := [
    "Work-Life Balance", "High Income", "Helping Others", "Creativity", "Leadership",
    "Innovation", "Stability", "Social Impact", "Recognition", "Continuous Learning"]

  const MinSkills: nat := 2
  const MinInterests: nat := 1
  const MinSubjects: nat := 1

  const SkillsMessage: string := "Please select at least 2 skills"
  const InterestsMessage: string := "Please select at least 1 interest"
  const SubjectsMessage: string := "Please select at least 1 academic subject"

  /** `prev.filter(s => s !== item)`. */
  function Without(s: seq<string>, x: string): (r: seq<string>)
    ensures x !in r
    ensures forall y :: y in r <==> y in s && y != x
  {
    Filter(s, y => y != x)
  }

  /** `prev.includes(item) ? prev.filter(s => s !== item) : [...prev, item]`. */
  function Toggle(s: seq<string>, x: string): (r: seq<string>)
    ensures x in s ==> x !in r
    ensures x !in s ==> |r| == |s| + 1 && r[..|s|] == s && r[|s|] == x
    ensures forall y :: y != x ==> (y in r <==> y in s)
  {
    if x in s then Without(s, x) else s + [x]
  }

  /** Removal drops every copy of the item and keeps every copy of every
      other item. */
  lemma {:induction false} WithoutCounts(s: seq<string>, x: string, y: string)
    ensures multiset(Without(s, x))[y] == if y == x then 0 else multiset(s)[y]
    decreases |s|
  {
    if |s| > 0 {
      WithoutCounts(s[1..], x, y);
      assert s == [s[0]] + s[1..];
      assert Without(s, x) == (if s[0] != x then [s[0]] else []) + Without(s[1..], x);
    }
  }

  /** Removal keeps the relative order of the other items: removing an item
      from a concatenation removes it from each part. */
  lemma WithoutKeepsOrder(a: seq<string>, b: seq<string>, x: string)
    ensures Without(a + b, x) == Without(a, x) + Without(b, x)
  {
    FilterAppend(a, b, y => y != x);
  }

  /** A selection without the item is left as it is by removing it. */
  lemma WithoutAbsent(s: seq<string>, x: string)
    requires x !in s
    ensures Without(s, x) == s
  {
    FilterKeepsAll(s, y => y != x);
  }

  /** A subsequence of a duplicate-free list has no duplicates either. */
  lemma {:induction false} WithoutKeepsNoDup(s: seq<string>, x: string)
    requires NoDup(s)
    ensures NoDup(Without(s, x))
    decreases |s|
  {
    if |s| > 0 {
      assert NoDup(s[1..]);
      WithoutKeepsNoDup(s[1..], x);
      var rest := Without(s[1..], x);
      assert Without(s, x) == (if s[0] != x then [s[0]] else []) + rest;
      assert s[0] !in s[1..];
    }
  }

  /** Toggling keeps a duplicate-free selection duplicate-free. */
  lemma ToggleKeepsNoDup(s: seq<string>, x: string)
    requires NoDup(s)
    ensures NoDup(Toggle(s, x))
  {
    if x in s {
      WithoutKeepsNoDup(s, x);
    }
  }

  /** Ticking and then unticking an item leaves the selection as it was. */
  lemma ToggleTwiceRestores(s: seq<string>, x: string)
    requires x !in s
    ensures Toggle(Toggle(s, x), x) == s
  {
    WithoutKeepsOrder(s, [x], x);
    WithoutAbsent(s, x);
    assert Without([x], x) == [];
  }

  /** Unticking and then ticking an item moves it to the end. */
  lemma ToggleTwiceMovesToEnd(s: seq<string>, x: string)
    requires x in s
    ensures Toggle(Toggle(s, x), x) == Without(s, x) + [x]
  {
  }

  /** `handleSubmit`: the first failing check, in the order skills,
      interests, subjects, produces its toast; when all pass, the form is
      handed on as a profile. Personal values are not checked. */
  function HandleSubmit(f: FormState): (o: SubmitOutcome)
    ensures o.Submitted? <==> |f.skills| >= MinSkills && |f.interests| >= MinInterests && |f.subjects| >= MinSubjects
    ensures |f.skills| < MinSkills ==> o == Rejected(SkillsMessage)
    ensures |f.skills| >= MinSkills && |f.interests| < MinInterests ==> o == Rejected(InterestsMessage)
    ensures |f.skills| >= MinSkills && |f.interests| >= MinInterests && |f.subjects| < MinSubjects ==> o == Rejected(SubjectsMessage)
    ensures o.Submitted? ==> o.profile.skills == f.skills && o.profile.interests == f.interests
    ensures o.Submitted? ==> o.profile.academicSubjects == f.subjects && o.profile.personalValues == f.personalValues
    ensures o.Submitted? ==> o.profile.academicPerformance == f.academicPerformance
  {
    if |f.skills| < MinSkills then Rejected(SkillsMessage)
    else if |f.interests| < MinInterests then Rejected(InterestsMessage)
    else if |f.subjects| < MinSubjects then Rejected(SubjectsMessage)
    else Submitted(UserProfile(f.academicPerformance, f.skills, f.interests, f.subjects, f.personalValues))
  }

  /** The three toasts are different, so the message names the one check
      that failed first. */
  lemma MessagesDistinct()
    ensures SkillsMessage != InterestsMessage && InterestsMessage != SubjectsMessage && SkillsMessage != SubjectsMessage
  {
    assert SkillsMessage[23] == '2' && InterestsMessage[23] == '1' && SubjectsMessage[23] == '1';
    assert SubjectsMessage[25] == 'a' && InterestsMessage[25] == 'i';
  }

  /** Personal values never decide the outcome: changing them changes at
      most the submitted profile's values. */
  lemma PersonalValuesNotValidated(f: FormState, values: seq<string>)
    ensures HandleSubmit(f.(personalValues := values)).Submitted? == HandleSubmit(f).Submitted?
    ensures HandleSubmit(f).Rejected? ==> HandleSubmit(f.(personalValues := values)) == HandleSubmit(f)
  {
  }

  /** The untouched form is refused with the skills toast. */
  lemma InitialFormRejected()
    ensures HandleSubmit(InitialForm) == Rejected(SkillsMessage)
  {
  }
}
