/** The skill-gap panel: the colour and advice chosen from the gap score,
    the progress bar value, and the list of skills still to acquire. The
    gap score itself comes from a generator that is not part of this
    model; here it is an input. */
module SkillGap {

  /** The three bands of the gap score; a lower score is better. */
  datatype GapBand = SmallGap | ModerateGap | SignificantGap

  /** The band boundaries, both inclusive upper bounds. */
  const SmallGapLimit: real := 20.0
  const ModerateGapLimit: real := 50.0

  function Band(score: real): (b: GapBand)
    ensures b == SmallGap <==> score <= SmallGapLimit
    ensures b == ModerateGap <==> SmallGapLimit < score <= ModerateGapLimit
    ensures b == SignificantGap <==> score > ModerateGapLimit
  {
    if score <= SmallGapLimit then SmallGap
    else if score <= ModerateGapLimit then ModerateGap
    else SignificantGap
  }

  /** `getGapColor`. */
  function GapColor(score: real): (c: string)
    ensures c == "text-green-500" <==> score <= SmallGapLimit
    ensures c == "text-yellow-500" <==> SmallGapLimit < score <= ModerateGapLimit
    ensures c == "text-red-500" <==> score > ModerateGapLimit
  {
    if score <= SmallGapLimit then "text-green-500"
    else if score <= ModerateGapLimit then "text-yellow-500"
    else "text-red-500"
  }

  const SmallGapMessage: string :=
    "You match most of the required skills for this career! Just a few skills to acquire."
  const ModerateGapMessage: string :=
    "You have a moderate skill gap. Focus on developing these skills to improve your match."
  const SignificantGapMessage: string :=
    "You have a significant skill gap. Consider intensive training in these areas."

  /** The advice under the bar, chosen by its own nested conditional. */
  function GapMessage(score: real): (m: string)
    ensures m == SmallGapMessage <==> score <= SmallGapLimit
    ensures m == ModerateGapMessage <==> SmallGapLimit < score <= ModerateGapLimit
    ensures m == SignificantGapMessage <==> score > ModerateGapLimit
  {
    MessagesDistinct();
    if score <= SmallGapLimit then SmallGapMessage
    else if score <= ModerateGapLimit then ModerateGapMessage
    else SignificantGapMessage
  }

  /** The colour of each band. */
  function BandColor(b: GapBand): string
  {
    match b
    case SmallGap => "text-green-500"
    case ModerateGap => "text-yellow-500"
    case SignificantGap => "text-red-500"
  }

  /** The advice of each band. */
  function BandMessage(b: GapBand): string
  {
    match b
    case SmallGap => SmallGapMessage
    case ModerateGap => ModerateGapMessage
    case SignificantGap => SignificantGapMessage
  }

  /** The three advice texts differ from one another: they are of
      different lengths. */
  lemma MessagesDistinct()
    ensures SmallGapMessage != ModerateGapMessage
    ensures ModerateGapMessage != SignificantGapMessage
    ensures SmallGapMessage != SignificantGapMessage
  {
    assert |SmallGapMessage| == 84 && |ModerateGapMessage| == 86 && |SignificantGapMessage| == 77;
  }

  /** The colour and the advice never disagree: both are the ones of the
      score's band, so the advice names the band the colour shows. */
  lemma ColorAndMessageAgree(score: real)
    ensures GapColor(score) == BandColor(Band(score))
    ensures GapMessage(score) == BandMessage(Band(score))
    ensures GapMessage(score) == SmallGapMessage <==> GapColor(score) == "text-green-500"
    ensures GapMessage(score) == ModerateGapMessage <==> GapColor(score) == "text-yellow-500"
    ensures GapMessage(score) == SignificantGapMessage <==> GapColor(score) == "text-red-500"
  {
    MessagesDistinct();
  }

  /** A worse gap never gets a better band. */
  lemma BandMonotone(a: real, b: real)
    requires a <= b
    ensures Band(a) == SignificantGap ==> Band(b) == SignificantGap
    ensures Band(b) == SmallGap ==> Band(a) == SmallGap
  {
  }

  /** The progress bar shows how much of the skill set is covered. */
  function ProgressValue(score: real): (v: real)
    ensures v + score == 100.0
    ensures 0.0 <= score <= 100.0 ==> 0.0 <= v <= 100.0
  {
    100.0 - score
  }

  /** What the panel shows. */
  datatype GapPanel = GapPanel(
    color: string,
    progress: real,
    message: string,
    skillsToDevelop: seq<string>,
    showsSkillsBlock: bool)

  /** The panel for a gap result: the skills block is rendered exactly
      when there are missing skills, and lists them all, in order. */
  function RenderPanel(missingSkills: seq<string>, score: real): (p: GapPanel)
    ensures p.showsSkillsBlock <==> |missingSkills| > 0
    ensures p.showsSkillsBlock ==> p.skillsToDevelop == missingSkills
    ensures !p.showsSkillsBlock ==> p.skillsToDevelop == []
    ensures p.progress + score == 100.0
    ensures p.color == BandColor(Band(score)) && p.message == BandMessage(Band(score))
  {
    ColorAndMessageAgree(score);
    var shows := |missingSkills| > 0;
    GapPanel(GapColor(score), ProgressValue(score), GapMessage(score),
      if shows then missingSkills else [], shows)
  }
}
