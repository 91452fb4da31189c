/** The category pie chart: only categories with a positive score become
    slices, slices take their colours from a six-colour palette in turn, and
    an empty chart shows a placeholder instead. */
module CategoryChart {
  import opened Text
  import opened StableSort
  import opened Categories

  const Palette: seq<string> := ["#4361EE", "#7209B7", "#F72585", "#4CC9F0", "#3A0CA3", "#480CA8"]

  /** The palette colours are pairwise different. */
  lemma PaletteDistinct()
    ensures NoDup(Palette)
  {
  }

  /** The `score > 0` test of the filter. */
  predicate HasScore(item: CategoryScore)
  {
    item.score > 0
  }

  /** `validData`: the entries with a positive score, in their order. */
  function ValidData(data: seq<CategoryScore>): (r: seq<CategoryScore>)
    ensures |r| <= |data|
    ensures forall item :: item in r ==> item in data && item.score > 0
    ensures forall item :: item in data && item.score > 0 ==> item in r
  {
    Filter(data, HasScore)
  }

  /** Filtering splits over a concatenation, so the order of the kept
      entries is their order in the data. */
  lemma ValidDataKeepsOrder(a: seq<CategoryScore>, b: seq<CategoryScore>)
    ensures ValidData(a + b) == ValidData(a) + ValidData(b)
  {
    FilterAppend(a, b, HasScore);
  }

  /** On data sorted by score, highest first (as the analysis returns it),
      the valid entries are a prefix of the data: the zero scores form the
      tail. */
  lemma {:induction false} SortedValidDataIsPrefix(data: seq<CategoryScore>)
    requires SortedDesc(data, CategoryKey)
    ensures ValidData(data) <= data
    decreases |data|
  {
    if |data| > 0 {
      assert SortedDesc(data[1..], CategoryKey);
      SortedValidDataIsPrefix(data[1..]);
      if !HasScore(data[0]) {
        assert forall i :: 0 <= i < |data| ==> data[i].score <= data[0].score;
        assert forall x :: x in data[1..] ==> !HasScore(x);
        assert ValidData(data[1..]) == [];
      }
    }
  }

  /** The colour index `index % COLORS.length`: always inside the palette. */
  function ColorIndex(index: nat): (k: nat)
    ensures k < |Palette|
    ensures index < |Palette| ==> k == index
  {
    index % |Palette|
  }

  /** The colour index repeats every six slices. */
  lemma ColorIndexCycles(index: nat)
    ensures ColorIndex(index + |Palette|) == ColorIndex(index)
  {
  }

  datatype Slice = Slice(category: string, score: int, color: string)

  /** What the chart shows: a placeholder, or one slice per valid entry. */
  datatype ChartView = Placeholder | Pie(slices: seq<Slice>)

  /** The slices of the valid entries, coloured in turn. */
  function Slices(valid: seq<CategoryScore>): (r: seq<Slice>)
    ensures |r| == |valid|
    ensures forall i :: 0 <= i < |r| ==> r[i].category == valid[i].category && r[i].score == valid[i].score
    ensures forall i :: 0 <= i < |r| ==> r[i].color in Palette
    ensures forall i :: 0 <= i < |r| && i < |Palette| ==> r[i].color == Palette[i]
    ensures forall i :: 0 <= i && i + |Palette| < |r| ==> r[i + |Palette|].color == r[i].color
  {
    var r := seq(|valid|, i requires 0 <= i < |valid| => Slice(valid[i].category, valid[i].score, Palette[ColorIndex(i)]));
    assert forall i :: 0 <= i && i + |Palette| < |r| ==> r[i + |Palette|].color == r[i].color by {
      forall i | 0 <= i && i + |Palette| < |r| {
        ColorIndexCycles(i);
      }
    }
    r
  }

  /** Neighbouring slices, and any slices fewer than six apart, have
      different colours. */
  lemma NearbySlicesDiffer(valid: seq<CategoryScore>, i: nat, j: nat)
    requires i < j < |valid| && j - i < |Palette|
    ensures Slices(valid)[i].color != Slices(valid)[j].color
  {
    PaletteDistinct();
    assert ColorIndex(i) != ColorIndex(j);
  }

  /** The chart: the placeholder exactly when no entry has a positive
      score, otherwise a slice for each such entry, in order, each with a
      positive score. */
  function RenderChart(data: seq<CategoryScore>): (v: ChartView)
    ensures v.Placeholder? <==> ValidData(data) == []
    ensures v.Placeholder? <==> forall item :: item in data ==> item.score <= 0
    ensures v.Pie? ==> |v.slices| == |ValidData(data)|
    ensures v.Pie? ==> forall i :: 0 <= i < |v.slices| ==> v.slices[i].score > 0
  {
    var valid := ValidData(data);
    if |valid| > 0 then
      assert valid[0] in valid;
      assert forall i :: 0 <= i < |valid| ==> valid[i] in valid;
      Pie(Slices(valid))
    else Placeholder
  }

  /** The label drawn on a slice: the score and a percent sign. */
  function SliceLabel(score: int): (s: string)
    ensures |s| >= 2 && s[|s| - 1] == '%'
    ensures s[..|s| - 1] == IntToString(score)
  {
    IntToString(score) + "%"
  }
}
