/** The pure helpers of a career card: the score colour band, the USD to INR
    salary rewrite (`convertToRupees`) and the rank badge. */
module CareerCard {
  import opened Text

  /** `getScoreColor`: the colour class of the bar above a card. */
  function ScoreColor(score: int): (c: string)
    ensures c == "bg-green-500" <==> score >= 80
    ensures c == "bg-blue-500" <==> 60 <= score < 80
    ensures c == "bg-yellow-500" <==> 40 <= score < 60
    ensures c == "bg-gray-500" <==> score < 40
  {
    if score >= 80 then "bg-green-500"
    else if score >= 60 then "bg-blue-500"
    else if score >= 40 then "bg-yellow-500"
    else "bg-gray-500"
  }

  /** The bands from lowest to highest. */
  function ScoreBandLevel(c: string): nat
  {
    if c == "bg-green-500" then 3
    else if c == "bg-blue-500" then 2
    else if c == "bg-yellow-500" then 1
    else 0
  }

  /** A higher score never gets a lower band. */
  lemma ScoreColorMonotone(a: int, b: int)
    requires a <= b
    ensures ScoreBandLevel(ScoreColor(a)) <= ScoreBandLevel(ScoreColor(b))
  {
  }

  /** The rupee sign, U+20B9. */
  const RupeeSign: char := '\U{20B9}'
  /** The US-dollar to rupee rate the card applies. */
  const RupeesPerDollar: nat := 75

  /** The characters of `[0-9,]`. */
  predicate IsAmountChar(c: char)
  {
    IsDigit(c) || c == ','
  }

  /** The length of the longest prefix of `s` made of `[0-9,]`: the greedy
      `+` of the pattern. */
  function RunLength(s: string): (n: nat)
    ensures n <= |s|
    ensures forall i :: 0 <= i < n ==> IsAmountChar(s[i])
    ensures n < |s| ==> !IsAmountChar(s[n])
  {
    if |s| == 0 || !IsAmountChar(s[0]) then 0 else 1 + RunLength(s[1..])
  }

  /** A salary string cut into the matches of `/\$([0-9,]+)/g` (`Amount`,
      holding the text after the '$') and the characters between them. */
  datatype Piece = Plain(c: char) | Amount(run: string)

  /** A match of the pattern starts at the front of `s`. */
  predicate StartsAmount(s: string)
  {
    |s| >= 2 && s[0] == '$' && IsAmountChar(s[1])
  }

  /** What the capture group of the pattern can hold: one or more `[0-9,]`. */
  predicate AmountRun(run: string)
  {
    |run| > 0 && forall c :: c in run ==> IsAmountChar(c)
  }

  predicate RunsWellFormed(ps: seq<Piece>)
  {
    forall p :: p in ps && p.Amount? ==> AmountRun(p.run)
  }

  /** No run could be extended, and a '$' left as text is not followed by
      `[0-9,]`: the scan took every match, each as long as possible. */
  ghost predicate ScanMaximal(ps: seq<Piece>)
  {
    && (forall i :: 0 <= i < |ps| - 1 && ps[i].Amount? ==> !(ps[i + 1].Plain? && IsAmountChar(ps[i + 1].c)))
    && (forall i :: 0 <= i < |ps| - 1 && ps[i] == Plain('$') ==> !(ps[i + 1].Plain? && IsAmountChar(ps[i + 1].c)))
  }

  /** The left-to-right scan of the global pattern: at each position, a
      match if one starts there, otherwise one plain character. */
  function Tokenize(s: string): (ps: seq<Piece>)
    ensures |ps| <= |s|
    ensures |ps| > 0 ==> (ps[0].Amount? <==> StartsAmount(s))
    ensures |ps| > 0 && ps[0].Plain? ==> ps[0].c == s[0]
    ensures |s| > 0 ==> |ps| > 0
    ensures RunsWellFormed(ps)
    decreases |s|
  {
    if |s| == 0 then []
    else if StartsAmount(s) then
      var n := RunLength(s[1..]);
      var run := s[1..1 + n];
      assert forall c :: c in run ==> IsAmountChar(c) by {
        assert forall j :: 0 <= j < n ==> run[j] == s[1..][j];
      }
      [Amount(run)] + Tokenize(s[1 + n..])
    else [Plain(s[0])] + Tokenize(s[1..])
  }

  /** Writes the pieces back out, each amount as '$' and its run. */
  function Untokenize(ps: seq<Piece>): string
  {
    if |ps| == 0 then ""
    else (if ps[0].Plain? then [ps[0].c] else "$" + ps[0].run) + Untokenize(ps[1..])
  }

  /** Writing a piece in front of others. */
  lemma UntokenizeCons(p: Piece, ps: seq<Piece>)
    ensures Untokenize([p] + ps) == (if p.Plain? then [p.c] else "$" + p.run) + Untokenize(ps)
  {
    assert ([p] + ps)[1..] == ps;
  }

  /** The scan loses nothing: writing its pieces back out gives the input. */
  lemma {:induction false} TokenizeRoundTrip(s: string)
    ensures Untokenize(Tokenize(s)) == s
    decreases |s|
  {
    if |s| > 0 {
      if StartsAmount(s) {
        var n := RunLength(s[1..]);
        var run, rest := s[1..1 + n], s[1 + n..];
        TokenizeRoundTrip(rest);
        UntokenizeCons(Amount(run), Tokenize(rest));
        assert s == "$" + run + rest;
      } else {
        TokenizeRoundTrip(s[1..]);
        UntokenizeCons(Plain(s[0]), Tokenize(s[1..]));
        assert s == [s[0]] + s[1..];
      }
    }
  }

  /** The scan takes every match of the pattern, each as long as possible. */
  lemma {:induction false} TokenizeMaximal(s: string)
    ensures ScanMaximal(Tokenize(s))
    decreases |s|
  {
    if |s| > 0 {
      var ps := Tokenize(s);
      if StartsAmount(s) {
        var n := RunLength(s[1..]);
        var rest := s[1 + n..];
        TokenizeMaximal(rest);
        assert ps[1..] == Tokenize(rest);
        assert |rest| > 0 ==> !IsAmountChar(rest[0]);
      } else {
        var rest := s[1..];
        TokenizeMaximal(rest);
        assert ps[1..] == Tokenize(rest);
        if s[0] == '$' && |rest| > 0 {
          assert !IsAmountChar(rest[0]);
        }
      }
    }
  }

  /** The matches of the pattern, without their '$' (`match` with `g`). */
  function Amounts(ps: seq<Piece>): (r: seq<string>)
    ensures |r| <= |ps|
  {
    if |ps| == 0 then []
    else (if ps[0].Amount? then [ps[0].run] else []) + Amounts(ps[1..])
  }

  /** The amounts are exactly the runs of the matched pieces. */
  lemma {:induction false} AmountsAreRuns(ps: seq<Piece>)
    ensures forall a :: a in Amounts(ps) <==> Amount(a) in ps
  {
    if |ps| > 0 {
      AmountsAreRuns(ps[1..]);
      assert ps == [ps[0]] + ps[1..];
    }
  }

  /** `match.replace(/[$,]/g, '')` on a match: the run without its commas. */
  function StripCommas(s: string): (r: string)
    ensures forall c :: c in r <==> c in s && c != ','
  {
    Filter(s, NotComma)
  }

  predicate NotComma(c: char)
  {
    c != ','
  }

  /** Groups of two digits from the right, joined by commas. */
  function GroupPairs(p: string): (r: string)
    ensures |r| == |p| + (if |p| == 0 then 0 else (|p| - 1) / 2)
    ensures |p| > 2 ==> r[|r| - 3..] == "," + p[|p| - 2..]
    decreases |p|
  {
    if |p| <= 2 then p else GroupPairs(p[..|p| - 2]) + "," + p[|p| - 2..]
  }

  /** `toLocaleString('en-IN')` of a whole number: the last three digits,
      then groups of two. */
  function GroupIndian(d: string): (r: string)
    ensures |r| == |d| + IndianCommaCount(|d|)
    ensures |d| <= 3 ==> r == d
    ensures |d| > 3 ==> r[|r| - 4..] == "," + d[|d| - 3..]
  {
    if |d| <= 3 then d else GroupPairs(d[..|d| - 3]) + "," + d[|d| - 3..]
  }

  /** The number of separators the Indian grouping inserts. */
  function IndianCommaCount(n: nat): nat
  {
    if n <= 3 then 0 else (n - 2) / 2
  }

  predicate AllDigits(d: string)
  {
    forall c :: c in d ==> IsDigit(c)
  }

  lemma StripThree(a: string, b: string)
    requires AllDigits(b)
    ensures StripCommas(a + "," + b) == StripCommas(a) + b
  {
    var x := Filter(a, NotComma);
    var y := Filter(",", NotComma);
    var z := Filter(b, NotComma);
    FilterAppend(a + ",", b, NotComma);
    FilterAppend(a, ",", NotComma);
    FilterKeepsAll(b, NotComma);
    assert y == [];
    assert Filter(a + ",", NotComma) == x;
    assert Filter(a + "," + b, NotComma) == x + z;
  }

  /** Removing the separators from pairs-grouped digits gives them back. */
  lemma {:induction false} GroupPairsStrip(p: string)
    requires AllDigits(p)
    ensures StripCommas(GroupPairs(p)) == p
    decreases |p|
  {
    if |p| > 2 {
      var h := p[..|p| - 2];
      var t := p[|p| - 2..];
      assert p == h + t;
      GroupPairsStrip(h);
      StripThree(GroupPairs(h), t);
    } else {
      FilterKeepsAll(p, NotComma);
    }
  }

  lemma {:induction false} GroupPairsChars(p: string)
    requires AllDigits(p)
    ensures forall c :: c in GroupPairs(p) ==> IsAmountChar(c)
    decreases |p|
  {
    if |p| > 2 {
      var h := p[..|p| - 2];
      assert p == h + p[|p| - 2..];
      GroupPairsChars(h);
    }
  }

  /** Removing the separators from the grouped form gives the digits back. */
  lemma GroupIndianStrip(d: string)
    requires AllDigits(d)
    ensures StripCommas(GroupIndian(d)) == d
  {
    if |d| > 3 {
      var h := d[..|d| - 3];
      var t := d[|d| - 3..];
      assert d == h + t;
      GroupPairsStrip(h);
      StripThree(GroupPairs(h), t);
    } else {
      FilterKeepsAll(d, NotComma);
    }
  }

  /** The grouping writes only digits and commas. */
  lemma GroupIndianChars(d: string)
    requires AllDigits(d)
    ensures forall c :: c in GroupIndian(d) ==> IsAmountChar(c)
  {
    if |d| > 3 {
      var h := d[..|d| - 3];
      assert d == h + d[|d| - 3..];
      GroupPairsChars(h);
    }
  }

  /** The digits of a run are digits. */
  lemma StripCommasDigits(run: string)
    requires AmountRun(run)
    ensures AllDigits(StripCommas(run))
  {
  }

  datatype Option<T> = None | Some(value: T)

  /** The value `parseInt` reads from a run once '$' and commas are
      removed, or `None` for NaN (a run of commas only). */
  function ParseRun(run: string): (v: Option<nat>)
    requires AmountRun(run)
    ensures v.None? <==> StripCommas(run) == ""
  {
    var digits := StripCommas(run);
    assert forall i :: 0 <= i < |digits| ==> IsDigit(digits[i]) by {
      assert forall i :: 0 <= i < |digits| ==> digits[i] in digits;
    }
    if |digits| == 0 then None else Some(DigitsValue(digits))
  }

  /** The converted text of one match: the rupee sign and the rupee amount
      in Indian grouping, or "NaN" when the run has no digit. */
  function Rupees(run: string): (r: string)
    requires AmountRun(run)
    ensures |r| > 0 && r[0] == RupeeSign
    ensures ParseRun(run).None? ==> r[1..] == "NaN"
    ensures ParseRun(run).Some? ==> StripCommas(r[1..]) == DecimalDigits(ParseRun(run).value * RupeesPerDollar)
    ensures ParseRun(run).Some? ==> forall c :: c in r[1..] ==> IsAmountChar(c)
  {
    match ParseRun(run)
    case None => [RupeeSign] + "NaN"
    case Some(v) =>
      var d := DecimalDigits(v * RupeesPerDollar);
      assert AllDigits(d) by {
        assert forall c :: c in d ==> exists i :: 0 <= i < |d| && d[i] == c;
      }
      GroupIndianStrip(d);
      GroupIndianChars(d);
      assert ([RupeeSign] + GroupIndian(d))[1..] == GroupIndian(d);
      [RupeeSign] + GroupIndian(d)
  }

  /** Reading the converted amount back gives 75 times the dollar amount. */
  lemma RupeesValue(run: string)
    requires AmountRun(run) && ParseRun(run).Some?
    ensures var digits := StripCommas(Rupees(run)[1..]);
      AllDigits(digits) && DigitsValue(digits) == ParseRun(run).value * RupeesPerDollar
  {
    var n := ParseRun(run).value * RupeesPerDollar;
    var d := DecimalDigits(n);
    DigitsRoundTrip(n);
    assert forall c :: c in d ==> exists i :: 0 <= i < |d| && d[i] == c;
  }

  /** A converted amount holds exactly one rupee sign. */
  lemma RupeesHasOneSign(run: string)
    requires AmountRun(run)
    ensures multiset(Rupees(run))[RupeeSign] == 1
  {
    var r := Rupees(run);
    assert r == [r[0]] + r[1..];
    assert RupeeSign !in r[1..] by {
      if ParseRun(run).None? {
        assert r[1..] == "NaN";
      }
    }
  }

  /** Writes the pieces out with every amount converted: the text between
      amounts is kept, and each amount adds exactly one rupee sign. */
  function RenderRupees(ps: seq<Piece>): (r: string)
    requires RunsWellFormed(ps)
    ensures |Amounts(ps)| == 0 ==> r == Untokenize(ps)
  {
    if |ps| == 0 then ""
    else
      assert ps[0] in ps;
      var rest := RenderRupees(ps[1..]);
      if ps[0].Plain? then [ps[0].c] + rest else Rupees(ps[0].run) + rest
  }

  /** Rendering a piece in front of others. */
  lemma RenderCons(p: Piece, ps: seq<Piece>)
    requires RunsWellFormed([p] + ps)
    ensures RunsWellFormed(ps)
    ensures RenderRupees([p] + ps) == (if p.Plain? then [p.c] else Rupees(p.run)) + RenderRupees(ps)
  {
    assert ([p] + ps)[1..] == ps;
    assert ([p] + ps)[0] == p;
  }

  /** Rendering a plain character in front of others. */
  lemma RenderPlainCons(c: char, ps: seq<Piece>)
    requires RunsWellFormed(ps)
    ensures RunsWellFormed([Plain(c)] + ps)
    ensures RenderRupees([Plain(c)] + ps) == [c] + RenderRupees(ps)
  {
    var qs := [Plain(c)] + ps;
    assert qs[1..] == ps && qs[0] == Plain(c);
    assert RunsWellFormed(qs) by {
      forall p | p in qs && p.Amount? ensures AmountRun(p.run) {
        assert p in ps;
      }
    }
  }

  /** Well-formed pieces stay well-formed when put together. */
  lemma RunsWellFormedAppend(a: seq<Piece>, b: seq<Piece>)
    requires RunsWellFormed(a) && RunsWellFormed(b)
    ensures RunsWellFormed(a + b)
  {
    forall p | p in a + b && p.Amount? ensures AmountRun(p.run) {
      assert p in a || p in b;
    }
  }

  /** Rendering distributes over concatenation: the pieces are written one
      after another, each independently of its neighbours. */
  lemma {:induction false} RenderRupeesAppend(a: seq<Piece>, b: seq<Piece>)
    requires RunsWellFormed(a) && RunsWellFormed(b)
    ensures RunsWellFormed(a + b)
    ensures RenderRupees(a + b) == RenderRupees(a) + RenderRupees(b)
    decreases |a|
  {
    RunsWellFormedAppend(a, b);
    if |a| == 0 {
      assert a + b == b;
    } else {
      var p, rest := a[0], a[1..];
      assert a == [p] + rest;
      assert a + b == [p] + (rest + b);
      RenderCons(p, rest);
      RenderCons(p, rest + b);
      RenderRupeesAppend(rest, b);
    }
  }

  /** A single piece: a plain character is kept, an amount becomes its
      rupee text. */
  lemma RenderRupeesPiece(p: Piece)
    requires p.Amount? ==> AmountRun(p.run)
    ensures RunsWellFormed([p])
    ensures RenderRupees([p]) == if p.Plain? then [p.c] else Rupees(p.run)
  {
    assert [p][1..] == [];
  }

  /** Rendering adds exactly one rupee sign per amount. */
  lemma {:induction false} RenderCountsRupees(ps: seq<Piece>)
    requires RunsWellFormed(ps)
    ensures multiset(RenderRupees(ps))[RupeeSign] == multiset(Untokenize(ps))[RupeeSign] + |Amounts(ps)|
  {
    if |ps| > 0 {
      var p, rest := ps[0], ps[1..];
      assert ps == [p] + rest;
      RenderCons(p, rest);
      UntokenizeCons(p, rest);
      RenderCountsRupees(rest);
      var out := if p.Plain? then [p.c] else Rupees(p.run);
      var back := if p.Plain? then [p.c] else "$" + p.run;
      var added := if p.Amount? then 1 else 0;
      assert multiset(out)[RupeeSign] == multiset(back)[RupeeSign] + added by {
        if p.Amount? {
          RupeesHasOneSign(p.run);
          assert RupeeSign !in back;
        }
      }
      assert |Amounts(ps)| == added + |Amounts(rest)|;
      assert multiset(RenderRupees(ps)) == multiset(out) + multiset(RenderRupees(rest));
      assert multiset(Untokenize(ps)) == multiset(back) + multiset(Untokenize(rest));
    }
  }

  /** `convertToRupees`: the string itself when the pattern finds nothing,
      otherwise every match replaced, left to right, by its rupee text. The
      early return only saves work (rendering would give the same string),
      and the result carries one more rupee sign per dollar amount. */
  function ConvertToRupees(s: string): (r: string)
    ensures |Amounts(Tokenize(s))| == 0 ==> r == s
  {
    var ps := Tokenize(s);
    if |Amounts(ps)| == 0 then s else RenderRupees(ps)
  }

  /** The early return agrees with what the replace loop would give. */
  lemma EarlyReturnAgrees(s: string)
    ensures ConvertToRupees(s) == RenderRupees(Tokenize(s))
  {
    TokenizeRoundTrip(s);
  }

  /** The converted string has one more rupee sign per dollar amount. */
  lemma ConvertCountsRupees(s: string)
    ensures multiset(ConvertToRupees(s))[RupeeSign] == multiset(s)[RupeeSign] + |Amounts(Tokenize(s))|
  {
    EarlyReturnAgrees(s);
    TokenizeRoundTrip(s);
    RenderCountsRupees(Tokenize(s));
  }

  /** The gold, silver and bronze medals, U+1F947 to U+1F949. */
  const GoldMedal: string := "\U{1F947}"
  const SilverMedal: string := "\U{1F948}"
  const BronzeMedal: string := "\U{1F949}"

  /** The rank badge: a medal for the first three places, otherwise '#'
      and the rank. */
  function RankIndicator(rank: int): (r: string)
    ensures |r| >= 1
    ensures rank == 1 <==> r == GoldMedal
    ensures rank == 2 <==> r == SilverMedal
    ensures rank == 3 <==> r == BronzeMedal
    ensures !(1 <= rank <= 3) ==> r[0] == '#' && r[1..] == IntToString(rank)
  {
    if rank == 1 then GoldMedal
    else if rank == 2 then SilverMedal
    else if rank == 3 then BronzeMedal
    else "#" + IntToString(rank)
  }
}
