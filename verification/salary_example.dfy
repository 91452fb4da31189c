/** The salary rewrite worked through on the software engineer's range:
    "$70,000 - $150,000" becomes "₹52,50,000 - ₹1,12,50,000". */
module SalaryExample {
  import opened Text
  import opened CareerCard
  import CareerData

  /** Reading one more digit multiplies by ten and adds it. */
  lemma DigitsValueSnoc(s: string, c: char)
    requires forall i :: 0 <= i < |s| ==> IsDigit(s[i])
    requires IsDigit(c)
    ensures DigitsValue(s + [c]) == 10 * DigitsValue(s) + (c as int - '0' as int)
  {
    assert (s + [c])[..|s|] == s;
  }

  /** Removing commas, one character at a time from the front. */
  lemma StripCommasCons(c: char, s: string)
    ensures StripCommas([c] + s) == (if c == ',' then [] else [c]) + StripCommas(s)
  {
    assert ([c] + s)[1..] == s;
  }

  /** Removing the commas of digits, a comma and three digits leaves the
      digits. */
  lemma StripGroup(a: string, b: string)
    requires AllDigits(a) && AllDigits(b)
    ensures StripCommas(a + "," + b) == a + b
  {
    StripThree(a, b);
    FilterKeepsAll(a, NotComma);
  }

  lemma StripSeventyThousand(run: string)
    requires run == "70,000"
    ensures StripCommas(run) == "70000"
  {
    var a, b := run[..2], run[3..];
    assert run == a + "," + b;
    StripGroup(a, b);
  }

  lemma SeventyThousand(s: string)
    requires s == "70000"
    ensures DigitsValue(s) == 70000
  {
    var d0: string := [];
    var d1 := d0 + ['7'];
    var d2 := d1 + ['0'];
    var d3 := d2 + ['0'];
    var d4 := d3 + ['0'];
    var d5 := d4 + ['0'];
    DigitsValueSnoc(d0, '7');
    DigitsValueSnoc(d1, '0');
    DigitsValueSnoc(d2, '0');
    DigitsValueSnoc(d3, '0');
    DigitsValueSnoc(d4, '0');
    assert d5 == s;
  }

  /** Printing the product gives the digits read from it. */
  lemma FiftyTwoLakhFiftyThousandPrinted(s: string)
    requires s == "5250000"
    ensures DecimalDigits(5250000) == s
  {
    FiftyTwoLakhFiftyThousand(s);
    CanonicalRoundTrip(s);
  }

  lemma FiftyTwoLakhFiftyThousand(s: string)
    requires s == "5250000"
    ensures DigitsValue(s) == 5250000
  {
    var d0: string := [];
    var d1 := d0 + ['5'];
    var d2 := d1 + ['2'];
    var d3 := d2 + ['5'];
    var d4 := d3 + ['0'];
    var d5 := d4 + ['0'];
    var d6 := d5 + ['0'];
    var d7 := d6 + ['0'];
    DigitsValueSnoc(d0, '5');
    DigitsValueSnoc(d1, '2');
    DigitsValueSnoc(d2, '5');
    DigitsValueSnoc(d3, '0');
    DigitsValueSnoc(d4, '0');
    DigitsValueSnoc(d5, '0');
    DigitsValueSnoc(d6, '0');
    assert d7 == s;
  }

  lemma GroupFiftyTwoLakh(d: string)
    requires d == "5250000"
    ensures GroupIndian(d) == "52,50,000"
  {
    var head := d[..4];
    assert head == "5250";
    assert d[4..] == "000";
    assert head[..2] == "52" && head[2..] == "50";
    assert GroupPairs(head) == "52" + "," + "50";
  }

  lemma RupeesSeventyThousand(run: string)
    requires run == "70,000"
    ensures AmountRun(run)
    ensures Rupees(run) == [RupeeSign] + "52,50,000"
  {
    StripSeventyThousand(run);
    SeventyThousand(StripCommas(run));
    FiftyTwoLakhFiftyThousandPrinted("5250000");
    GroupFiftyTwoLakh("5250000");
  }

  lemma StripHundredFiftyThousand(run: string)
    requires run == "150,000"
    ensures StripCommas(run) == "150000"
  {
    var a, b := run[..3], run[4..];
    assert run == a + "," + b;
    StripGroup(a, b);
  }

  lemma HundredFiftyThousand(s: string)
    requires s == "150000"
    ensures DigitsValue(s) == 150000
  {
    var d0: string := [];
    var d1 := d0 + ['1'];
    var d2 := d1 + ['5'];
    var d3 := d2 + ['0'];
    var d4 := d3 + ['0'];
    var d5 := d4 + ['0'];
    var d6 := d5 + ['0'];
    DigitsValueSnoc(d0, '1');
    DigitsValueSnoc(d1, '5');
    DigitsValueSnoc(d2, '0');
    DigitsValueSnoc(d3, '0');
    DigitsValueSnoc(d4, '0');
    DigitsValueSnoc(d5, '0');
    assert d6 == s;
  }

  /** Printing the product gives the digits read from it. */
  lemma OneCroreTwelveLakhFiftyThousandPrinted(s: string)
    requires s == "11250000"
    ensures DecimalDigits(11250000) == s
  {
    OneCroreTwelveLakhFiftyThousand(s);
    CanonicalRoundTrip(s);
  }

  lemma OneCroreTwelveLakhFiftyThousand(s: string)
    requires s == "11250000"
    ensures DigitsValue(s) == 11250000
  {
    var d0: string := [];
    var d1 := d0 + ['1'];
    var d2 := d1 + ['1'];
    var d3 := d2 + ['2'];
    var d4 := d3 + ['5'];
    var d5 := d4 + ['0'];
    var d6 := d5 + ['0'];
    var d7 := d6 + ['0'];
    var d8 := d7 + ['0'];
    DigitsValueSnoc(d0, '1');
    DigitsValueSnoc(d1, '1');
    DigitsValueSnoc(d2, '2');
    DigitsValueSnoc(d3, '5');
    DigitsValueSnoc(d4, '0');
    DigitsValueSnoc(d5, '0');
    DigitsValueSnoc(d6, '0');
    DigitsValueSnoc(d7, '0');
    assert d8 == s;
  }

  lemma GroupOneCrore(d: string)
    requires d == "11250000"
    ensures GroupIndian(d) == "1,12,50,000"
  {
    var head := d[..5];
    assert head == "11250";
    assert d[5..] == "000";
    var h2 := head[..3];
    assert h2 == "112" && head[3..] == "50";
    assert h2[..1] == "1" && h2[1..] == "12";
    assert GroupPairs(h2) == "1" + "," + "12";
    assert GroupPairs(head) == "1,12" + "," + "50";
  }

  lemma RupeesHundredFiftyThousand(run: string)
    requires run == "150,000"
    ensures AmountRun(run)
    ensures Rupees(run) == [RupeeSign] + "1,12,50,000"
  {
    StripHundredFiftyThousand(run);
    HundredFiftyThousand(StripCommas(run));
    OneCroreTwelveLakhFiftyThousandPrinted("11250000");
    GroupOneCrore("11250000");
  }

  /** The greedy run is exactly the `[0-9,]` characters up to the first
      other one. */
  lemma {:induction false} RunLengthIs(t: string, n: nat)
    requires n <= |t|
    requires forall i :: 0 <= i < n ==> IsAmountChar(t[i])
    requires n == |t| || !IsAmountChar(t[n])
    ensures RunLength(t) == n
    decreases n
  {
    if n > 0 {
      RunLengthIs(t[1..], n - 1);
    }
  }

  /** The scan at a '$' followed by a whole run: one match, then the rest. */
  lemma ScanAmount(run: string, rest: string)
    requires AmountRun(run)
    requires |rest| == 0 || !IsAmountChar(rest[0])
    ensures Tokenize("$" + run + rest) == [Amount(run)] + Tokenize(rest)
  {
    var s := "$" + run + rest;
    assert s[1..] == run + rest;
    assert forall i :: 0 <= i < |run| ==> s[1..][i] == run[i] && run[i] in run;
    RunLengthIs(s[1..], |run|);
    assert s[1..1 + |run|] == run;
    assert s[1 + |run|..] == rest;
  }

  /** The scan at a character that starts no match. */
  lemma ScanPlain(c: char, rest: string)
    requires c != '$' || |rest| == 0 || !IsAmountChar(rest[0])
    ensures Tokenize([c] + rest) == [Plain(c)] + Tokenize(rest)
  {
    assert ([c] + rest)[1..] == rest;
  }

  /** The pieces the scan finds in "$low - $high". */
  function RangePieces(low: string, high: string): seq<Piece>
  {
    [Amount(low), Plain(' '), Plain('-'), Plain(' '), Amount(high)]
  }

  /** The scan of the separator of a range, in front of any text. */
  lemma ScanSeparatorThen(t: string)
    ensures Tokenize(" - " + t) == [Plain(' '), Plain('-'), Plain(' ')] + Tokenize(t)
  {
    var t2 := ['-'] + ([' '] + t);
    assert " - " + t == [' '] + t2;
    ScanPlain(' ', t);
    ScanPlain('-', [' '] + t);
    ScanPlain(' ', t2);
  }

  lemma ScanRange(low: string, high: string)
    requires AmountRun(low) && AmountRun(high)
    ensures Tokenize("$" + low + " - $" + high) == RangePieces(low, high)
  {
    var t := "$" + high;
    assert Tokenize(t) == [Amount(high)] by {
      ScanAmount(high, "");
      assert t == "$" + high + "";
    }
    ScanSeparatorThen(t);
    assert "$" + low + " - $" + high == "$" + low + (" - " + t);
    ScanAmount(low, " - " + t);
  }

  lemma RenderRange(low: string, high: string)
    requires AmountRun(low) && AmountRun(high)
    ensures RunsWellFormed(RangePieces(low, high))
    ensures RenderRupees(RangePieces(low, high)) == Rupees(low) + " - " + Rupees(high)
  {
    var q0 := [Amount(low)];
    var q1 := [Plain(' '), Plain('-'), Plain(' '), Amount(high)];
    assert RangePieces(low, high) == q0 + q1;
    RenderRupeesPiece(Amount(low));
    RenderSeparator(high, q1);
    RenderRupeesAppend(q0, q1);
    ConcatAssoc(Rupees(low), " - ", Rupees(high));
  }

  /** Joining texts does not depend on grouping. */
  lemma ConcatAssoc(a: string, b: string, c: string)
    ensures a + (b + c) == a + b + c
  {
  }

  /** The separator of a range, in front of any pieces. */
  lemma RenderSeparatorThen(ps: seq<Piece>)
    requires RunsWellFormed(ps)
    ensures RunsWellFormed([Plain(' '), Plain('-'), Plain(' ')] + ps)
    ensures RenderRupees([Plain(' '), Plain('-'), Plain(' ')] + ps) == " - " + RenderRupees(ps)
  {
    var sep := [Plain(' '), Plain('-'), Plain(' ')];
    assert RunsWellFormed(sep) && RenderRupees(sep) == " - " by {
      RenderRupeesPiece(Plain(' '));
      RenderPlainCons('-', [Plain(' ')]);
      RenderPlainCons(' ', [Plain('-'), Plain(' ')]);
    }
    RenderRupeesAppend(sep, ps);
  }

  /** The separator and the upper amount of a range. */
  lemma RenderSeparator(high: string, q1: seq<Piece>)
    requires AmountRun(high) && q1 == [Plain(' '), Plain('-'), Plain(' '), Amount(high)]
    ensures RunsWellFormed(q1)
    ensures RenderRupees(q1) == " - " + Rupees(high)
  {
    assert q1 == [Plain(' '), Plain('-'), Plain(' ')] + [Amount(high)];
    RenderRupeesPiece(Amount(high));
    RenderSeparatorThen([Amount(high)]);
  }

  /** A range of two dollar amounts becomes a range of two rupee amounts
      around the same separator. */
  lemma RangeConverts(low: string, high: string)
    requires AmountRun(low) && AmountRun(high)
    ensures ConvertToRupees("$" + low + " - $" + high) == Rupees(low) + " - " + Rupees(high)
  {
    ScanRange(low, high);
    RenderRange(low, high);
    assert Amounts(RangePieces(low, high)) != [] by {
      assert Amounts(RangePieces(low, high)) == [low] + Amounts(RangePieces(low, high)[1..]);
    }
  }

  /** The salary range the catalog gives the software engineer. */
  lemma SoftwareEngineerRange()
    ensures CareerData.SoftwareEngineer.salaryRange == "$70,000 - $150,000"
  {
  }

  /** The two amounts of that range, written back around the separator. */
  lemma RangeText(low: string, high: string)
    requires low == "70,000" && high == "150,000"
    ensures "$" + low + " - $" + high == "$70,000 - $150,000"
  {
  }

  /** The two amounts of "$70,000 - $150,000", converted. */
  lemma ConvertRangeAmounts(low: string, high: string)
    requires low == "70,000" && high == "150,000"
    ensures ConvertToRupees("$" + low + " - $" + high) == [RupeeSign] + "52,50,000" + " - " + [RupeeSign] + "1,12,50,000"
  {
    RupeesSeventyThousand(low);
    RupeesHundredFiftyThousand(high);
    RangeConverts(low, high);
  }

  /** `convertToRupees("$70,000 - $150,000")`, the software engineer's
      salary range, gives "₹52,50,000 - ₹1,12,50,000". */
  lemma ConvertRange(low: string, high: string)
    requires low == "70,000" && high == "150,000"
    ensures CareerData.SoftwareEngineer.salaryRange == "$" + low + " - $" + high
    ensures ConvertToRupees("$" + low + " - $" + high) == [RupeeSign] + "52,50,000" + " - " + [RupeeSign] + "1,12,50,000"
  {
    ConvertRangeAmounts(low, high);
    SoftwareEngineerRange();
    RangeText(low, high);
  }
}
