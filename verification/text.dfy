/** ASCII text helpers shared by the engine and the components: lower-casing,
    substring search and joining, as JavaScript's `toLowerCase`, `includes`
    and `join` behave on the ASCII strings the catalog uses. */
module Text {

  /** `toLowerCase` restricted to ASCII: only 'A'..'Z' change. */
  function LowerChar(c: char): (d: char)
    ensures 'A' <= c <= 'Z' ==> 'a' <= d <= 'z' && d as int - c as int == 32
    ensures !('A' <= c <= 'Z') ==> d == c
  {
    if 'A' <= c <= 'Z' then (c as int + 32) as char else c
  }

  function Lower(s: string): (r: string)
    ensures |r| == |s|
    ensures forall i :: 0 <= i < |s| ==> r[i] == LowerChar(s[i])
  {
    seq(|s|, i requires 0 <= i < |s| => LowerChar(s[i]))
  }

  /** Lower-casing twice is the same as lower-casing once. */
  lemma LowerIdempotent(s: string)
    ensures Lower(Lower(s)) == Lower(s)
  {
    assert forall i :: 0 <= i < |s| ==> Lower(Lower(s))[i] == Lower(s)[i];
  }

  /** `needle` occurs in `hay` at position `i`. */
  ghost predicate OccursAt(hay: string, needle: string, i: int)
  {
    0 <= i && i + |needle| <= |hay| && hay[i..i + |needle|] == needle
  }

  /** The declarative meaning of `hay.includes(needle)`. */
  ghost predicate IsSubstring(needle: string, hay: string)
  {
    exists i :: OccursAt(hay, needle, i)
  }

  /** `hay.includes(needle)`, computed by trying every start position. */
  function Contains(hay: string, needle: string): (b: bool)
    ensures b ==> |needle| <= |hay|
    ensures b ==> forall c :: c in needle ==> c in hay
    decreases |hay|
  {
    if needle <= hay then true
    else if |hay| == 0 then false
    else Contains(hay[1..], needle)
  }

  /** The computed search agrees with the declarative definition in both
      directions. */
  lemma {:induction false} ContainsIffSubstring(hay: string, needle: string)
    ensures Contains(hay, needle) <==> IsSubstring(needle, hay)
    decreases |hay|
  {
    if needle <= hay {
      assert OccursAt(hay, needle, 0);
    } else if |hay| > 0 {
      ContainsIffSubstring(hay[1..], needle);
      if Contains(hay[1..], needle) {
        var i :| OccursAt(hay[1..], needle, i);
        assert hay[1..][i..i + |needle|] == hay[i + 1..i + 1 + |needle|];
        assert OccursAt(hay, needle, i + 1);
      }
      if IsSubstring(needle, hay) {
        var i :| OccursAt(hay, needle, i);
        assert hay[1..][i - 1..i - 1 + |needle|] == hay[i..i + |needle|];
        assert OccursAt(hay[1..], needle, i - 1);
      }
    }
  }

  /** A needle longer than the haystack never occurs in it. */
  lemma NotContainsLonger(hay: string, needle: string)
    requires |needle| > |hay|
    ensures !Contains(hay, needle)
  {
    ContainsIffSubstring(hay, needle);
  }

  /** A needle holding a character the haystack lacks never occurs in it. */
  lemma NotContainsMissingChar(hay: string, needle: string, c: char)
    requires c in needle && c !in hay
    ensures !Contains(hay, needle)
  {
    ContainsIffSubstring(hay, needle);
    var k := IndexOf(needle, c);
    forall i
      ensures !OccursAt(hay, needle, i)
    {
      if 0 <= i && i + |needle| <= |hay| {
        assert hay[i..i + |needle|][k] == hay[i + k] != c;
      }
    }
  }

  /** A needle whose first character occurs in the haystack only once,
      and there not followed by the needle's second character, never occurs
      in it. */
  lemma NotContainsLoneChar(hay: string, needle: string, pre: string, post: string)
    requires |needle| >= 2 && hay == pre + [needle[0]] + post
    requires needle[0] !in pre && needle[0] !in post
    requires |post| == 0 || post[0] != needle[1]
    ensures !Contains(hay, needle)
  {
    ContainsIffSubstring(hay, needle);
    forall i
      ensures !OccursAt(hay, needle, i)
    {
      if 0 <= i && i + |needle| <= |hay| {
        assert hay[i..i + |needle|][0] == hay[i];
        if i < |pre| {
          assert hay[i] == pre[i] && pre[i] in pre;
        } else if i > |pre| {
          assert hay[i] == post[i - |pre| - 1] && post[i - |pre| - 1] in post;
        } else {
          assert hay[i..i + |needle|][1] == hay[i + 1] == post[0];
        }
      }
    }
  }

  /** Every string contains itself and the empty string. */
  lemma ContainsSelf(s: string)
    ensures Contains(s, s)
    ensures Contains(s, "")
  {
  }

  /** `parts.join(sep)`. */
  function Join(parts: seq<string>, sep: string): (r: string)
    ensures |parts| == 0 ==> r == ""
    ensures |parts| == 1 ==> r == parts[0]
  {
    if |parts| == 0 then ""
    else if |parts| == 1 then parts[0]
    else parts[0] + sep + Join(parts[1..], sep)
  }

  /** Joining one more part appends the separator and that part, so the
      parts appear in order, separated by `sep`. */
  lemma {:induction false} JoinSnoc(parts: seq<string>, sep: string, p: string)
    requires |parts| > 0
    ensures Join(parts + [p], sep) == Join(parts, sep) + sep + p
    decreases |parts|
  {
    if |parts| > 1 {
      assert (parts + [p])[1..] == parts[1..] + [p];
      JoinSnoc(parts[1..], sep, p);
    } else {
      assert (parts + [p])[1..] == [p];
    }
  }

  /** The length of a join: every part plus a separator between each two. */
  lemma {:induction false} JoinLength(parts: seq<string>, sep: string)
    requires |parts| > 0
    ensures |Join(parts, sep)| == SumLengths(parts) + (|parts| - 1) * |sep|
    decreases |parts|
  {
    if |parts| > 1 {
      JoinLength(parts[1..], sep);
    }
  }

  function SumLengths(parts: seq<string>): nat
  {
    if |parts| == 0 then 0 else |parts[0]| + SumLengths(parts[1..])
  }

  /** The first `n` elements, or all of them when there are fewer
      (`Array.prototype.slice(0, n)`). */
  function Take<T>(s: seq<T>, n: nat): (r: seq<T>)
    ensures |r| == if |s| < n then |s| else n
    ensures r <= s
  {
    if |s| <= n then s else s[..n]
  }

  /** Order-preserving subsequence of the elements satisfying `p`
      (`Array.prototype.filter`). */
  function Filter<T>(s: seq<T>, p: T -> bool): (r: seq<T>)
    ensures |r| <= |s|
    ensures forall x :: x in r ==> x in s && p(x)
    ensures forall x :: x in s && p(x) ==> x in r
  {
    if |s| == 0 then []
    else (if p(s[0]) then [s[0]] else []) + Filter(s[1..], p)
  }

  /** Filtering with a predicate every element satisfies keeps everything. */
  lemma {:induction false} FilterKeepsAll<T>(s: seq<T>, p: T -> bool)
    requires forall x :: x in s ==> p(x)
    ensures Filter(s, p) == s
  {
    if |s| > 0 {
      FilterKeepsAll(s[1..], p);
      assert s == [s[0]] + s[1..];
    }
  }

  /** Filtering with a predicate no element satisfies keeps nothing. */
  lemma {:induction false} FilterDropsAll<T>(s: seq<T>, p: T -> bool)
    requires forall x :: x in s ==> !p(x)
    ensures Filter(s, p) == []
  {
    if |s| > 0 {
      assert s[0] in s;
      assert forall x :: x in s[1..] ==> x in s;
      FilterDropsAll(s[1..], p);
    }
  }

  lemma FilterAppend<T>(a: seq<T>, b: seq<T>, p: T -> bool)
    ensures Filter(a + b, p) == Filter(a, p) + Filter(b, p)
  {
    if |a| == 0 {
      assert a + b == b;
    } else {
      assert (a + b)[1..] == a[1..] + b;
      FilterAppend(a[1..], b, p);
    }
  }

  /** When `t` is `s` mapped through `f` and nothing else maps where `a`
      does, `f(a)` occurs in `t` as often as `a` occurs in `s`. */
  lemma {:induction false} MapCount<A, B>(s: seq<A>, t: seq<B>, f: A -> B, a: A)
    requires |t| == |s| && forall i :: 0 <= i < |s| ==> t[i] == f(s[i])
    requires forall b :: f(b) == f(a) ==> b == a
    ensures multiset(t)[f(a)] == multiset(s)[a]
    decreases |s|
  {
    if |s| > 0 {
      MapCount(s[1..], t[1..], f, a);
      assert s == [s[0]] + s[1..];
      assert t == [t[0]] + t[1..];
    }
  }

  /** The elements of `s` without repeats, each at its first occurrence
      (`[...new Set(s)]`). */
  function Dedup<T(==,!new)>(s: seq<T>): (r: seq<T>)
    ensures |r| <= |s|
    ensures forall x :: x in r <==> x in s
  {
    if |s| == 0 then []
    else
      var init := s[..|s| - 1];
      Dedup(init) + (if s[|s| - 1] in init then [] else [s[|s| - 1]])
  }

  ghost predicate NoDup<T>(s: seq<T>)
  {
    forall i, j :: 0 <= i < j < |s| ==> s[i] != s[j]
  }

  /** Index of the first occurrence of `x` in `s`. */
  function IndexOf<T(==)>(s: seq<T>, x: T): (k: nat)
    requires x in s
    ensures k < |s| && s[k] == x && x !in s[..k]
  {
    if s[0] == x then 0 else 1 + IndexOf(s[1..], x)
  }

  lemma {:induction false} IndexOfPrefix<T>(s: seq<T>, n: nat, x: T)
    requires n <= |s| && x in s[..n]
    ensures IndexOf(s, x) == IndexOf(s[..n], x)
    decreases n
  {
    if s[0] != x {
      assert s[..n][1..] == s[1..][..n - 1];
      IndexOfPrefix(s[1..], n - 1, x);
    }
  }

  /** `Dedup` keeps exactly the elements of `s`, each once, in the order of
      their first occurrences. */
  lemma {:induction false} DedupSpec<T(!new)>(s: seq<T>)
    ensures forall x :: x in Dedup(s) <==> x in s
    ensures NoDup(Dedup(s))
    ensures forall i, j :: 0 <= i < j < |Dedup(s)| ==> IndexOf(s, Dedup(s)[i]) < IndexOf(s, Dedup(s)[j])
    decreases |s|
  {
    if |s| > 0 {
      var init := s[..|s| - 1];
      var last := s[|s| - 1];
      var d := Dedup(init);
      DedupSpec(init);
      assert s == init + [last];
      forall x | x in init
        ensures IndexOf(s, x) == IndexOf(init, x)
      {
        IndexOfPrefix(s, |s| - 1, x);
      }
      if last !in init {
        var r := d + [last];
        assert IndexOf(s, last) == |s| - 1;
        forall i, j | 0 <= i < j < |r|
          ensures IndexOf(s, r[i]) < IndexOf(s, r[j])
        {
          if j < |d| {
            assert r[i] == d[i] && r[j] == d[j];
          } else {
            assert r[i] == d[i] && d[i] in d;
          }
        }
      }
    }
  }

  /** Decimal digit characters. */
  predicate IsDigit(c: char)
  {
    '0' <= c <= '9'
  }

  /** The decimal digits of `n` without leading zeros ("0" for zero), as
      `Number.prototype.toString` prints a non-negative integer. */
  function DecimalDigits(n: nat): (r: string)
    ensures 1 <= |r|
    ensures forall i :: 0 <= i < |r| ==> IsDigit(r[i])
    ensures n > 0 ==> r[0] != '0'
    decreases n
  {
    if n < 10 then [('0' as int + n) as char]
    else DecimalDigits(n / 10) + [('0' as int + n % 10) as char]
  }

  /** The value of a string of decimal digits (leading zeros allowed). */
  function DigitsValue(s: string): (v: nat)
    requires forall i :: 0 <= i < |s| ==> IsDigit(s[i])
  {
    if |s| == 0 then 0
    else
      assert IsDigit(s[|s| - 1]);
      10 * DigitsValue(s[..|s| - 1]) + (s[|s| - 1] as int - '0' as int)
  }

  /** Printing and then reading back a number gives the number. */
  lemma {:induction false} DigitsRoundTrip(n: nat)
    ensures DigitsValue(DecimalDigits(n)) == n
    decreases n
  {
    var d := DecimalDigits(n);
    if n >= 10 {
      DigitsRoundTrip(n / 10);
      assert d[..|d| - 1] == DecimalDigits(n / 10);
    }
  }

  /** Digits without a leading zero (or the single digit "0"): the strings
      `DecimalDigits` prints. */
  predicate Canonical(d: string)
  {
    |d| >= 1 && (forall i :: 0 <= i < |d| ==> IsDigit(d[i])) && (|d| == 1 || d[0] != '0')
  }

  /** Digits that start with a non-zero digit have a positive value. */
  lemma {:induction false} DigitsValuePositive(s: string)
    requires |s| >= 1 && (forall i :: 0 <= i < |s| ==> IsDigit(s[i])) && s[0] != '0'
    ensures DigitsValue(s) > 0
    decreases |s|
  {
    if |s| > 1 {
      DigitsValuePositive(s[..|s| - 1]);
    }
  }

  /** Reading a canonical digit string and printing the value gives the
      string back: with `DigitsRoundTrip`, printing and reading are
      inverse on canonical strings. */
  lemma {:induction false} CanonicalRoundTrip(d: string)
    requires Canonical(d)
    ensures DecimalDigits(DigitsValue(d)) == d
    decreases |d|
  {
    if |d| > 1 {
      var p := d[..|d| - 1];
      assert Canonical(p);
      DigitsValuePositive(p);
      CanonicalRoundTrip(p);
      assert IsDigit(d[|d| - 1]);
    }
  }

  /** An integer in decimal, with a leading '-' when negative (JavaScript's
      template-literal conversion of an integral number). */
  function IntToString(n: int): (r: string)
    ensures 1 <= |r|
    ensures n >= 0 ==> r == DecimalDigits(n)
    ensures n < 0 ==> r[0] == '-' && r[1..] == DecimalDigits(-n)
  {
    if n >= 0 then DecimalDigits(n) else "-" + DecimalDigits(-n)
  }
}
