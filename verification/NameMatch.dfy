/** Scoring a resolved account name against a profile name, from the tokens of the two names. */
module NameMatch {
  import opened EditDistance
  import Quote

  /** What normalisation leaves: words without spaces. */
  type Token = s: string | s != "" && ' ' !in s witness "a"

  datatype Level = Strong | Medium | Weak | Failed

  datatype Decision = Decision(score: int, level: Level, acceptable: bool)

  function TokenSimilarity(a: Token, b: Token): real {
    if a == b then 1.0
    else if |a| == 1 && a <= b then 0.86
    else if |b| == 1 && b <= a then 0.86
    else
      var closeness := 1.0 - Distance(a, b) as real / Max(|a|, |b|) as real;
      if closeness < 0.0 then 0.0 else closeness
  }

  function LevelForScore(score: int): Level {
    if score >= 95 then Strong else if score >= 80 then Medium else if score >= 55 then Weak else Failed
  }

  /** The best similarity of a token to any resolved token. */
  function Best(p: Token, resolved: seq<Token>): real
    requires resolved != []
  {
    var last := TokenSimilarity(p, resolved[|resolved| - 1]);
    if |resolved| == 1 then last
    else
      var before := Best(p, resolved[..|resolved| - 1]);
      if before < last then last else before
  }

  function SumOfBest(profile: seq<Token>, resolved: seq<Token>): real
    requires resolved != []
  {
    if profile == [] then 0.0
    else SumOfBest(profile[..|profile| - 1], resolved) + Best(profile[|profile| - 1], resolved)
  }

  function Average(profile: seq<Token>, resolved: seq<Token>): real
    requires profile != [] && resolved != []
  {
    SumOfBest(profile, resolved) / |profile| as real
  }

  function JoinWords(tokens: seq<Token>): string {
    if tokens == [] then "" else if |tokens| == 1 then tokens[0] else tokens[0] + " " + JoinWords(tokens[1..])
  }

  predicate AllPresent(profile: seq<Token>, resolved: seq<Token>) {
    forall i :: 0 <= i < |profile| ==> profile[i] in resolved
  }

  function AtLeast(score: int, floor: int): int {
    if score < floor then floor else score
  }

  /** `scoreAccountName`, with its shortcut for equal names and its two floors. */
  function ScoreAccountName(profile: seq<Token>, resolved: seq<Token>): Decision {
    if profile == [] || resolved == [] then Decision(0, Failed, false)
    else if JoinWords(profile) == JoinWords(resolved) then Decision(100, Strong, true)
    else
      var present, extra := AllPresent(profile, resolved), |resolved| > |profile|;
      var average := Quote.RoundHalfUp(Average(profile, resolved) * 100.0);
      var raised := if present && extra then AtLeast(average, 88) else average;
      var score := if present && !extra then AtLeast(raised, 95) else raised;
      var level := LevelForScore(score);
      Decision(score, level, level == Strong || level == Medium)
  }

  // ----- similarities -----

  lemma SimilarityIsOneIffEqual(a: Token, b: Token)
    ensures 0.0 <= TokenSimilarity(a, b) <= 1.0
    ensures TokenSimilarity(a, b) == 1.0 <==> a == b
  {
    ZeroIffEqual(a, b);
    Bounds(a, b);
    var d, m := Distance(a, b) as real, Max(|a|, |b|) as real;
    assert a != b ==> 0.0 < d / m;
  }

  /** A script that turns one token into the other, and than which none is shorter. */
  ghost predicate Shortest(script: seq<Edit>, a: Token, b: Token) {
    Turns(script, a, b) && forall other :: Turns(other, a, b) ==> |other| >= |script|
  }

  /** A token of one letter, with which the other begins. */
  predicate Abbreviates(a: Token, b: Token) {
    |a| == 1 && a[0] == b[0]
  }

  /** The similarity of two tokens is one between equal tokens, 0.86 for an abbreviation, and else one less the number
      of edits that turn the one into the other, per letter of the longer one. */
  lemma SimilarityCountsEdits(a: Token, b: Token, script: seq<Edit>)
    requires Shortest(script, a, b)
    ensures a == b ==> TokenSimilarity(a, b) == 1.0
    ensures a != b && (Abbreviates(a, b) || Abbreviates(b, a)) ==> TokenSimilarity(a, b) == 0.86
    ensures a != b && !Abbreviates(a, b) && !Abbreviates(b, a) ==>
              TokenSimilarity(a, b) == 1.0 - |script| as real / (if |a| > |b| then |a| else |b|) as real
  {
    DistanceIsShortest(a, b);
    assert |script| == Distance(a, b);
    Bounds(a, b);
    Quotient(|script| as real, if |a| > |b| then |a| else |b|);
  }

  lemma {:induction false} BestIsGreatest(p: Token, resolved: seq<Token>)
    requires resolved != []
    ensures forall r :: r in resolved ==> TokenSimilarity(p, r) <= Best(p, resolved)
    ensures exists r :: r in resolved && TokenSimilarity(p, r) == Best(p, resolved)
  {
    var last := resolved[|resolved| - 1];
    if |resolved| > 1 {
      var before := resolved[..|resolved| - 1];
      BestIsGreatest(p, before);
      var r :| r in before && TokenSimilarity(p, r) == Best(p, before);
      assert r in resolved && last in resolved;
      forall t | t in resolved ensures TokenSimilarity(p, t) <= Best(p, resolved) {
        assert t in before || t == last;
      }
    } else {
      assert last in resolved;
    }
  }

  lemma BestIsOneIffPresent(p: Token, resolved: seq<Token>)
    requires resolved != []
    ensures 0.0 <= Best(p, resolved) <= 1.0
    ensures Best(p, resolved) == 1.0 <==> p in resolved
  {
    BestIsGreatest(p, resolved);
    var r :| r in resolved && TokenSimilarity(p, r) == Best(p, resolved);
    SimilarityIsOneIffEqual(p, r);
    SimilarityIsOneIffEqual(p, p);
  }

  lemma {:induction false} SumIsFullIffAllPresent(profile: seq<Token>, resolved: seq<Token>)
    requires resolved != []
    ensures 0.0 <= SumOfBest(profile, resolved) <= |profile| as real
    ensures SumOfBest(profile, resolved) == |profile| as real <==> AllPresent(profile, resolved)
  {
    if profile != [] {
      var before, last := profile[..|profile| - 1], profile[|profile| - 1];
      SumIsFullIffAllPresent(before, resolved);
      BestIsOneIffPresent(last, resolved);
      assert AllPresent(profile, resolved) <==> AllPresent(before, resolved) && last in resolved;
    }
  }

  // ----- the shortcut and the floors -----

  lemma {:induction false} JoinPinsTokens(f: seq<Token>, g: seq<Token>)
    requires JoinWords(f) == JoinWords(g) && f != [] && g != []
    ensures f == g
  {
    var s, t := JoinWords(f), JoinWords(g);
    assert forall i :: 0 <= i < |f[0]| ==> s[i] == f[0][i];
    assert forall i :: 0 <= i < |g[0]| ==> t[i] == g[0][i];
    assert |f| > 1 ==> s[|f[0]|] == ' ';
    assert |g| > 1 ==> t[|g[0]|] == ' ';
    assert |f[0]| == |g[0]|;
    assert f[0] == s[..|f[0]|] && g[0] == t[..|f[0]|];
    if |f| > 1 {
      assert JoinWords(f[1..]) == s[|f[0]| + 1..] && JoinWords(g[1..]) == t[|f[0]| + 1..];
      JoinPinsTokens(f[1..], g[1..]);
      assert f == [f[0]] + f[1..] && g == [g[0]] + g[1..];
    } else {
      assert f == [f[0]] && g == [g[0]];
    }
  }

  /** The decision the plain average alone would give. */
  function PlainDecision(profile: seq<Token>, resolved: seq<Token>): Decision
    requires profile != [] && resolved != []
  {
    var score := Quote.RoundHalfUp(Average(profile, resolved) * 100.0);
    Decision(score, LevelForScore(score), score >= 80)
  }

  lemma AverageRange(profile: seq<Token>, resolved: seq<Token>)
    requires profile != [] && resolved != []
    ensures 0.0 <= Average(profile, resolved) <= 1.0
    ensures AllPresent(profile, resolved) ==> Average(profile, resolved) == 1.0
  {
    SumIsFullIffAllPresent(profile, resolved);
    Quotient(SumOfBest(profile, resolved), |profile|);
  }

  lemma Quotient(sum: real, n: nat)
    requires n > 0 && 0.0 <= sum <= n as real
    ensures 0.0 <= sum / n as real <= 1.0
    ensures sum == n as real ==> sum / n as real == 1.0
  {
  }

  /** The shortcut for equal names and the floors never change the decision of the plain average. */
  lemma ScoreIsPlainAverage(profile: seq<Token>, resolved: seq<Token>)
    requires profile != [] && resolved != []
    ensures ScoreAccountName(profile, resolved) == PlainDecision(profile, resolved)
  {
    AverageRange(profile, resolved);
    if JoinWords(profile) == JoinWords(resolved) {
      JoinPinsTokens(profile, resolved);
      assert AllPresent(profile, resolved);
    }
  }

  function Sum(xs: seq<real>): real {
    if xs == [] then 0.0 else Sum(xs[..|xs| - 1]) + xs[|xs| - 1]
  }

  /** The greatest similarity of a token to any of the resolved ones. */
  ghost predicate Greatest(x: real, p: Token, resolved: seq<Token>) {
    (exists r :: r in resolved && TokenSimilarity(p, r) == x)
    && forall r :: r in resolved ==> TokenSimilarity(p, r) <= x
  }

  lemma {:induction false} SumOfGreatest(profile: seq<Token>, resolved: seq<Token>, best: seq<real>)
    requires resolved != [] && |best| == |profile|
    requires forall i :: 0 <= i < |profile| ==> Greatest(best[i], profile[i], resolved)
    ensures SumOfBest(profile, resolved) == Sum(best)
  {
    if profile != [] {
      var n := |profile| - 1;
      SumOfGreatest(profile[..n], resolved, best[..n]);
      BestIsGreatest(profile[n], resolved);
      assert Greatest(best[n], profile[n], resolved);
      assert Greatest(Best(profile[n], resolved), profile[n], resolved);
    }
  }

  /** The score of two non-empty names is, to the nearest whole number, a hundred times the mean of the greatest
      similarities of the profile's tokens; from 95 it is strong, from 80 medium, from 55 weak, and below that failed;
      it is acceptable from 80. */
  lemma ScoreIsMeanOfGreatest(profile: seq<Token>, resolved: seq<Token>, best: seq<real>)
    requires profile != [] && resolved != [] && |best| == |profile|
    requires forall i :: 0 <= i < |profile| ==> Greatest(best[i], profile[i], resolved)
    ensures var d, mean := ScoreAccountName(profile, resolved), Sum(best) / |profile| as real;
            && -0.5 < d.score as real - 100.0 * mean <= 0.5
            && (d.level == Strong <==> d.score >= 95) && (d.level == Medium <==> 80 <= d.score < 95)
            && (d.level == Weak <==> 55 <= d.score < 80) && (d.level == Failed <==> d.score < 55)
            && (d.acceptable <==> d.score >= 80)
  {
    ScoreIsPlainAverage(profile, resolved);
    SumOfGreatest(profile, resolved, best);
    Quote.RoundsToNearest(Average(profile, resolved) * 100.0);
  }

  /** A name with a letter missing: john smith, resolved as jon smith, scores 88, which is a medium match. */
  lemma MissingLetterIsMedium()
    ensures ScoreAccountName(["john", "smith"], ["jon", "smith"]) == Decision(88, Medium, true)
  {
    OneOfFour("john", "jon", "smith", 2);
  }

  /** One letter of four is missing in the first of two names that have little in common. */
  lemma OneOfFour(p: Token, p': Token, q: Token, at: nat)
    requires |p| == 4 && at < 4 && Perform(Delete(at), p) == p' && |q| == 5
    requires p[3] != q[4] && p[..3] != q[..4] && p != q[..4]
    ensures ScoreAccountName([p, q], [p', q]) == Decision(88, Medium, true)
  {
    OneDeletion(p, p', at);
    TwoEditsApart(p, q);
    TokenFigures(p, p', q);
    GreatestOfTwo(p, q, p');
    ScoreOfTwo([p, q], [p', q], 0.75, 1.0);
    RoundsUpTo(ScoreAccountName([p, q], [p', q]).score, 87.5);
    ScoreRange([p, q], [p', q]);
  }

  lemma ScoreOfTwo(profile: seq<Token>, resolved: seq<Token>, x: real, y: real)
    requires |profile| == 2 && resolved != []
    requires Greatest(x, profile[0], resolved) && Greatest(y, profile[1], resolved)
    ensures -0.5 < ScoreAccountName(profile, resolved).score as real - 50.0 * (x + y) <= 0.5
  {
    TwoGreatest(profile, resolved, x, y);
    Quote.RoundsToNearest(50.0 * (x + y));
    ScoreIsPlainAverage(profile, resolved);
  }

  lemma TwoGreatest(profile: seq<Token>, resolved: seq<Token>, x: real, y: real)
    requires |profile| == 2 && resolved != []
    requires Greatest(x, profile[0], resolved) && Greatest(y, profile[1], resolved)
    ensures Average(profile, resolved) * 100.0 == 50.0 * (x + y)
  {
    SumOfTwo(x, y);
    SumOfGreatest(profile, resolved, [x, y]);
    Halved(SumOfBest(profile, resolved), |profile|);
  }

  lemma Halved(sum: real, n: nat)
    requires n == 2
    ensures sum / n as real * 100.0 == 50.0 * sum
  {
  }

  lemma RoundsUpTo(n: int, x: real)
    requires -0.5 < n as real - x <= 0.5 && x == 87.5
    ensures n == 88
  {
  }

  lemma TokenFigures(p: Token, p': Token, q: Token)
    requires |p| == 4 && |p'| == 3 && |q| == 5 && Distance(p, p') == 1 && Distance(p, q) >= 2
    ensures TokenSimilarity(p, p') == 0.75 && TokenSimilarity(p, q) <= 0.6
  {
  }

  lemma GreatestOfTwo(p: Token, q: Token, p': Token)
    requires TokenSimilarity(p, p') == 0.75 && TokenSimilarity(p, q) <= 0.6
    ensures Greatest(0.75, p, [p', q]) && Greatest(1.0, q, [p', q])
  {
    SimilarityIsOneIffEqual(q, p');
    assert p' in [p', q] && q in [p', q];
  }

  lemma SumOfTwo(x: real, y: real)
    ensures Sum([x, y]) == x + y
  {
    assert [x, y][..1] == [x];
    assert Sum([x]) == Sum([x][..0]) + x;
  }

  lemma OneDeletion(a: string, b: string, at: nat)
    requires a != b && Fits(Delete(at), a) && Perform(Delete(at), a) == b
    ensures Distance(a, b) == 1
  {
    var e := Delete(at);
    assert [e][1..] == [];
    assert Turns([e], a, b);
    DistanceIsShortest(a, b);
    ZeroIffEqual(a, b);
  }

  lemma TwoEditsApart(a: string, b: string)
    requires |a| > 1 && |b| > 1 && Last(a) != Last(b)
    requires Front(a) != b && a != Front(b) && Front(a) != Front(b)
    ensures Distance(a, b) >= 2
  {
    ZeroIffEqual(Front(a), b);
    ZeroIffEqual(a, Front(b));
    ZeroIffEqual(Front(a), Front(b));
  }

  lemma ScoreRange(profile: seq<Token>, resolved: seq<Token>)
    ensures var d := ScoreAccountName(profile, resolved);
            0 <= d.score <= 100 && d.level == LevelForScore(d.score) && (d.acceptable <==> d.score >= 80)
    ensures profile != [] && AllPresent(profile, resolved) ==> ScoreAccountName(profile, resolved).score == 100
  {
    if profile != [] && resolved != [] {
      ScoreIsPlainAverage(profile, resolved);
      AverageRange(profile, resolved);
    } else if profile != [] {
      assert profile[0] !in resolved;
    }
  }

  // ----- permutations and extra tokens -----

  lemma BestGrows(p: Token, r: seq<Token>, r': seq<Token>)
    requires r != [] && r' != [] && forall t :: t in r ==> t in r'
    ensures Best(p, r) <= Best(p, r')
  {
    BestIsGreatest(p, r);
    BestIsGreatest(p, r');
  }

  lemma {:induction false} SumGrows(profile: seq<Token>, r: seq<Token>, r': seq<Token>)
    requires r != [] && r' != [] && forall t :: t in r ==> t in r'
    ensures SumOfBest(profile, r) <= SumOfBest(profile, r')
  {
    if profile != [] {
      SumGrows(profile[..|profile| - 1], r, r');
      BestGrows(profile[|profile| - 1], r, r');
    }
  }

  /** More resolved tokens never lower the score. */
  lemma ScoreGrows(profile: seq<Token>, r: seq<Token>, r': seq<Token>)
    requires forall t :: t in r ==> t in r'
    ensures ScoreAccountName(profile, r).score <= ScoreAccountName(profile, r').score
  {
    ScoreRange(profile, r');
    if profile != [] && r != [] {
      assert r[0] in r';
      ScoreIsPlainAverage(profile, r);
      ScoreIsPlainAverage(profile, r');
      SumGrows(profile, r, r');
      QuotientGrows(SumOfBest(profile, r), SumOfBest(profile, r'), |profile|);
    }
  }

  lemma QuotientGrows(x: real, y: real, n: nat)
    requires n > 0 && x <= y
    ensures x / n as real <= y / n as real
  {
  }

  lemma {:induction false} SumConcat(p: seq<Token>, q: seq<Token>, resolved: seq<Token>)
    requires resolved != []
    ensures SumOfBest(p + q, resolved) == SumOfBest(p, resolved) + SumOfBest(q, resolved)
  {
    if q == [] {
      assert p + q == p;
    } else {
      SumConcat(p, q[..|q| - 1], resolved);
      assert (p + q)[..|p + q| - 1] == p + q[..|q| - 1];
    }
  }

  lemma {:induction false} SumIgnoresOrder(p: seq<Token>, q: seq<Token>, resolved: seq<Token>)
    requires resolved != [] && multiset(p) == multiset(q)
    ensures SumOfBest(p, resolved) == SumOfBest(q, resolved) && |p| == |q|
    decreases |p|
  {
    assert |p| == |multiset(p)| == |multiset(q)| == |q|;
    if p != [] {
      var n := |p| - 1;
      assert p[n] in multiset(q);
      var i :| 0 <= i < |q| && q[i] == p[n];
      SameWithoutOne(p, q, n, i);
      SumIgnoresOrder(p[..n], q[..i] + q[i + 1..], resolved);
      SumWithoutOne(q, i, resolved);
    }
  }

  lemma SameWithoutOne(p: seq<Token>, q: seq<Token>, n: nat, i: nat)
    requires multiset(p) == multiset(q) && n == |p| - 1 && i < |q| && q[i] == p[n]
    ensures multiset(p[..n]) == multiset(q[..i] + q[i + 1..])
  {
    WithoutOne(p, n);
    WithoutOne(q, i);
    assert p[..n] + p[n + 1..] == p[..n];
    assert multiset(p[..n]) == multiset(p) - multiset{p[n]};
    assert multiset(q[..i] + q[i + 1..]) == multiset(q) - multiset{q[i]};
  }

  lemma WithoutOne(q: seq<Token>, i: nat)
    requires i < |q|
    ensures multiset(q) == multiset(q[..i] + q[i + 1..]) + multiset{q[i]}
  {
    assert q == q[..i] + ([q[i]] + q[i + 1..]);
  }

  lemma SumWithoutOne(q: seq<Token>, i: nat, resolved: seq<Token>)
    requires i < |q| && resolved != []
    ensures SumOfBest(q, resolved) == SumOfBest(q[..i] + q[i + 1..], resolved) + Best(q[i], resolved)
  {
    assert q == q[..i] + ([q[i]] + q[i + 1..]);
    SumConcat(q[..i], [q[i]] + q[i + 1..], resolved);
    SumConcat([q[i]], q[i + 1..], resolved);
    SumConcat(q[..i], q[i + 1..], resolved);
  }

  /** The order of either name's tokens does not matter, nor how often a resolved token is repeated. */
  lemma ScoreIgnoresOrder(p: seq<Token>, q: seq<Token>, r: seq<Token>, r': seq<Token>)
    requires multiset(p) == multiset(q) && forall t :: t in r <==> t in r'
    ensures ScoreAccountName(p, r) == ScoreAccountName(q, r')
  {
    assert r' != [] ==> r'[0] in r';
    if r != [] {
      assert r[0] in r';
      SumIgnoresOrder(p, q, r);
      SumGrows(q, r, r');
      SumGrows(q, r', r);
      if p != [] {
        ScoreIsPlainAverage(p, r);
        ScoreIsPlainAverage(q, r');
      }
    }
  }
}
