/** The Levenshtein distance: the matrix loop, the recursion it computes, and what the distance means. */
module EditDistance {

  function Min(a: nat, b: nat): nat {
    if a < b then a else b
  }

  function Max(a: nat, b: nat): nat {
    if a < b then b else a
  }

  function Cost(x: char, y: char): nat {
    if x == y then 0 else 1
  }

  function Front(s: string): string
    requires s != ""
  {
    s[..|s| - 1]
  }

  function Last(s: string): char
    requires s != ""
  {
    s[|s| - 1]
  }

  /** The distance, by what happens to the last characters. */
  function Distance(a: string, b: string): nat
    decreases |a| + |b|
  {
    if a == "" then |b|
    else if b == "" then |a|
    else Min(Min(Distance(Front(a), b) + 1, Distance(a, Front(b)) + 1),
             Distance(Front(a), Front(b)) + Cost(Last(a), Last(b)))
  }

  /** The distance of the first `i` and the first `j` characters. */
  function Cell(a: string, b: string, i: nat, j: nat): nat
    requires i <= |a| && j <= |b|
  {
    Distance(a[..i], b[..j])
  }

  lemma CellFromNeighbours(a: string, b: string, i: nat, j: nat)
    requires 0 < i <= |a| && 0 < j <= |b|
    ensures Cell(a, b, i, j) ==
            Min(Min(Cell(a, b, i - 1, j) + 1, Cell(a, b, i, j - 1) + 1),
                Cell(a, b, i - 1, j - 1) + Cost(a[i - 1], b[j - 1]))
  {
    assert Front(a[..i]) == a[..i - 1] && Front(b[..j]) == b[..j - 1];
  }

  lemma {:induction false} Borders(a: string, b: string)
    ensures forall i :: 0 <= i <= |a| ==> Cell(a, b, i, 0) == i
    ensures forall j :: 0 <= j <= |b| ==> Cell(a, b, 0, j) == j
    ensures Cell(a, b, |a|, |b|) == Distance(a, b)
  {
    assert a[..|a|] == a && b[..|b|] == b;
  }

  /** `levenshtein`: the matrix is filled row by row with the cells. */
  method Levenshtein(a: string, b: string) returns (d: nat)
    ensures d == Distance(a, b)
  {
    Borders(a, b);
    var matrix := new nat[|a| + 1, |b| + 1]((i, j) => i);
    for j := 1 to |b| + 1
      invariant forall i :: 0 <= i <= |a| ==> matrix[i, 0] == i
      invariant forall k :: 0 <= k < j ==> matrix[0, k] == k
    {
      matrix[0, j] := j;
    }
    for i := 1 to |a| + 1
      invariant forall k :: 0 <= k <= |a| ==> matrix[k, 0] == k
      invariant forall p, q :: 0 <= p < i && 0 <= q <= |b| ==> matrix[p, q] == Cell(a, b, p, q)
    {
      for j := 1 to |b| + 1
        invariant forall k :: 0 <= k <= |a| ==> matrix[k, 0] == k
        invariant forall p, q :: 0 <= p < i && 0 <= q <= |b| ==> matrix[p, q] == Cell(a, b, p, q)
        invariant forall q :: 0 <= q < j ==> matrix[i, q] == Cell(a, b, i, q)
      {
        var cost := if a[i - 1] == b[j - 1] then 0 else 1;
        CellFromNeighbours(a, b, i, j);
        matrix[i, j] := Min(Min(matrix[i - 1, j] + 1, matrix[i, j - 1] + 1), matrix[i - 1, j - 1] + cost);
      }
    }
    return matrix[|a|, |b|];
  }

  // ----- a metric -----

  lemma {:induction false} ZeroIffEqual(a: string, b: string)
    ensures Distance(a, b) == 0 <==> a == b
    decreases |a| + |b|
  {
    if a != "" && b != "" {
      ZeroIffEqual(Front(a), Front(b));
      assert a == Front(a) + [Last(a)] && b == Front(b) + [Last(b)];
    }
  }

  lemma {:induction false} Symmetric(a: string, b: string)
    ensures Distance(a, b) == Distance(b, a)
    decreases |a| + |b|
  {
    if a != "" && b != "" {
      Symmetric(Front(a), b);
      Symmetric(a, Front(b));
      Symmetric(Front(a), Front(b));
    }
  }

  /** Between the difference of the lengths and the longer length. */
  lemma {:induction false} Bounds(a: string, b: string)
    ensures Distance(a, b) <= Max(|a|, |b|)
    ensures |a| <= |b| + Distance(a, b) && |b| <= |a| + Distance(a, b)
    decreases |a| + |b|
  {
    if a != "" && b != "" {
      Bounds(Front(a), b);
      Bounds(a, Front(b));
      Bounds(Front(a), Front(b));
    }
  }

  lemma {:induction false} Triangle(a: string, b: string, c: string)
    ensures Distance(a, c) <= Distance(a, b) + Distance(b, c)
    decreases |a| + |b| + |c|
  {
    if a == "" || c == "" || b == "" {
      Bounds(a, b);
      Bounds(b, c);
      Bounds(a, c);
    } else if Distance(a, b) == Distance(Front(a), b) + 1 {
      Triangle(Front(a), b, c);
    } else if Distance(b, c) == Distance(b, Front(c)) + 1 {
      Triangle(a, b, Front(c));
    } else if Distance(a, b) == Distance(a, Front(b)) + 1 {
      if Distance(b, c) == Distance(Front(b), c) + 1 {
        Triangle(a, Front(b), c);
      } else {
        Triangle(a, Front(b), Front(c));
      }
    } else if Distance(b, c) == Distance(Front(b), c) + 1 {
      Triangle(Front(a), Front(b), c);
    } else {
      Triangle(Front(a), Front(b), Front(c));
    }
  }

  // ----- the shortest script -----

  datatype Edit = Insert(at: nat, c: char) | Delete(at: nat) | Substitute(at: nat, c: char)

  predicate Fits(e: Edit, s: string) {
    if e.Insert? then e.at <= |s| else e.at < |s|
  }

  function Perform(e: Edit, s: string): string
    requires Fits(e, s)
  {
    match e
    case Insert(at, c) => s[..at] + [c] + s[at..]
    case Delete(at) => s[..at] + s[at + 1..]
    case Substitute(at, c) => s[..at] + [c] + s[at + 1..]
  }

  /** Whether a script of edits turns `a` into `b`. */
  predicate Turns(script: seq<Edit>, a: string, b: string) {
    if script == [] then a == b
    else Fits(script[0], a) && Turns(script[1..], Perform(script[0], a), b)
  }

  /** A common ending costs nothing. */
  lemma {:induction false} CommonEnding(a: string, b: string, s: string)
    ensures Distance(a + s, b + s) <= Distance(a, b)
    decreases |s|
  {
    if s == "" {
      assert a + s == a && b + s == b;
    } else {
      CommonEnding(a, b, Front(s));
      assert Front(a + s) == a + Front(s) && Front(b + s) == b + Front(s);
    }
  }

  lemma InsertCosts(p: string, c: char, s: string)
    ensures Distance(p + [c] + s, p + s) <= 1 && Distance(p + s, p + [c] + s) <= 1
  {
    assert Front(p + [c]) == p;
    ZeroIffEqual(p, p);
    CommonEnding(p, p + [c], s);
    CommonEnding(p + [c], p, s);
  }

  lemma SubstituteCosts(p: string, c: char, d: char, s: string)
    ensures Distance(p + [c] + s, p + [d] + s) <= 1
  {
    assert Front(p + [c]) == p && Front(p + [d]) == p;
    ZeroIffEqual(p, p);
    CommonEnding(p + [c], p + [d], s);
  }

  lemma EditCosts(e: Edit, a: string)
    requires Fits(e, a)
    ensures Distance(a, Perform(e, a)) <= 1
  {
    var p := a[..e.at];
    if e.Insert? {
      assert a == p + a[e.at..];
      InsertCosts(p, e.c, a[e.at..]);
    } else {
      var s := a[e.at + 1..];
      assert a == p + [a[e.at]] + s;
      if e.Delete? {
        InsertCosts(p, a[e.at], s);
      } else {
        SubstituteCosts(p, a[e.at], e.c, s);
      }
    }
  }

  /** No script is shorter than the distance. */
  lemma {:induction false} ScriptsAreLong(script: seq<Edit>, a: string, b: string)
    requires Turns(script, a, b)
    ensures |script| >= Distance(a, b)
    decreases |script|
  {
    if script == [] {
      ZeroIffEqual(a, b);
    } else {
      var a' := Perform(script[0], a);
      EditCosts(script[0], a);
      ScriptsAreLong(script[1..], a', b);
      Triangle(a, a', b);
    }
  }

  /** A script that is as short as the distance. */
  function ShortestScript(a: string, b: string): (script: seq<Edit>)
    ensures |script| == Distance(a, b)
    decreases |a| + |b|
  {
    if a == "" && b == "" then []
    else if a != "" && (b == "" || Distance(a, b) == Distance(Front(a), b) + 1)
    then [Delete(|a| - 1)] + ShortestScript(Front(a), b)
    else if b != "" && (a == "" || Distance(a, b) == Distance(a, Front(b)) + 1)
    then ShortestScript(a, Front(b)) + [Insert(|b| - 1, Last(b))]
    else ShortestScript(Front(a), Front(b)) + (if Last(a) == Last(b) then [] else [Substitute(|b| - 1, Last(b))])
  }

  lemma PerformInFront(e: Edit, a: string, tail: string)
    requires Fits(e, a)
    ensures Fits(e, a + tail) && Perform(e, a + tail) == Perform(e, a) + tail
  {
    assert (a + tail)[..e.at] == a[..e.at];
    if e.Insert? {
      assert (a + tail)[e.at..] == a[e.at..] + tail;
    } else {
      assert (a + tail)[e.at + 1..] == a[e.at + 1..] + tail;
    }
  }

  /** A script works in front of any ending. */
  lemma {:induction false} TurnsInFront(script: seq<Edit>, a: string, b: string, tail: string)
    requires Turns(script, a, b)
    ensures Turns(script, a + tail, b + tail)
    decreases |script|
  {
    if script != [] {
      PerformInFront(script[0], a, tail);
      TurnsInFront(script[1..], Perform(script[0], a), b, tail);
    }
  }

  /** A script can be followed by one more edit. */
  lemma {:induction false} TurnsThenEdits(script: seq<Edit>, a: string, b: string, e: Edit)
    requires Turns(script, a, b) && Fits(e, b)
    ensures Turns(script + [e], a, Perform(e, b))
    decreases |script|
  {
    if script == [] {
      assert script + [e] == [e] && [e][1..] == [];
    } else {
      assert (script + [e])[1..] == script[1..] + [e];
      TurnsThenEdits(script[1..], Perform(script[0], a), b, e);
    }
  }

  lemma TurnsThenInserts(script: seq<Edit>, a: string, b: string)
    requires b != "" && Turns(script, a, Front(b))
    ensures Turns(script + [Insert(|b| - 1, Last(b))], a, b)
  {
    var e := Insert(|b| - 1, Last(b));
    assert Perform(e, Front(b)) == b;
    TurnsThenEdits(script, a, Front(b), e);
  }

  lemma SubstituteLast(b: string, x: char)
    requires b != ""
    ensures var e := Substitute(|b| - 1, Last(b)); Fits(e, Front(b) + [x]) && Perform(e, Front(b) + [x]) == b
  {
  }

  lemma TurnsThenSubstitutes(script: seq<Edit>, a: string, b: string)
    requires a != "" && b != "" && Turns(script, Front(a), Front(b))
    ensures Turns(script + (if Last(a) == Last(b) then [] else [Substitute(|b| - 1, Last(b))]), a, b)
  {
    TurnsInFront(script, Front(a), Front(b), [Last(a)]);
    assert a == Front(a) + [Last(a)];
    if Last(a) == Last(b) {
      assert b == Front(b) + [Last(a)];
      assert script + [] == script;
    } else {
      SubstituteLast(b, Last(a));
      TurnsThenEdits(script, a, Front(b) + [Last(a)], Substitute(|b| - 1, Last(b)));
    }
  }

  lemma DeletesThenTurns(script: seq<Edit>, a: string, b: string)
    requires a != "" && Turns(script, Front(a), b)
    ensures Turns([Delete(|a| - 1)] + script, a, b)
  {
    var e := Delete(|a| - 1);
    assert Perform(e, a) == Front(a);
    assert ([e] + script)[1..] == script;
  }

  lemma {:induction false} ShortestScriptTurns(a: string, b: string)
    ensures Turns(ShortestScript(a, b), a, b)
    decreases |a| + |b|
  {
    if a == "" && b == "" {
    } else if a != "" && (b == "" || Distance(a, b) == Distance(Front(a), b) + 1) {
      ShortestScriptTurns(Front(a), b);
      DeletesThenTurns(ShortestScript(Front(a), b), a, b);
    } else if b != "" && (a == "" || Distance(a, b) == Distance(a, Front(b)) + 1) {
      ShortestScriptTurns(a, Front(b));
      TurnsThenInserts(ShortestScript(a, Front(b)), a, b);
    } else {
      ShortestScriptTurns(Front(a), Front(b));
      TurnsThenSubstitutes(ShortestScript(Front(a), Front(b)), a, b);
    }
  }

  /** The distance is the least number of insertions, deletions and substitutions that turn
      one string into the other. */
  lemma DistanceIsShortest(a: string, b: string)
    ensures exists script :: Turns(script, a, b) && |script| == Distance(a, b)
    ensures forall script :: Turns(script, a, b) ==> |script| >= Distance(a, b)
  {
    ShortestScriptTurns(a, b);
    forall script | Turns(script, a, b) ensures |script| >= Distance(a, b) {
      ScriptsAreLong(script, a, b);
    }
  }
}
