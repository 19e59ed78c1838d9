/**
 The {POINTS} placeholder of a dialog question (showCustomDialog in
 script.js): when the question contains the placeholder, its first
 occurrence is replaced with the decimal form of the current points.
 */
module Placeholder {

  const PointsTag: string := "{POINTS}"

  predicate IsDigit(c: char) {
    '0' <= c <= '9'
  }

  /** The decimal digits of n, most significant first, with no leading
      zero (the way a JavaScript number that holds a non-negative integer
      prints). */
  function Decimal(n: nat): (r: string)
    ensures |r| > 0
    ensures forall i :: 0 <= i < |r| ==> IsDigit(r[i])
    ensures |r| > 1 ==> r[0] != '0'
    ensures Value(r) == n
    decreases n
  {
    var d := [(n % 10) as char + '0'];
    if n < 10 then d
    else
      var r := Decimal(n / 10) + d;
      assert r[..|r| - 1] == Decimal(n / 10);
      r
  }

  /** The number a string of decimal digits denotes. */
  function Value(s: string): nat
    decreases |s|
  {
    if |s| == 0 then 0
    else
      var c := s[|s| - 1];
      var d := if IsDigit(c) then (c - '0') as nat else 0;
      10 * Value(s[..|s| - 1]) + d
  }

  /** Whether pat occurs in s at position i. */
  predicate OccursAt(s: string, pat: string, i: nat) {
    i + |pat| <= |s| && s[i..i + |pat|] == pat
  }

  /** pat occurs at i and nowhere before. */
  predicate FirstAt(s: string, pat: string, i: nat) {
    OccursAt(s, pat, i) && forall j :: 0 <= j < i ==> !OccursAt(s, pat, j)
  }

  datatype Position = NotFound | At(index: nat)

  /** The first position at or after `from` where pat occurs. */
  function FindFrom(s: string, pat: string, from: nat): (p: Position)
    requires from <= |s|
    ensures p.At? ==> from <= p.index && OccursAt(s, pat, p.index)
    ensures p.At? ==> forall j :: from <= j < p.index ==> !OccursAt(s, pat, j)
    ensures p.NotFound? ==> forall j :: from <= j <= |s| ==> !OccursAt(s, pat, j)
    decreases |s| - from
  {
    if OccursAt(s, pat, from) then At(from)
    else if from == |s| then NotFound
    else FindFrom(s, pat, from + 1)
  }

  /** String.prototype.replace with a string pattern: only the first
      occurrence is replaced; without one the string is returned as is. */
  function ReplaceFirst(s: string, pat: string, rep: string): (r: string)
    ensures (forall j :: 0 <= j <= |s| ==> !OccursAt(s, pat, j)) ==> r == s
    ensures forall i: nat {:trigger FirstAt(s, pat, i)} ::
      FirstAt(s, pat, i) ==> r == s[..i] + rep + s[i + |pat|..]
  {
    match FindFrom(s, pat, 0)
    case NotFound => s
    case At(i) => s[..i] + rep + s[i + |pat|..]
  }

  /** The question text with {POINTS} filled in. */
  function SubstitutePoints(question: string, points: nat): (r: string)
    ensures (forall j :: 0 <= j <= |question| ==> !OccursAt(question, PointsTag, j)) ==> r == question
    ensures forall i: nat {:trigger FirstAt(question, PointsTag, i)} ::
      FirstAt(question, PointsTag, i) ==> r == question[..i] + Decimal(points) + question[i + |PointsTag|..]
  {
    ReplaceFirst(question, PointsTag, Decimal(points))
  }

  /** The game over question shows the score after "High Score: ". */
  lemma GameOverQuestion(points: nat)
    ensures SubstitutePoints("High Score: {POINTS}", points) == "High Score: " + Decimal(points)
    ensures SubstitutePoints("High Score: {POINTS}", 50) == "High Score: 50"
  {
    var q := "High Score: {POINTS}";
    assert OccursAt(q, PointsTag, 12);
    forall j | 0 <= j < 12 ensures !OccursAt(q, PointsTag, j) {
      assert q[j..j + 8][0] == q[j];
    }
    assert FirstAt(q, PointsTag, 12);
    assert q[..12] == "High Score: ";
    assert q[20..] == "";
    assert Decimal(5) == "5";
    assert Decimal(50) == "50";
  }

  /** A question that starts with the tag gets the points in its place. */
  lemma SubstituteAtStart(question: string, points: nat)
    requires |question| >= |PointsTag| && question[..|PointsTag|] == PointsTag
    ensures SubstitutePoints(question, points) == Decimal(points) + question[|PointsTag|..]
  {
    assert OccursAt(question, PointsTag, 0);
    assert FirstAt(question, PointsTag, 0);
    assert question[..0] == [];
  }

  /** Only the first placeholder is filled; a second one stays. */
  lemma OnlyFirstReplaced()
    ensures SubstitutePoints("{POINTS}{POINTS}", 7) == "7{POINTS}"
  {
    var q := "{POINTS}{POINTS}";
    assert q[..8] == PointsTag;
    SubstituteAtStart(q, 7);
    assert q[8..] == PointsTag;
    assert Decimal(7) == "7";
  }

  /** Two different scores never print alike. */
  lemma DecimalInjective(m: nat, n: nat)
    requires Decimal(m) == Decimal(n)
    ensures m == n
  {
  }
}
