/**
 * labs/LoopsAndConditionalsLab/Program.cs: three loops that add up the even
 * numbers 2..100, and two letter-grade functions, one written as an if-else
 * chain and one as a switch expression over relational patterns.
 */
module LoopsLab {

  /** 2 + 4 + ... + 2n, the sum of the first n even numbers. */
  function EvenSum(n: nat): nat {
    if n == 0 then 0 else EvenSum(n - 1) + 2 * n
  }

  lemma {:induction false} EvenSumClosedForm(n: nat)
    ensures EvenSum(n) == n * (n + 1)
  {
    if n > 0 {
      EvenSumClosedForm(n - 1);
    }
  }

  /** The three sums all equal 2550. */
  lemma EvenSumTo100()
    ensures EvenSum(50) == 2550
  {
    EvenSumClosedForm(50);
  }

  /** SumWithFor: the counted loop over i = 2, 4, ..., 100. */
  method SumWithFor() returns (sum: int)
    ensures sum == EvenSum(50) == 2550
  {
    sum := 0;
    for k := 0 to 50
      invariant sum == EvenSum(k)
    {
      var i := 2 + 2 * k;
      sum := sum + i;
    }
    EvenSumTo100();
  }

  /** SumWithWhile: i starts at 2 and steps by 2 while it is at most 100. */
  method SumWithWhile() returns (sum: int)
    ensures sum == EvenSum(50) == 2550
  {
    sum := 0;
    var i := 2;
    while i <= 100
      invariant 2 <= i <= 102 && i % 2 == 0
      invariant sum == EvenSum(i / 2 - 1)
      decreases 102 - i
    {
      sum := sum + i;
      i := i + 2;
    }
    EvenSumTo100();
  }

  /** SumWithForEach: fills a 50-element array with (i+1)*2, then adds its elements. */
  method SumWithForEach() returns (sum: int)
    ensures sum == EvenSum(50) == 2550
  {
    sum := 0;
    var evenNumbers := new int[50];
    for i := 0 to 50
      invariant forall k :: 0 <= k < i ==> evenNumbers[k] == (k + 1) * 2
    {
      evenNumbers[i] := (i + 1) * 2;
    }
    for j := 0 to evenNumbers.Length
      invariant sum == EvenSum(j)
    {
      sum := sum + evenNumbers[j];
    }
    EvenSumTo100();
  }

  /** ifElse_GetLetterGrade: the thresholds 90, 80, 70 and 60, tried from the top. */
  function IfElseGrade(score: int): (r: char)
    ensures r == 'A' <==> score >= 90
    ensures r == 'B' <==> 80 <= score < 90
    ensures r == 'C' <==> 70 <= score < 80
    ensures r == 'D' <==> 60 <= score < 70
    ensures r == 'F' <==> score < 60
  {
    if score >= 90 then 'A'
    else if score >= 80 then 'B'
    else if score >= 70 then 'C'
    else if score >= 60 then 'D'
    else 'F'
  }

  /** The arms of switch_GetLetterGrade: a lower bound and its grade, in source order. */
  const GradeArms: seq<(int, char)> := [(90, 'A'), (80, 'B'), (70, 'C'), (60, 'D')]

  /** A switch expression over `>= bound` patterns: the first arm that matches, else the discard arm. */
  function FirstArm(score: int, arms: seq<(int, char)>, otherwise: char): (r: char)
    ensures r == otherwise || exists k :: 0 <= k < |arms| && r == arms[k].1
  {
    if arms == [] then otherwise
    else if score >= arms[0].0 then arms[0].1
    else FirstArm(score, arms[1..], otherwise)
  }

  /** switch_GetLetterGrade. */
  function SwitchGrade(score: int): char {
    FirstArm(score, GradeArms, 'F')
  }

  /** The two grade functions agree on every score. */
  lemma GradesAgree(score: int)
    ensures SwitchGrade(score) == IfElseGrade(score)
  {
    var a0 := GradeArms;
    var a1 := [(80, 'B'), (70, 'C'), (60, 'D')];
    var a2 := [(70, 'C'), (60, 'D')];
    var a3 := [(60, 'D')];
    assert a0[1..] == a1 && a1[1..] == a2 && a2[1..] == a3 && a3[1..] == [];
    if score < 90 {
      assert FirstArm(score, a0, 'F') == FirstArm(score, a1, 'F');
      if score < 80 {
        assert FirstArm(score, a1, 'F') == FirstArm(score, a2, 'F');
        if score < 70 {
          assert FirstArm(score, a2, 'F') == FirstArm(score, a3, 'F');
          if score < 60 {
            assert FirstArm(score, a3, 'F') == FirstArm(score, [], 'F');
          }
        }
      }
    }
  }
}
