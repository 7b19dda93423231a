/** The results screen: the rounded percentage, the XP figure it shows (tiered
    differently from the XP actually awarded), the two count-up animations and
    the closing message. `Math.round(x)` is `floor(x + 1/2)`, computed here over
    exact rationals as one integer division. */
module QuizResults {

  import QuizScoring

  /** `Math.round(100 * correct / total)`: the nearest whole percentage, halves
      rounded up. */
  function FinalPercentage(correct: nat, total: nat): (r: int)
    requires total > 0
    ensures 2 * total * r <= 200 * correct + total < 2 * total * (r + 1)
    ensures correct <= total ==> 0 <= r <= 100
    ensures correct == total ==> r == 100
  {
    RoundedPercentageFacts(correct, total);
    (200 * correct + total) / (2 * total)
  }

  lemma RoundedPercentageFacts(correct: nat, total: nat)
    requires total > 0
    ensures var r := (200 * correct + total) / (2 * total);
            && 2 * total * r <= 200 * correct + total < 2 * total * (r + 1)
            && (correct <= total ==> 0 <= r <= 100)
            && (correct == total ==> r == 100)
  {
    var a, b := 200 * correct + total, 2 * total;
    var r := a / b;
    assert b * r + a % b == a && 0 <= a % b < b;
    assert b * (r + 1) == b * r + b;
    if r < 0 {
      assert b * r == b * (r + 1) - b;
      MulNonNegative(b, -r);
    }
    if correct <= total && r > 100 {
      MulNonNegative(b, r - 101);
    }
    if correct == total && r < 100 {
      MulNonNegative(b, 99 - r);
    }
  }

  lemma MulNonNegative(x: int, y: int)
    requires x >= 0 && y >= 0
    ensures x * y >= 0
  {
  }

  /** The XP figure the results screen shows for a rounded percentage: the full
      value at 100, the nearest integer to 80% of it from 70 on (with no floor at
      10), and otherwise the nearest integer to `percentage` percent of it, but
      at least 10. */
  function DisplayedXp(percentage: int, xpValue: int): (r: int)
    ensures percentage >= 100 ==> r == xpValue
    ensures 70 <= percentage < 100 ==> 10 * r <= 8 * xpValue + 5 < 10 * r + 10
    ensures percentage < 70 ==> r >= 10
    ensures percentage < 70 && r > 10 ==> 200 * r <= 2 * xpValue * percentage + 100 < 200 * r + 200
    ensures percentage < 70 && r == 10 ==> 2 * xpValue * percentage + 100 < 2200
  {
    if percentage >= 100 then xpValue
    else if percentage >= 70 then (8 * xpValue + 5) / 10
    else
      var rounded := (2 * xpValue * percentage + 100) / 200;
      if rounded >= 10 then rounded else 10
  }

  /** The shown XP need not be the awarded XP: 6 of 10 on a 50 XP quiz shows 30
      but awards 25, and 199 of 200 rounds to 100% and shows the full value while
      the award is the 80% tier. */
  lemma DisplayedXpDiffersFromAwarded()
    ensures DisplayedXp(FinalPercentage(6, 10), 50) == 30
    ensures QuizScoring.CalculateXp(6, 10, 50) == 25
    ensures DisplayedXp(FinalPercentage(199, 200), 50) == 50
    ensures QuizScoring.CalculateXp(199, 200, 50) == 40
  {
    assert FinalPercentage(6, 10) == 60;
    assert FinalPercentage(199, 200) == 100;
  }

  /** A perfect result shows the same XP it is awarded. */
  lemma PerfectResultShowsAwardedXp(total: nat, xpValue: int)
    requires total > 0
    ensures DisplayedXp(FinalPercentage(total, total), xpValue) == QuizScoring.CalculateXp(total, total, xpValue)
  {
  }

  /** The score count-up: starting from 0, one step per tick while below the
      target. It stops exactly at the target percentage. */
  method ScoreCountUp(finalPercentage: int) returns (shown: int)
    ensures finalPercentage >= 0 ==> shown == finalPercentage
    ensures finalPercentage < 0 ==> shown == 0
  {
    var currentScore := 0;
    shown := 0;
    while currentScore < finalPercentage
      invariant 0 <= currentScore
      invariant finalPercentage >= 0 ==> currentScore <= finalPercentage
      invariant finalPercentage < 0 ==> currentScore == 0
      invariant shown == currentScore
      decreases finalPercentage - currentScore
    {
      currentScore := currentScore + 1;
      shown := currentScore;
    }
  }

  /** Where the XP count-up stops for a target: the least even number not below
      it (0 for a target that is not positive). */
  function XpCountUpEnd(target: int): (r: int)
    ensures target <= 0 ==> r == 0
    ensures target > 0 ==> r % 2 == 0 && target <= r <= target + 1
    ensures target > 0 && target % 2 == 1 ==> r == target + 1
  {
    if target <= 0 then 0 else target + target % 2
  }

  /** The XP count-up: starting from 0, two per tick while below the target, so
      an odd target is overshot by one. */
  method XpCountUp(calculatedXp: int) returns (shown: int)
    ensures shown == XpCountUpEnd(calculatedXp)
  {
    var currentXp := 0;
    shown := 0;
    while currentXp < calculatedXp
      invariant 0 <= currentXp && currentXp % 2 == 0
      invariant calculatedXp > 0 ==> currentXp <= XpCountUpEnd(calculatedXp)
      invariant calculatedXp <= 0 ==> currentXp == 0
      invariant shown == currentXp
      decreases calculatedXp - currentXp
    {
      currentXp := currentXp + 2;
      shown := currentXp;
    }
  }

  datatype Message = MasteredTopic | GreatJob | GoodEffort

  /** The closing message, chosen by the XP figure currently shown. */
  function MessageFor(shownXp: int): (m: Message)
    ensures m == MasteredTopic <==> shownXp >= 150
    ensures m == GreatJob <==> 100 <= shownXp < 150
    ensures m == GoodEffort <==> shownXp < 100
  {
    if shownXp >= 150 then MasteredTopic
    else if shownXp >= 100 then GreatJob
    else GoodEffort
  }

  /** The overshoot can change the message: a 149 XP figure ends its count-up at
      150 and shows the top message, which 149 itself would not. */
  lemma OvershootCanChangeMessage()
    ensures XpCountUpEnd(149) == 150
    ensures MessageFor(XpCountUpEnd(149)) == MasteredTopic && MessageFor(149) == GreatJob
  {
  }
}
