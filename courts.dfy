/** Court recommendations and playability labels derived from the number of COMING responses
    (client/lib/utils/courts.ts). Four players make one doubles court. */
module Courts {
  import opened Text

  const PlayersPerCourt: int := 4

  /** `Math.ceil(n / 4)` on an integer, written as integer arithmetic. */
  function CeilQuarter(n: int): (c: int)
    ensures 4 * c >= n && 4 * (c - 1) < n
  {
    -((-n) / PlayersPerCourt)
  }

  /** `calculateCourts`: 0 players need no court; otherwise `max(1, ceil(n / 4))`. */
  function CalculateCourts(n: int): (c: int)
    ensures n == 0 ==> c == 0
    ensures n > 0 ==> 4 * c >= n && 4 * (c - 1) < n
    ensures n < 0 ==> c == 1
  {
    if n == 0 then 0
    else
      var courts := CeilQuarter(n);
      if courts < 1 then 1 else courts
  }

  /** More players never need fewer courts, and any non-zero count needs a court. */
  lemma CalculateCourtsMonotone(a: int, b: int)
    requires 0 <= a <= b
    ensures CalculateCourts(a) <= CalculateCourts(b)
    ensures b != 0 ==> CalculateCourts(b) >= 1
  {
  }

  /** The values pinned by the unit tests. */
  lemma CalculateCourtsExamples()
    ensures CalculateCourts(0) == 0 && CalculateCourts(1) == 1 && CalculateCourts(4) == 1
    ensures CalculateCourts(5) == 2 && CalculateCourts(8) == 2 && CalculateCourts(9) == 3
    ensures CalculateCourts(12) == 3 && CalculateCourts(-1) == 1 && CalculateCourts(100) == 25
  {
  }

  /** `getCourtsDescription`. */
  function CourtsDescription(n: int): string
  {
    var courts := CalculateCourts(n);
    if n == 0 then "No courts needed"
    else if courts == 1 then
      IntToString(courts) + " court needed for " + IntToString(n) + " player" + (if n == 1 then "" else "s")
    else IntToString(courts) + " courts needed for " + IntToString(n) + " players"
  }

  /** The description by ranges of `n`: one court for 1 to 4 players (and for any negative count),
      "c courts" beyond four; "player" is singular only for exactly one player. */
  lemma CourtsDescriptionCases(n: int)
    ensures n == 0 ==> CourtsDescription(n) == "No courts needed"
    ensures (1 <= n <= 4 || n < 0) ==>
      CourtsDescription(n) == "1 court needed for " + IntToString(n) + (if n == 1 then " player" else " players")
    ensures n > 4 ==>
      CourtsDescription(n) == IntToString(CalculateCourts(n)) + " courts needed for " + IntToString(n) + " players"
    ensures n > 4 ==> CalculateCourts(n) >= 2
  {
    if 1 <= n <= 4 || n < 0 {
      assert IntToString(1) == "1";
      OneCourtText(IntToString(n), n != 1);
    }
  }

  /** The one-court sentence, with the pieces the description joins put together. */
  lemma OneCourtText(p: string, plural: bool)
    ensures "1" + " court needed for " + p + " player" + (if plural then "s" else "")
         == "1 court needed for " + p + (if plural then " players" else " player")
  {
    assert "1" + " court needed for " == "1 court needed for ";
    if plural {
      assert " player" + "s" == " players";
    } else {
      assert " player" + "" == " player";
    }
  }

  datatype PlayabilityLevel = Insufficient | Minimum | Good | Excellent

  datatype Playability = Playability(status: PlayabilityLevel, message: string)

  /** `getPlayabilityStatus`. */
  function PlayabilityStatus(n: int): (p: Playability)
    ensures p.status == Insufficient <==> n < 4
    ensures p.status == Minimum <==> n == 4
    ensures p.status == Good <==> 5 <= n <= 8
    ensures p.status == Excellent <==> n > 8
  {
    if n < 4 then
      Playability(Insufficient,
        "Need " + IntToString(4 - n) + " more player" + (if 4 - n == 1 then "" else "s") + " for doubles")
    else if n == 4 then Playability(Minimum, "Perfect for one doubles game")
    else if n <= 8 then Playability(Good, "Great turnout for multiple games")
    else Playability(Excellent, "Excellent turnout - multiple courts needed")
  }

  /** Below four players the message asks for exactly the missing `4 - n` players. */
  lemma InsufficientMessage(n: int)
    requires n < 4
    ensures PlayabilityStatus(n).message
      == "Need " + NatToString(4 - n) + (if n == 3 then " more player" else " more players") + " for doubles"
  {
    var k := NatToString(4 - n);
    assert "Need " + k + " more player" + (if 4 - n == 1 then "" else "s") + " for doubles"
        == "Need " + k + (if n == 3 then " more player" else " more players") + " for doubles";
  }

  lemma PlayabilityExample()
    ensures PlayabilityStatus(2).message == "Need 2 more players for doubles"
  {
    assert NatToString(2) == "2";
    InsufficientMessage(2);
  }
}
