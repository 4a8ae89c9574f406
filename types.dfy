/**
 * Shared shapes of the planning-poker application: participants, room state,
 * recent-room records, the card decks, and the consensus rule that decides
 * whether a set of revealed votes agrees.
 */
module Types {
  import opened Wrappers
  import opened Numerals

  datatype DeckType = Fibonacci | TShirt | PowersOf2

  datatype Confidence = Low | Medium | High

  /** A participant of a room, as the server stores it. */
  datatype Participant = Participant(
    id: string,
    name: string,
    vote: Option<string>,
    confidence: Option<Confidence>,
    isSpectator: bool)

  /** What the server keeps per room and returns to polling clients. */
  datatype RoomState = RoomState(
    participants: seq<Participant>,
    votesRevealed: bool,
    timerActive: bool,
    currentStory: Option<string>)

  datatype RoomSettings = RoomSettings(
    allowOthersToShowEstimates: bool,
    allowOthersToDeleteEstimates: bool,
    allowOthersToClearUsers: bool,
    showTimer: bool,
    showUserPresence: bool,
    showAverage: bool,
    showMedian: bool,
    autoReveal: bool)

  /** The client-side description of a room, as kept in the recent-rooms list. */
  datatype Room = Room(
    id: string,
    name: string,
    deckType: DeckType,
    timerDuration: Option<nat>,
    createdAt: string,
    settings: Option<RoomSettings>,
    moderatorId: Option<string>)

  /** The cards of each deck, in the order they are offered. */
  function DeckValues(deck: DeckType): seq<string> {
    match deck
    case Fibonacci => ["0", "1", "2", "3", "5", "8", "13", "21", "34", "55", "89", "?"]
    case TShirt => ["XS", "S", "M", "L", "XL", "XXL", "?"]
    case PowersOf2 => ["0", "1", "2", "4", "8", "16", "32", "64", "?"]
  }

  /** A vote that takes part in numeric comparisons: not "?" and a numeral. */
  predicate IsNumericVote(v: string) {
    v != "?" && ParseNat(v).Some?
  }

  function VoteValue(v: string): nat
    requires IsNumericVote(v)
  {
    ParseNat(v).value
  }

  /** The numeric votes, in order, as numbers; "?" and non-numerals are dropped. */
  function NumericValues(votes: seq<string>): (r: seq<nat>)
    ensures |r| <= |votes|
  {
    if |votes| == 0 then []
    else
      var rest := NumericValues(votes[1..]);
      if IsNumericVote(votes[0]) then [VoteValue(votes[0])] + rest else rest
  }

  /**
   * Filtering distributes over concatenation: the kept numbers keep their
   * order and their multiplicity, and each vote contributes its own number
   * or nothing.
   */
  lemma {:induction false} NumericValuesConcat(votes: seq<string>, more: seq<string>)
    ensures NumericValues(votes + more) == NumericValues(votes) + NumericValues(more)
  {
    if |votes| > 0 {
      var head := if IsNumericVote(votes[0]) then [VoteValue(votes[0])] else [];
      var left, right := NumericValues(votes[1..]), NumericValues(more);
      assert (votes + more)[0] == votes[0];
      assert (votes + more)[1..] == votes[1..] + more;
      assert NumericValues(votes + more) == head + NumericValues(votes[1..] + more);
      NumericValuesConcat(votes[1..], more);
      assert NumericValues(votes) == head + left;
      assert head + (left + right) == (head + left) + right;
    } else {
      assert votes + more == more;
    }
  }

  /** A single vote yields its number when it is numeric and nothing otherwise. */
  lemma NumericValuesSingle(v: string)
    ensures NumericValues([v]) == if IsNumericVote(v) then [VoteValue(v)] else []
  {
    assert [v][1..] == [];
  }

  /** The numbers kept are exactly the values of the numeric votes. */
  lemma {:induction false} NumericValuesMembers(votes: seq<string>)
    ensures |NumericValues(votes)| > 0 <==> AnyNumeric(votes)
    ensures forall n :: n in NumericValues(votes) <==> exists v :: v in votes && IsNumericVote(v) && ParseNat(v) == Some(n)
  {
    if |votes| > 0 {
      NumericValuesMembers(votes[1..]);
      assert forall v :: v in votes <==> v == votes[0] || v in votes[1..];
    }
  }

  function MaxOf(ns: seq<nat>): (m: nat)
    requires |ns| > 0
    ensures m in ns && forall i :: 0 <= i < |ns| ==> ns[i] <= m
  {
    if |ns| == 1 then ns[0]
    else
      var m := MaxOf(ns[1..]);
      if ns[0] >= m then ns[0] else m
  }

  function MinOf(ns: seq<nat>): (m: nat)
    requires |ns| > 0
    ensures m in ns && forall i :: 0 <= i < |ns| ==> m <= ns[i]
  {
    if |ns| == 1 then ns[0]
    else
      var m := MinOf(ns[1..]);
      if ns[0] <= m then ns[0] else m
  }

  /**
   * The consensus rule: no votes means no consensus; when no vote is a
   * numeral, every vote must equal the first; otherwise the numeric votes
   * (ignoring "?" and non-numerals) must lie within 2 of each other.
   */
  function CheckConsensus(votes: seq<string>): bool {
    if |votes| == 0 then false
    else
      var numeric := NumericValues(votes);
      if |numeric| == 0 then forall i | 0 <= i < |votes| :: votes[i] == votes[0]
      else MaxOf(numeric) - MinOf(numeric) <= 2
  }

  predicate AnyNumeric(votes: seq<string>) {
    exists v :: v in votes && IsNumericVote(v)
  }

  predicate AllSame(votes: seq<string>) {
    forall a, b :: a in votes && b in votes ==> a == b
  }

  predicate NumericWithinTwo(votes: seq<string>) {
    forall a, b :: a in votes && b in votes && IsNumericVote(a) && IsNumericVote(b) ==> VoteValue(a) <= VoteValue(b) + 2
  }

  /**
   * The consensus rule stated without reference to list positions, minima or
   * maxima: every pair of votes agrees, and when some vote is numeric only the
   * numeric ones are compared, pairwise within 2.
   */
  lemma ConsensusRule(votes: seq<string>)
    ensures CheckConsensus(votes) <==>
      |votes| > 0 && (if AnyNumeric(votes) then NumericWithinTwo(votes) else AllSame(votes))
  {
    if |votes| > 0 {
      NumericValuesMembers(votes);
      var numeric := NumericValues(votes);
      if |numeric| == 0 {
        if forall i | 0 <= i < |votes| :: votes[i] == votes[0] {
          assert AllSame(votes);
        } else {
          var i :| 0 <= i < |votes| && votes[i] != votes[0];
          assert votes[i] in votes && votes[0] in votes;
        }
      } else {
        var hi, lo := MaxOf(numeric), MinOf(numeric);
        if hi - lo <= 2 {
          forall a, b | a in votes && b in votes && IsNumericVote(a) && IsNumericVote(b)
            ensures VoteValue(a) <= VoteValue(b) + 2
          {
            assert VoteValue(a) in numeric && VoteValue(b) in numeric;
          }
        } else {
          var a :| a in votes && IsNumericVote(a) && ParseNat(a) == Some(hi);
          var b :| b in votes && IsNumericVote(b) && ParseNat(b) == Some(lo);
          assert VoteValue(a) > VoteValue(b) + 2;
        }
      }
    }
  }

  /** The verdict depends only on which votes were cast, not on their order. */
  lemma {:induction false} ConsensusIgnoresOrder(votes: seq<string>, shuffled: seq<string>)
    requires multiset(votes) == multiset(shuffled)
    ensures CheckConsensus(votes) == CheckConsensus(shuffled)
  {
    ConsensusRule(votes);
    ConsensusRule(shuffled);
    assert forall v :: v in votes <==> v in shuffled by {
      forall v ensures v in votes <==> v in shuffled {
        assert v in votes <==> v in multiset(votes);
        assert v in shuffled <==> v in multiset(shuffled);
      }
    }
    assert |votes| == |shuffled| by {
      assert |multiset(votes)| == |multiset(shuffled)|;
    }
  }

  /** One vote, or any number of identical votes, is a consensus. */
  lemma IdenticalVotesAgree(votes: seq<string>)
    requires |votes| > 0 && forall i :: 0 <= i < |votes| ==> votes[i] == votes[0]
    ensures CheckConsensus(votes)
  {
    ConsensusRule(votes);
    assert forall v :: v in votes ==> v == votes[0];
  }

  lemma OneDigitNumeral(s: string)
    requires |s| == 1 && IsDigit(s[0])
    ensures ParseNat(s) == Some(DigitValue(s[0]))
  {
    assert IsDigits(s);
    assert DigitsValue(s) == DigitsValue(s[..0]) * 10 + DigitValue(s[0]);
  }

  lemma TwoDigitNumeral(s: string)
    requires |s| == 2 && IsDigit(s[0]) && IsDigit(s[1])
    ensures ParseNat(s) == Some(10 * DigitValue(s[0]) + DigitValue(s[1]))
  {
    assert IsDigits(s);
    assert DigitsValue(s[..1]) == DigitValue(s[0]) by {
      OneDigitNumeral(s[..1]);
    }
  }

  lemma NotNumeral(s: string)
    requires |s| > 0 && !IsDigit(s[0])
    ensures !IsNumericVote(s)
  {
  }

  lemma NumericCons(v: string, rest: seq<string>)
    requires IsNumericVote(v)
    ensures NumericValues([v] + rest) == [VoteValue(v)] + NumericValues(rest)
  {
    assert ([v] + rest)[1..] == rest;
  }

  lemma NumericTriple(a: string, b: string, c: string)
    requires IsNumericVote(a) && IsNumericVote(b) && IsNumericVote(c)
    ensures NumericValues([a, b, c]) == [VoteValue(a), VoteValue(b), VoteValue(c)]
  {
    NumericCons(c, []);
    assert [c] + [] == [c];
    NumericCons(b, [c]);
    assert [b] + [c] == [b, c];
    NumericCons(a, [b, c]);
    assert [a] + [b, c] == [a, b, c];
  }

  lemma ConsensusOnEqualNumbers()
    ensures CheckConsensus(["5", "5", "5"])
  {
    IdenticalVotesAgree(["5", "5", "5"]);
  }

  lemma ConsensusOnCloseNumbers()
    ensures CheckConsensus(["1", "2", "3"])
  {
    OneDigitNumeral("1");
    OneDigitNumeral("2");
    OneDigitNumeral("3");
    NumericTriple("1", "2", "3");
    assert MaxOf([1, 2, 3]) == 3;
    assert MinOf([1, 2, 3]) == 1;
  }

  lemma NoConsensusOnSpreadNumbers()
    ensures !CheckConsensus(["1", "2", "5"])
  {
    OneDigitNumeral("1");
    OneDigitNumeral("2");
    OneDigitNumeral("5");
    NumericTriple("1", "2", "5");
    assert MaxOf([1, 2, 5]) == 5;
    assert MinOf([1, 2, 5]) == 1;
  }

  lemma ConsensusOnLabels()
    ensures !CheckConsensus([])
    ensures CheckConsensus(["XS", "XS"])
    ensures !CheckConsensus(["XS", "S"])
    ensures CheckConsensus(["?", "?"])
  {
    IdenticalVotesAgree(["XS", "XS"]);
    IdenticalVotesAgree(["?", "?"]);
    NotNumeral("XS");
    NotNumeral("S");
    assert NumericValues(["XS", "S"]) == [];
    assert ["XS", "S"][1] != ["XS", "S"][0];
  }

  /** Adjacent numeric cards ascending implies every pair ascending. */
  lemma {:induction false} AscendingFromAdjacent(vs: seq<string>, i: nat, j: nat)
    requires forall k :: 0 <= k < |vs| ==> IsNumericVote(vs[k])
    requires forall k :: 0 <= k < |vs| - 1 ==> VoteValue(vs[k]) < VoteValue(vs[k + 1])
    requires i < j < |vs|
    ensures VoteValue(vs[i]) < VoteValue(vs[j])
    decreases j - i
  {
    if i + 1 < j {
      AscendingFromAdjacent(vs, i + 1, j);
    }
  }

  /** The shape of a numeric deck: ascending numerals followed by "?". */
  lemma NumericDeckWellFormed(vs: seq<string>)
    requires |vs| > 0 && vs[|vs| - 1] == "?"
    requires forall k :: 0 <= k < |vs| - 1 ==> IsNumericVote(vs[k])
    requires forall k :: 0 <= k < |vs| - 2 ==> VoteValue(vs[k]) < VoteValue(vs[k + 1])
    ensures forall i, j :: 0 <= i < j < |vs| ==> vs[i] != vs[j]
    ensures forall i, j :: 0 <= i < j < |vs| && IsNumericVote(vs[i]) && IsNumericVote(vs[j]) ==> VoteValue(vs[i]) < VoteValue(vs[j])
  {
    var nums := vs[..|vs| - 1];
    forall i, j | 0 <= i < j < |vs| - 1
      ensures VoteValue(vs[i]) < VoteValue(vs[j])
    {
      AscendingFromAdjacent(nums, i, j);
    }
  }

  predicate WellFormedDeck(vs: seq<string>) {
    && |vs| > 0 && vs[|vs| - 1] == "?"
    && (forall i, j :: 0 <= i < j < |vs| ==> vs[i] != vs[j])
    && (forall i, j :: 0 <= i < j < |vs| && IsNumericVote(vs[i]) && IsNumericVote(vs[j]) ==> VoteValue(vs[i]) < VoteValue(vs[j]))
  }

  lemma FibonacciDeckWellFormed()
    ensures WellFormedDeck(DeckValues(Fibonacci))
  {
    var vs := DeckValues(Fibonacci);
    OneDigitNumeral("0"); OneDigitNumeral("1"); OneDigitNumeral("2"); OneDigitNumeral("3");
    OneDigitNumeral("5"); OneDigitNumeral("8");
    TwoDigitNumeral("13"); TwoDigitNumeral("21"); TwoDigitNumeral("34"); TwoDigitNumeral("55"); TwoDigitNumeral("89");
    var values: seq<nat> := [0, 1, 2, 3, 5, 8, 13, 21, 34, 55, 89];
    forall k | 0 <= k < |vs| - 1 ensures IsNumericVote(vs[k]) && VoteValue(vs[k]) == values[k] {
    }
    NumericDeckWellFormed(vs);
  }

  lemma PowersOfTwoDeckWellFormed()
    ensures WellFormedDeck(DeckValues(PowersOf2))
  {
    var vs := DeckValues(PowersOf2);
    OneDigitNumeral("0"); OneDigitNumeral("1"); OneDigitNumeral("2"); OneDigitNumeral("4"); OneDigitNumeral("8");
    TwoDigitNumeral("16"); TwoDigitNumeral("32"); TwoDigitNumeral("64");
    var values: seq<nat> := [0, 1, 2, 4, 8, 16, 32, 64];
    forall k | 0 <= k < |vs| - 1 ensures IsNumericVote(vs[k]) && VoteValue(vs[k]) == values[k] {
    }
    NumericDeckWellFormed(vs);
  }

  lemma TShirtDeckWellFormed()
    ensures WellFormedDeck(DeckValues(TShirt))
  {
    var vs := DeckValues(TShirt);
    NotNumeral("XS"); NotNumeral("S"); NotNumeral("M"); NotNumeral("L"); NotNumeral("XL"); NotNumeral("XXL");
    forall i, j | 0 <= i < j < |vs| ensures vs[i] != vs[j] {
      assert |vs[i]| != |vs[j]| || vs[i][0] != vs[j][0] || vs[i][1] != vs[j][1];
    }
  }

  /**
   * Every deck offers each card once, ends with "?", and lists its numeric
   * cards in strictly ascending order.
   */
  lemma DecksWellFormed(deck: DeckType)
    ensures WellFormedDeck(DeckValues(deck))
  {
    match deck
    case Fibonacci => FibonacciDeckWellFormed();
    case PowersOf2 => PowersOfTwoDeckWellFormed();
    case TShirt => TShirtDeckWellFormed();
  }
}
