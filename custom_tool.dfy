/** The `roll_dice` tool of the custom-tool experiment. The random source
    `rand.Intn` is an oracle: the sequence of values it answers, in call order. */
module CustomTool {

  datatype RollDiceInput = RollDiceInput(numDice: int, sides: int)

  datatype RollDiceOutput = RollDiceOutput(rolls: seq<int>, total: int)

  const DefaultNumDice: int := 1
  const DefaultSides: int := 6

  /** The number of dice actually rolled: a non-positive request means one die. */
  function EffectiveNumDice(numDice: int): (r: int)
    ensures r >= 1
    ensures numDice > 0 ==> r == numDice
    ensures numDice <= 0 ==> r == DefaultNumDice
  {
    if numDice <= 0 then DefaultNumDice else numDice
  }

  /** The number of sides actually used: a non-positive request means six. */
  function EffectiveSides(sides: int): (r: int)
    ensures r >= 1
    ensures sides > 0 ==> r == sides
    ensures sides <= 0 ==> r == DefaultSides
  {
    if sides <= 0 then DefaultSides else sides
  }

  /** The sum of a sequence, from the right as the loop accumulates it. */
  function Sum(s: seq<int>): int
  {
    if s == [] then 0 else Sum(s[..|s| - 1]) + s[|s| - 1]
  }

  /** What `rand.Intn(sides)` may answer for each of the first `n` calls. */
  predicate ValidDraws(draws: seq<int>, n: int, sides: int)
  {
    n <= |draws| && forall k :: 0 <= k < n ==> 0 <= draws[k] < sides
  }

  /** The tool handler: normalise the input, roll each die and add up the total. */
  method RollDice(input: RollDiceInput, draws: seq<int>) returns (output: RollDiceOutput)
    requires ValidDraws(draws, EffectiveNumDice(input.numDice), EffectiveSides(input.sides))
    ensures input.numDice <= 0 ==> |output.rolls| == 1
    ensures input.numDice > 0 ==> |output.rolls| == input.numDice
    ensures forall k :: 0 <= k < |output.rolls| ==> output.rolls[k] == draws[k] + 1
    ensures forall k :: 0 <= k < |output.rolls| ==> 1 <= output.rolls[k] <= EffectiveSides(input.sides)
    ensures output.total == Sum(output.rolls)
    ensures EffectiveNumDice(input.numDice) <= output.total
    ensures output.total <= EffectiveNumDice(input.numDice) * EffectiveSides(input.sides)
  {
    var numDice, sides := input.numDice, input.sides;
    if numDice <= 0 {
      numDice := DefaultNumDice;
    }
    if sides <= 0 {
      sides := DefaultSides;
    }
    var rolls := new int[numDice];
    var total := 0;
    for i := 0 to numDice
      invariant forall k :: 0 <= k < i ==> rolls[k] == draws[k] + 1
      invariant total == Sum(rolls[..i])
    {
      var roll := draws[i] + 1;
      rolls[i] := roll;
      assert rolls[..i + 1][..i] == rolls[..i];
      total := total + roll;
    }
    assert rolls[..numDice] == rolls[..];
    SumBounds(rolls[..], 1, sides);
    output := RollDiceOutput(rolls[..], total);
  }

  /** A sum of values in [lo, hi] lies in [|s| * lo, |s| * hi]. */
  lemma {:induction false} SumBounds(s: seq<int>, lo: int, hi: int)
    requires forall k :: 0 <= k < |s| ==> lo <= s[k] <= hi
    ensures |s| * lo <= Sum(s) <= |s| * hi
  {
    if s != [] {
      var init := s[..|s| - 1];
      assert forall k :: 0 <= k < |init| ==> init[k] == s[k];
      SumBounds(init, lo, hi);
      assert |s| * lo == |init| * lo + lo && |s| * hi == |init| * hi + hi;
    }
  }
}
