/**
 * A model of the expression decoder that serves as the genetic engine's
 * client: a chromosome is cut into four-bit lumps, the lumps are recognised
 * as an alternating number / operator / ... / number expression, the
 * expression is reduced strictly from the left, and the value is turned into
 * a fitness score for a target number.
 *
 * Arithmetic is exact (`real`); the original uses machine floats.
 */
module Expressions {

  datatype Operator = Plus | Minus | Times | DivideBy

  datatype Token = Number(value: real) | Symbol(op: Operator)

  /** Evaluation either yields a value or fails reading the first element of an empty list. */
  datatype Result<T> = Ok(value: T) | IndexError

  /** A legend: the lumps that spell digits and the lumps that spell operators. */
  datatype Legend = Legend(numbers: map<string, int>, symbols: map<string, Operator>)

  /** The decoder's legend: ten lumps spell the digits, four the operators, and two spell nothing. */
  const Standard: Legend :=
    Legend(map["0000" := 0, "0001" := 1, "0010" := 2, "0011" := 3, "0100" := 4,
               "0101" := 5, "0110" := 6, "0111" := 7, "1000" := 8, "1001" := 9],
           map["1010" := Plus, "1011" := Minus, "1100" := Times, "1101" := DivideBy])

  /** No lump spells both a digit and an operator. */
  predicate Disjoint(legend: Legend)
  {
    forall lump :: lump in legend.numbers ==> lump !in legend.symbols
  }

  /** The decoder's legend is disjoint, its digits are 0 to 9, and 1110 and 1111 are unused. */
  lemma StandardShape()
    ensures Disjoint(Standard)
    ensures forall lump :: lump in Standard.numbers ==> 0 <= Standard.numbers[lump] <= 9
    ensures "1110" !in Standard.numbers && "1110" !in Standard.symbols
    ensures "1111" !in Standard.numbers && "1111" !in Standard.symbols
  {
    forall lump | lump in Standard.numbers
      ensures lump !in Standard.symbols
    {
      // digits start with 0 or with 100; operators start with 11 or 101
      assert lump[0] == '0' || (lump[1] == '0' && lump[2] == '0');
    }
  }

  // ---------------------------------------------------------------------------
  // Cutting a chromosome into lumps
  // ---------------------------------------------------------------------------

  /** A gene written as a character. */
  function BitChar(gene: bool): (c: char)
    ensures c == '1' <==> gene
    ensures c == '0' <==> !gene
  {
    if gene then '1' else '0'
  }

  /** The genes written out, one character each. */
  function Spell(genes: seq<bool>): (text: string)
    ensures |text| == |genes|
    ensures forall k :: 0 <= k < |genes| ==> text[k] == BitChar(genes[k])
  {
    seq(|genes|, k requires 0 <= k < |genes| => BitChar(genes[k]))
  }

  /** The whole four-gene lumps of a chromosome, written out; trailing genes are dropped. */
  function Lumps(chromosome: seq<bool>): (lumps: seq<string>)
    ensures |lumps| == |chromosome| / 4
    ensures forall i :: 0 <= i < |lumps| ==> lumps[i] == Spell(chromosome[4 * i..4 * i + 4])
  {
    seq(|chromosome| / 4, i requires 0 <= i < |chromosome| / 4 => Spell(chromosome[4 * i..4 * i + 4]))
  }

  /** The lumps joined back together. */
  function Concat(lumps: seq<string>): (text: string)
  {
    if |lumps| == 0 then [] else Concat(lumps[..|lumps| - 1]) + lumps[|lumps| - 1]
  }

  lemma {:induction false} ConcatLumpsPrefix(chromosome: seq<bool>, k: nat)
    requires k <= |chromosome| / 4
    ensures Concat(Lumps(chromosome)[..k]) == Spell(chromosome[..4 * k])
  {
    if k > 0 {
      var lumps := Lumps(chromosome);
      ConcatLumpsPrefix(chromosome, k - 1);
      assert lumps[..k][..k - 1] == lumps[..k - 1];
      assert Spell(chromosome[..4 * k]) == Spell(chromosome[..4 * (k - 1)]) + lumps[k - 1];
    }
  }

  /**
   * Joining the lumps gives back the chromosome with its last
   * length-mod-4 genes dropped: nothing is reordered or lost before them.
   */
  lemma SegmentRoundTrip(chromosome: seq<bool>)
    ensures Concat(Lumps(chromosome)) == Spell(chromosome[..|chromosome| - |chromosome| % 4])
  {
    var lumps := Lumps(chromosome);
    ConcatLumpsPrefix(chromosome, |chromosome| / 4);
    assert lumps[..|chromosome| / 4] == lumps;
  }

  /** Cuts the chromosome into lumps with the two nested loops of the original. */
  method Segment(chromosome: seq<bool>) returns (segmented: seq<string>)
    ensures segmented == Lumps(chromosome)
  {
    var rem := |chromosome| % 4;
    var whole := chromosome[..|chromosome| - rem];
    segmented := [];
    for i := 0 to |whole| / 4
      invariant |segmented| == i
      invariant forall k :: 0 <= k < i ==> segmented[k] == Spell(chromosome[4 * k..4 * k + 4])
    {
      var temp := "";
      for j := 0 to 4
        invariant |temp| == j
        invariant forall k :: 0 <= k < j ==> temp[k] == BitChar(whole[i * 4 + k])
      {
        temp := temp + [BitChar(whole[i * 4 + j])];
      }
      assert temp == Spell(chromosome[4 * i..4 * i + 4]);
      segmented := segmented + [temp];
    }
  }

  // ---------------------------------------------------------------------------
  // Recognising the alternating pattern
  // ---------------------------------------------------------------------------

  /** The recogniser's state: the tokens kept so far and whether a number comes next. */
  datatype ScanState = ScanState(expr: seq<Token>, expectingNumber: bool)

  /** Whether the recogniser keeps a lump when it is, or is not, expecting a number. */
  predicate Accepts(legend: Legend, expectingNumber: bool, lump: string)
  {
    (expectingNumber && lump in legend.numbers) || (!expectingNumber && lump in legend.symbols)
  }

  /** One lump: kept when it is of the expected kind, skipped otherwise. */
  function Step(legend: Legend, state: ScanState, lump: string): (next: ScanState)
  {
    if Accepts(legend, state.expectingNumber, lump) then
      var token := if state.expectingNumber then Number(legend.numbers[lump] as real)
                   else Symbol(legend.symbols[lump]);
      ScanState(state.expr + [token], !state.expectingNumber)
    else
      state
  }

  /**
   * A lump of the expected kind adds one token of that kind after the
   * earlier ones and flips the expectation; any other lump changes nothing.
   */
  lemma StepKeepsOrSkips(legend: Legend, state: ScanState, lump: string)
    ensures var next := Step(legend, state, lump);
            (next.expectingNumber <==> (state.expectingNumber != Accepts(legend, state.expectingNumber, lump))) &&
            (Accepts(legend, state.expectingNumber, lump) ==>
               |next.expr| == |state.expr| + 1 && next.expr[..|state.expr|] == state.expr &&
               (next.expr[|state.expr|].Number? <==> state.expectingNumber)) &&
            (!Accepts(legend, state.expectingNumber, lump) ==> next == state)
  {
  }

  /** The recogniser's state after the given lumps, starting by expecting a number. */
  function Scan(legend: Legend, lumps: seq<string>): (state: ScanState)
    ensures |state.expr| <= |lumps|
  {
    if |lumps| == 0 then ScanState([], true)
    else Step(legend, Scan(legend, lumps[..|lumps| - 1]), lumps[|lumps| - 1])
  }

  /** Scanning one more lump is one more step. */
  lemma ScanSnoc(legend: Legend, lumps: seq<string>, lump: string)
    ensures Scan(legend, lumps + [lump]) == Step(legend, Scan(legend, lumps), lump)
  {
    assert (lumps + [lump])[..|lumps|] == lumps;
  }

  /** The recognised expression: an operator left at the end is dropped. */
  function Sanitized(legend: Legend, lumps: seq<string>): (expr: seq<Token>)
  {
    var state := Scan(legend, lumps);
    if state.expectingNumber && |state.expr| > 0 then state.expr[..|state.expr| - 1] else state.expr
  }

  /** The recognised expression is the scanned one, or that one without its last token. */
  lemma SanitizedIsScanned(legend: Legend, lumps: seq<string>)
    ensures var expr, scanned := Sanitized(legend, lumps), Scan(legend, lumps).expr;
            |expr| <= |scanned| <= |expr| + 1 && expr == scanned[..|expr|]
  {
  }

  /** Numbers at the even positions, operators at the odd ones. */
  predicate Alternating(expr: seq<Token>)
  {
    forall k :: 0 <= k < |expr| ==> (expr[k].Number? <==> k % 2 == 0)
  }

  /** number, operator, number, ..., number. */
  predicate WellFormed(expr: seq<Token>)
  {
    |expr| % 2 == 1 && Alternating(expr)
  }

  /** The kept tokens alternate from a number, and a number is expected after an even count. */
  lemma {:induction false} ScanAlternates(legend: Legend, lumps: seq<string>)
    ensures Alternating(Scan(legend, lumps).expr)
    ensures Scan(legend, lumps).expectingNumber <==> |Scan(legend, lumps).expr| % 2 == 0
  {
    if |lumps| > 0 {
      ScanAlternates(legend, lumps[..|lumps| - 1]);
    }
  }

  /** The recognised expression is empty or well formed, and then it ends with a number. */
  lemma SanitizedWellFormed(legend: Legend, lumps: seq<string>)
    ensures var expr := Sanitized(legend, lumps);
            |expr| == 0 || (WellFormed(expr) && expr[|expr| - 1].Number?)
  {
    ScanAlternates(legend, lumps);
  }

  /** A lump in neither table leaves the recogniser as it was. */
  lemma UnknownLumpSkipped(legend: Legend, lumps: seq<string>, lump: string)
    requires lump !in legend.numbers && lump !in legend.symbols
    ensures Scan(legend, lumps + [lump]) == Scan(legend, lumps)
    ensures Sanitized(legend, lumps + [lump]) == Sanitized(legend, lumps)
  {
    ScanSnoc(legend, lumps, lump);
  }

  /** In particular the decoder always skips the two unused codes. */
  lemma UnusedCodesSkipped(lumps: seq<string>)
    ensures Sanitized(Standard, lumps + ["1110"]) == Sanitized(Standard, lumps)
    ensures Sanitized(Standard, lumps + ["1111"]) == Sanitized(Standard, lumps)
  {
    StandardShape();
    UnknownLumpSkipped(Standard, lumps, "1110");
    UnknownLumpSkipped(Standard, lumps, "1111");
  }

  /** A kept lump's token. */
  function Lookup(legend: Legend, lump: string): (token: Token)
    requires lump in legend.numbers || lump in legend.symbols
  {
    if lump in legend.numbers then Number(legend.numbers[lump] as real) else Symbol(legend.symbols[lump])
  }

  /** The positions of the lumps the recogniser keeps. */
  function Kept(legend: Legend, lumps: seq<string>): (positions: seq<nat>)
  {
    if |lumps| == 0 then []
    else
      var before := lumps[..|lumps| - 1];
      if Accepts(legend, Scan(legend, before).expectingNumber, lumps[|lumps| - 1])
      then Kept(legend, before) + [|lumps| - 1]
      else Kept(legend, before)
  }

  /**
   * The kept tokens are, in input order, the table lookups of lumps at
   * increasing positions, each of the kind expected at its turn.
   */
  lemma {:induction false} ScanKeepsLookups(legend: Legend, lumps: seq<string>)
    requires Disjoint(legend)
    ensures var kept := Kept(legend, lumps);
            |kept| == |Scan(legend, lumps).expr| &&
            (forall k :: 0 <= k < |kept| ==> kept[k] < |lumps|) &&
            (forall k, l :: 0 <= k < l < |kept| ==> kept[k] < kept[l]) &&
            forall k :: 0 <= k < |kept| ==>
              Accepts(legend, Scan(legend, lumps[..kept[k]]).expectingNumber, lumps[kept[k]]) &&
              Scan(legend, lumps).expr[k] == Lookup(legend, lumps[kept[k]])
  {
    if |lumps| > 0 {
      var before := lumps[..|lumps| - 1];
      ScanKeepsLookups(legend, before);
      forall k | 0 <= k < |Kept(legend, before)|
        ensures lumps[..Kept(legend, before)[k]] == before[..Kept(legend, before)[k]]
      {
      }
      var state, lump := Scan(legend, before), lumps[|lumps| - 1];
      if Accepts(legend, state.expectingNumber, lump) {
        assert Scan(legend, lumps).expr[|state.expr|] == Lookup(legend, lump);
        assert lumps[..|lumps| - 1] == before;
      }
    }
  }

  /** Conversely, every lump of the kind expected at its turn is kept: only pattern breakers are skipped. */
  lemma {:induction false} KeptComplete(legend: Legend, lumps: seq<string>)
    ensures forall i :: 0 <= i < |lumps| && Accepts(legend, Scan(legend, lumps[..i]).expectingNumber, lumps[i]) ==>
              i in Kept(legend, lumps)
  {
    if |lumps| > 0 {
      var before := lumps[..|lumps| - 1];
      KeptComplete(legend, before);
      forall i | 0 <= i < |lumps| && Accepts(legend, Scan(legend, lumps[..i]).expectingNumber, lumps[i])
        ensures i in Kept(legend, lumps)
      {
        if i < |before| {
          assert lumps[..i] == before[..i] && lumps[i] == before[i];
          assert i in Kept(legend, before);
        } else {
          assert lumps[..i] == before;
        }
      }
    }
  }

  /** The recogniser's loop, then the removal of a trailing operator. */
  method Sanitize(legend: Legend, chromosome: seq<string>) returns (expr: seq<Token>)
    ensures expr == Sanitized(legend, chromosome)
  {
    expr := [];
    var expectingNumber := true;
    for i := 0 to |chromosome|
      invariant Scan(legend, chromosome[..i]) == ScanState(expr, expectingNumber)
    {
      var lump := chromosome[i];
      assert chromosome[..i + 1][..i] == chromosome[..i];
      if expectingNumber && lump in legend.numbers {
        expr := expr + [Number(legend.numbers[lump] as real)];
        expectingNumber := false;
      } else if !expectingNumber && lump in legend.symbols {
        expr := expr + [Symbol(legend.symbols[lump])];
        expectingNumber := true;
      }
    }
    assert chromosome[..|chromosome|] == chromosome;
    if expectingNumber && |expr| > 0 {
      expr := expr[..|expr| - 1];
    }
  }

  // ---------------------------------------------------------------------------
  // Evaluation
  // ---------------------------------------------------------------------------

  /**
   * One operator applied to two values. Division has two special rules,
   * checked in this order: equal operands give 1 (0 / 0 included), and a
   * zero divisor gives the dividend back.
   */
  function EvalTrio(operand1: real, op: Operator, operand2: real): (r: real)
    ensures op == DivideBy && operand1 == operand2 ==> r == 1.0
    ensures op == DivideBy && operand1 != operand2 && operand2 == 0.0 ==> r == operand1
    ensures op == DivideBy && operand1 != operand2 && operand2 != 0.0 ==> r * operand2 == operand1
  {
    match op
    case Plus => operand1 + operand2
    case Minus => operand1 - operand2
    case Times => operand1 * operand2
    case DivideBy =>
      if operand1 == operand2 then 1.0
      else if operand2 == 0.0 then operand1
      else operand1 / operand2
  }

  /** The value of a well-formed expression, reduced strictly from the left. */
  function Eval(expr: seq<Token>): (value: real)
    requires WellFormed(expr)
    decreases |expr|
  {
    if |expr| == 1 then expr[0].value
    else EvalTrio(Eval(expr[..|expr| - 2]), expr[|expr| - 2].op, expr[|expr| - 1].value)
  }

  /**
   * Replacing the first three tokens by the value of their trio keeps the
   * expression well formed, shortens it by 2, and keeps its value.
   */
  lemma {:induction false} ReduceFront(expr: seq<Token>)
    requires WellFormed(expr) && |expr| >= 3
    ensures var reduced := [Number(EvalTrio(expr[0].value, expr[1].op, expr[2].value))] + expr[3..];
            WellFormed(reduced) && |reduced| == |expr| - 2 && Eval(reduced) == Eval(expr)
  {
    var reduced := [Number(EvalTrio(expr[0].value, expr[1].op, expr[2].value))] + expr[3..];
    assert WellFormed(reduced);
    if |expr| > 3 {
      var front := expr[..|expr| - 2];
      ReduceFront(front);
      assert reduced[..|reduced| - 2] ==
             [Number(EvalTrio(front[0].value, front[1].op, front[2].value))] + front[3..];
      assert reduced[|reduced| - 2] == expr[|expr| - 2] && reduced[|reduced| - 1] == expr[|expr| - 1];
    }
  }

  /** Overwriting the first token and popping position 1 twice leaves that token before the fourth onwards. */
  lemma PopsAfterFirst(expr: seq<Token>, first: Token)
    requires |expr| >= 3
    ensures var overwritten := expr[0 := first];
            var popped := overwritten[..1] + overwritten[2..];
            popped[..1] + popped[2..] == [first] + expr[3..]
  {
    var overwritten := expr[0 := first];
    var popped := overwritten[..1] + overwritten[2..];
    assert popped == [first] + expr[2..];
  }

  /** What decoding the lumps gives: the left-to-right value, or the failure on an empty expression. */
  function Decoded(legend: Legend, lumps: seq<string>): (r: Result<real>)
  {
    SanitizedWellFormed(legend, lumps);
    var expr := Sanitized(legend, lumps);
    if |expr| == 0 then IndexError else Ok(Eval(expr))
  }

  /**
   * Recognises the lumps and reduces the expression in place: the first
   * element is overwritten with the value of the first trio and the next two
   * are popped, until one value is left.
   */
  method Decode(legend: Legend, chromosome: seq<string>) returns (r: Result<real>)
    ensures r == Decoded(legend, chromosome)
  {
    var expr := Sanitize(legend, chromosome);
    SanitizedWellFormed(legend, chromosome);
    if |expr| == 0 {
      return IndexError;
    }
    ghost var value := Eval(expr);
    while |expr| > 1
      invariant WellFormed(expr) && Eval(expr) == value
      decreases |expr|
    {
      ReduceFront(expr);
      var trio := Number(EvalTrio(expr[0].value, expr[1].op, expr[2].value));
      PopsAfterFirst(expr, trio);
      expr := expr[0 := trio];
      expr := expr[..1] + expr[2..];
      expr := expr[..1] + expr[2..];
    }
    return Ok(expr[0].value);
  }

  /** Without a digit no number is ever kept, so the expression is empty. */
  lemma {:induction false} NoDigitNoExpression(legend: Legend, lumps: seq<string>)
    requires forall k :: 0 <= k < |lumps| ==> lumps[k] !in legend.numbers
    ensures Scan(legend, lumps) == ScanState([], true)
    ensures Sanitized(legend, lumps) == []
  {
    if |lumps| > 0 {
      NoDigitNoExpression(legend, lumps[..|lumps| - 1]);
    }
  }

  /** Decoding fails exactly when the recognised expression is empty, for instance when no lump is a digit. */
  lemma DecodeFails(legend: Legend, lumps: seq<string>)
    ensures Decoded(legend, lumps) == IndexError <==> Sanitized(legend, lumps) == []
    ensures (forall k :: 0 <= k < |lumps| ==> lumps[k] !in legend.numbers) ==> Decoded(legend, lumps) == IndexError
  {
    if forall k :: 0 <= k < |lumps| ==> lumps[k] !in legend.numbers {
      NoDigitNoExpression(legend, lumps);
    }
  }

  /** 2 + 3 * 4 read with any legend that spells those digits and operators the decoder's way. */
  lemma {:induction false} LeftToRight(legend: Legend)
    requires "0010" in legend.numbers && legend.numbers["0010"] == 2
    requires "0011" in legend.numbers && legend.numbers["0011"] == 3
    requires "0100" in legend.numbers && legend.numbers["0100"] == 4
    requires "1010" !in legend.numbers && "1100" !in legend.numbers
    requires "1010" in legend.symbols && legend.symbols["1010"] == Plus
    requires "1100" in legend.symbols && legend.symbols["1100"] == Times
    ensures Decoded(legend, ["0010", "1010", "0011", "1100", "0100"]) == Ok(20.0)
  {
    var l1 := ["0010"];
    var l2 := l1 + ["1010"];
    var l3 := l2 + ["0011"];
    var l4 := l3 + ["1100"];
    var l5 := l4 + ["0100"];
    var expr := [Number(2.0), Symbol(Plus), Number(3.0), Symbol(Times), Number(4.0)];
    ScanSnoc(legend, [], "0010");
    assert [] + ["0010"] == l1;
    assert Scan(legend, l1) == ScanState(expr[..1], false);
    ScanSnoc(legend, l1, "1010");
    assert Scan(legend, l2) == ScanState(expr[..2], true);
    ScanSnoc(legend, l2, "0011");
    assert Scan(legend, l3) == ScanState(expr[..3], false);
    ScanSnoc(legend, l3, "1100");
    assert Scan(legend, l4) == ScanState(expr[..4], true);
    ScanSnoc(legend, l4, "0100");
    assert Scan(legend, l5) == ScanState(expr, false);
    assert l5 == ["0010", "1010", "0011", "1100", "0100"];
    assert expr[..3][..1] == expr[..1];
    assert Eval(expr[..3]) == 5.0;
  }

  /** There is no operator precedence: 2 + 3 * 4 decodes to 20. */
  lemma NoPrecedence()
    ensures Decoded(Standard, ["0010", "1010", "0011", "1100", "0100"]) == Ok(20.0)
  {
    LeftToRight(Standard);
  }

  // ---------------------------------------------------------------------------
  // Fitness
  // ---------------------------------------------------------------------------

  function Abs(x: real): (magnitude: real)
    ensures 0.0 <= magnitude && (magnitude == x || magnitude == -x)
  {
    if x < 0.0 then -x else x
  }

  lemma ReciprocalInUnit(x: real)
    requires 1.0 < x
    ensures 0.0 < 1.0 / x < 1.0
  {
    assert 1.0 / x * x == 1.0;
  }

  /**
   * The score of a decoded value for the target: 1 for a hit, otherwise the
   * reciprocal of one plus the distance, which lies strictly between 0 and 1.
   */
  function Score(target: int, decoded: real): (score: real)
    ensures 0.0 < score <= 1.0
    ensures score == 1.0 <==> decoded == target as real
  {
    if target as real == decoded then 1.0
    else
      ReciprocalInUnit(1.0 + Abs(target as real - decoded));
      1.0 / (1.0 + Abs(target as real - decoded))
  }

  /** The score of a chromosome: decoding may fail, and then so does scoring. */
  function FitnessOf(target: int, chromosome: seq<bool>): (r: Result<real>)
  {
    match Decoded(Standard, Lumps(chromosome))
    case IndexError => IndexError
    case Ok(v) => Ok(Score(target, v))
  }

  /** A chromosome that decodes scores in (0, 1], and scores 1 exactly when it hits the target. */
  lemma FitnessInUnit(target: int, chromosome: seq<bool>)
    ensures FitnessOf(target, chromosome).Ok? <==> Decoded(Standard, Lumps(chromosome)).Ok?
    ensures FitnessOf(target, chromosome).Ok? ==>
              0.0 < FitnessOf(target, chromosome).value <= 1.0 &&
              (FitnessOf(target, chromosome).value == 1.0 <==>
                 Decoded(Standard, Lumps(chromosome)).value == target as real)
  {
  }

  /** The fitness closure for a target: segment, decode, score. */
  method Fitness(target: int, chromosome: seq<bool>) returns (r: Result<real>)
    ensures r == FitnessOf(target, chromosome)
  {
    var segmented := Segment(chromosome);
    var decoded := Decode(Standard, segmented);
    match decoded
    case IndexError =>
      r := IndexError;
    case Ok(v) =>
      r := Ok(Score(target, v));
  }
}
