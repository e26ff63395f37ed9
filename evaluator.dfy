/**
 * The validation, computation and classification branch of the submission
 * handler (app.py:114-147): the patient name is checked first, then both
 * pressures must parse as numbers, then the arm pressure must not be zero;
 * on success ITB = ankle / arm is classified into one of five bands.
 */
module Evaluator {
  import opened Wrappers
  import opened Text

  /** The five clinical interpretations, as tags; their display text is not modelled. */
  datatype Band =
    | ArterialStiffness
    | Normal
    | MildToModeratePad
    | SeverePad
    | CriticalIschemia

  /** What one submission evaluates to: one of the three form errors, or the measurement. */
  datatype Evaluation =
    | MissingName
    | InvalidNumber
    | ArmZero
    | Ok(arm: real, ankle: real, itb: real, band: Band)

  /** One end of a band's interval on the real line. */
  datatype Bound = Unbounded | Closed(v: real) | Open(v: real)

  /**
   * The band table, written as intervals rather than as an ordered chain:
   * (1.3, inf), [0.9, 1.3], [0.5, 0.9), [0.4, 0.5), (-inf, 0.4).
   */
  function Lower(b: Band): Bound
  {
    match b
    case ArterialStiffness => Open(1.3)
    case Normal => Closed(0.9)
    case MildToModeratePad => Closed(0.5)
    case SeverePad => Closed(0.4)
    case CriticalIschemia => Unbounded
  }

  function Upper(b: Band): Bound
  {
    match b
    case ArterialStiffness => Unbounded
    case Normal => Closed(1.3)
    case MildToModeratePad => Open(0.9)
    case SeverePad => Open(0.5)
    case CriticalIschemia => Open(0.4)
  }

  predicate AboveLower(x: real, lo: Bound)
  {
    match lo
    case Unbounded => true
    case Closed(v) => v <= x
    case Open(v) => v < x
  }

  predicate BelowUpper(x: real, hi: Bound)
  {
    match hi
    case Unbounded => true
    case Closed(v) => x <= v
    case Open(v) => x < v
  }

  /** `x` lies in the interval of band `b`. */
  predicate InBand(x: real, b: Band)
  {
    AboveLower(x, Lower(b)) && BelowUpper(x, Upper(b))
  }

  /** Position of a band along the real line, from the lowest ITB values up. */
  function Rank(b: Band): nat
  {
    match b
    case CriticalIschemia => 0
    case SeverePad => 1
    case MildToModeratePad => 2
    case Normal => 3
    case ArterialStiffness => 4
  }

  /** The first-match-wins `if/elif` chain of app.py:131-140. */
  function Classify(itb: real): (b: Band)
    ensures InBand(itb, b)
  {
    if itb > 1.3 then ArterialStiffness
    else if 0.9 <= itb <= 1.3 then Normal
    else if 0.5 <= itb < 0.9 then MildToModeratePad
    else if 0.4 <= itb < 0.5 then SeverePad
    else CriticalIschemia
  }

  /** The intervals do not overlap, so the chain's order decides nothing: the band containing `x` is its class. */
  lemma ClassifyUnique(x: real, b: Band)
    requires InBand(x, b)
    ensures b == Classify(x)
  {
  }

  /** A larger ITB never falls into a lower band. */
  lemma ClassifyMonotone(x: real, y: real)
    requires x <= y
    ensures Rank(Classify(x)) <= Rank(Classify(y))
  {
  }

  /** Both ends of the normal band are normal, and exactly 0.4 is severe rather than critical. */
  lemma BoundaryPoints()
    ensures Classify(1.3) == Normal && Classify(0.9) == Normal
    ensures Classify(0.5) == MildToModeratePad && Classify(0.4) == SeverePad
  {
  }

  /**
   * One form submission: `name` is the raw name field, `armText` and
   * `ankleText` the raw pressure fields, `parse` Python's `float()` with a
   * failure as `None`. The pressures are looked at only once the name is
   * known not to be blank, and the zero check only once both have parsed.
   */
  function Evaluate(name: string, armText: string, ankleText: string, parse: string -> Option<real>): (e: Evaluation)
    ensures e == MissingName <==> IsBlank(name)
    ensures e == InvalidNumber <==> !IsBlank(name) && (parse(armText) == None || parse(ankleText) == None)
    ensures e == ArmZero <==> !IsBlank(name) && parse(armText) == Some(0.0) && parse(ankleText).Some?
    ensures e.Ok? ==> && parse(armText) == Some(e.arm) && parse(ankleText) == Some(e.ankle)
                      && e.arm != 0.0 && e.itb == e.ankle / e.arm
                      && InBand(e.itb, e.band)
  {
    if Strip(name) == [] then MissingName
    else if parse(armText) == None || parse(ankleText) == None then InvalidNumber
    else if parse(armText).value == 0.0 then ArmZero
    else
      var arm, ankle := parse(armText).value, parse(ankleText).value;
      var itb := ankle / arm;
      Ok(arm, ankle, itb, Classify(itb))
  }

  /** A blank name is rejected whatever the pressure fields hold and however they parse. */
  lemma BlankNameIgnoresPressures(name: string, arm1: string, ankle1: string, parse1: string -> Option<real>,
                                  arm2: string, ankle2: string, parse2: string -> Option<real>)
    requires IsBlank(name)
    ensures Evaluate(name, arm1, ankle1, parse1) == Evaluate(name, arm2, ankle2, parse2) == MissingName
  {
  }

  /**
   * A form with a non-blank name, two parsed pressures and a non-zero arm
   * pressure is accepted with ITB = ankle / arm and the band the chain picks.
   */
  lemma Accepted(name: string, armText: string, ankleText: string, parse: string -> Option<real>, arm: real, ankle: real)
    requires !IsBlank(name) && parse(armText) == Some(arm) && parse(ankleText) == Some(ankle) && arm != 0.0
    ensures Evaluate(name, armText, ankleText, parse) == Ok(arm, ankle, ankle / arm, Classify(ankle / arm))
  {
    var e := Evaluate(name, armText, ankleText, parse);
    ClassifyUnique(e.itb, e.band);
  }

  /** Arm 80 and ankle 100 give ITB 1.25, a normal result. */
  lemma NormalExample(parse: string -> Option<real>)
    requires parse("80") == Some(80.0) && parse("100") == Some(100.0)
    ensures Evaluate("John", "80", "100", parse) == Ok(80.0, 100.0, 1.25, Normal)
  {
    assert !IsBlank("John") by { assert !IsSpace("John"[0]); }
    assert 100.0 / 80.0 == 1.25;
    assert Classify(1.25) == Normal;
    Accepted("John", "80", "100", parse, 80.0, 100.0);
  }

  /** Arm 100 and ankle 40 give ITB 0.4, which the chain puts in the severe band. */
  lemma SevereBoundaryExample(parse: string -> Option<real>)
    requires parse("100") == Some(100.0) && parse("40") == Some(40.0)
    ensures Evaluate("John", "100", "40", parse) == Ok(100.0, 40.0, 0.4, SeverePad)
  {
    assert !IsBlank("John") by { assert !IsSpace("John"[0]); }
    assert 40.0 / 100.0 == 0.4;
    BoundaryPoints();
    Accepted("John", "100", "40", parse, 100.0, 40.0);
  }
}
