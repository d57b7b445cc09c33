/** The command-line front end `main` of the calculator:
    `calculator.py <operation> <numbers...>`.

    It checks the argument count, lower-cases the operation name, parses
    every operand as a number, looks the name up in a table of the four
    operations and applies the one it finds. Every error path prints a
    message and ends the program with exit status 1; here each is a
    `Failure` carrying a `CliError`, and a `Success` carries the value that
    is printed before a normal exit. Reading `sys.argv` becomes the
    parameter `argv` (program name first), and the number syntax accepted by
    Python's `float` becomes the parameter `parse`. */
module CalculatorCli {
  import opened Results
  import Calculator

  /** The four entries of the `operations` table. */
  datatype Op = Add | Subtract | Multiply | Divide

  /** Why `main` ends with exit status 1. */
  datatype CliError =
    | InsufficientArguments
    | InvalidNumber(text: string)
    | UnknownOperation(name: string)
    | OperationFailed(cause: Calculator.ArithError)

  // ---------------------------------------------------------------------
  // Operation names

  /** The key under which `op` stands in the table. */
  function Name(op: Op): string {
    match op
    case Add => "add"
    case Subtract => "subtract"
    case Multiply => "multiply"
    case Divide => "divide"
  }

  /** Looking a name up in the table: exactly the four keys are found, each
      giving the operation of that name. */
  function Lookup(name: string): (r: Option<Op>)
    ensures r.Some? <==> name in {"add", "subtract", "multiply", "divide"}
    ensures r.Some? ==> Name(r.value) == name
  {
    if name == "add" then Some(Add)
    else if name == "subtract" then Some(Subtract)
    else if name == "multiply" then Some(Multiply)
    else if name == "divide" then Some(Divide)
    else None
  }

  /** Every operation is found under its own name. */
  lemma LookupName(op: Op)
    ensures Lookup(Name(op)) == Some(op)
  {
    match op
    case Add =>
    case Subtract =>
    case Multiply =>
    case Divide =>
  }

  // ---------------------------------------------------------------------
  // Case folding

  predicate IsUpper(c: char) {
    'A' <= c <= 'Z'
  }

  predicate IsLowerLetter(c: char) {
    'a' <= c <= 'z'
  }

  function LowerChar(c: char): char {
    if IsUpper(c) then (c as int + 32) as char else c
  }

  function UpperChar(c: char): char {
    if IsLowerLetter(c) then (c as int - 32) as char else c
  }

  /** `str.lower` on the ASCII letters: the result has no upper-case letter
      left, and each character is either unchanged or the lower-case form
      of the upper-case letter it replaces. */
  function Lower(s: string): (r: string)
    ensures |r| == |s|
    ensures forall i :: 0 <= i < |r| ==> !IsUpper(r[i])
    ensures forall i :: 0 <= i < |s| ==> r[i] == s[i] || (IsLowerLetter(r[i]) && s[i] == UpperChar(r[i]))
  {
    seq(|s|, i requires 0 <= i < |s| => LowerChar(s[i]))
  }

  /** `s` spells `word` with any of its letters in either case. */
  predicate SpellsIgnoringCase(s: string, word: string) {
    |s| == |word| && forall i :: 0 <= i < |s| ==> s[i] == word[i] || s[i] == UpperChar(word[i])
  }

  /** Lower-casing gives a lower-case word exactly when the string spells
      that word in some mixture of cases. */
  lemma LowerEqualsWord(s: string, word: string)
    requires forall i :: 0 <= i < |word| ==> IsLowerLetter(word[i])
    ensures Lower(s) == word <==> SpellsIgnoringCase(s, word)
  {
    if Lower(s) == word {
      forall i | 0 <= i < |s|
        ensures s[i] == word[i] || s[i] == UpperChar(word[i])
      {
        assert Lower(s)[i] == LowerChar(s[i]);
      }
    }
    if SpellsIgnoringCase(s, word) {
      forall i | 0 <= i < |s|
        ensures Lower(s)[i] == word[i]
      {
        assert Lower(s)[i] == LowerChar(s[i]);
      }
    }
  }

  /** The operation name is matched case-insensitively, against exactly the
      four names of the table. */
  lemma LookupIgnoresCase(s: string, op: Op)
    ensures Lookup(Lower(s)) == Some(op) <==> SpellsIgnoringCase(s, Name(op))
  {
    var word := Name(op);
    assert forall i :: 0 <= i < |word| ==> IsLowerLetter(word[i]);
    LowerEqualsWord(s, word);
    LookupName(op);
  }

  // ---------------------------------------------------------------------
  // Operands

  /** Every argument is accepted by `parse`. */
  predicate AllParse(args: seq<string>, parse: string -> Option<real>) {
    forall i :: 0 <= i < |args| ==> parse(args[i]).Some?
  }

  /** `[float(n) for n in args]`: the parsed values in order, or an error
      naming the first argument that does not parse. */
  function ParseAll(args: seq<string>, parse: string -> Option<real>): (r: Result<seq<real>, CliError>)
    ensures r.Success? <==> AllParse(args, parse)
    ensures r.Success? ==> |r.value| == |args| && forall i :: 0 <= i < |args| ==> parse(args[i]) == Some(r.value[i])
    ensures r.Failure? ==> exists i :: 0 <= i < |args| && r.error == InvalidNumber(args[i]) && parse(args[i]).None? && AllParse(args[..i], parse)
  {
    if args == [] then Success([])
    else
      match parse(args[0])
      case None =>
        assert AllParse(args[..0], parse);
        Failure(InvalidNumber(args[0]))
      case Some(x) =>
        match ParseAll(args[1..], parse)
        case Failure(e) =>
          var i :| 0 <= i < |args[1..]| && e == InvalidNumber(args[1..][i]) && parse(args[1..][i]).None? && AllParse(args[1..][..i], parse);
          assert args[..i + 1] == [args[0]] + args[1..][..i];
          assert AllParse(args[..i + 1], parse);
          Failure(e)
        case Success(xs) =>
          Success([x] + xs)
  }

  // ---------------------------------------------------------------------
  // Dispatch

  /** `operations[operation](*numbers)`: only `divide` can fail. */
  function Apply(op: Op, ns: seq<real>): (r: Result<real, CliError>)
    ensures r.Failure? <==> op == Divide && exists i :: 1 <= i < |ns| && ns[i] == 0.0
    ensures r.Failure? ==> r.error == OperationFailed(Calculator.DivisionByZero)
  {
    match op
    case Add => Success(Calculator.Add(ns))
    case Subtract => Success(Calculator.Subtract(ns))
    case Multiply => Success(Calculator.Multiply(ns))
    case Divide =>
      match Calculator.Divide(ns)
      case Success(q) => Success(q)
      case Failure(e) => Failure(OperationFailed(e))
  }

  /** `main` without its input and output: fewer than two arguments after
      the program name is an error; then the operands are parsed, and only
      after that is the lower-cased operation name looked up. */
  function Dispatch(argv: seq<string>, parse: string -> Option<real>): (r: Result<real, CliError>)
    ensures r == Failure(InsufficientArguments) <==> |argv| < 3
    ensures |argv| >= 3 && !AllParse(argv[2..], parse) ==>
      r.Failure? && r.error.InvalidNumber? && r.error.text in argv[2..]
    ensures |argv| >= 3 && AllParse(argv[2..], parse) && Lookup(Lower(argv[1])).None? ==>
      r == Failure(UnknownOperation(Lower(argv[1])))
    ensures r.Success? ==> |argv| >= 3 && AllParse(argv[2..], parse) && Lookup(Lower(argv[1])).Some?
    ensures r.Failure? && r.error.OperationFailed? ==>
      |argv| >= 3 && Lookup(Lower(argv[1])) == Some(Divide) && AllParse(argv[2..], parse)
  {
    if |argv| < 3 then Failure(InsufficientArguments)
    else
      var operation := Lower(argv[1]);
      match ParseAll(argv[2..], parse)
      case Failure(e) => Failure(e)
      case Success(numbers) =>
        match Lookup(operation)
        case None => Failure(UnknownOperation(operation))
        case Some(op) => Apply(op, numbers)
  }

  /** Once the name is found and the operands parse, the command line
      applies that operation to the parsed values, in order, and there is
      always at least one of them. */
  lemma DispatchApplies(argv: seq<string>, parse: string -> Option<real>, op: Op, ns: seq<real>)
    requires |argv| >= 3 && Lookup(Lower(argv[1])) == Some(op)
    requires ParseAll(argv[2..], parse) == Success(ns)
    ensures |ns| == |argv| - 2 >= 1
    ensures forall i :: 0 <= i < |ns| ==> parse(argv[i + 2]) == Some(ns[i])
    ensures Dispatch(argv, parse) == Apply(op, ns)
  {
    forall i | 0 <= i < |ns|
      ensures parse(argv[i + 2]) == Some(ns[i])
    {
      assert argv[2..][i] == argv[i + 2];
    }
  }

  /** What the command line computes: because the operation always receives
      at least one operand, the answers for an empty operand list are never
      reached, and each result is the closed form of its fold. */
  lemma DispatchComputes(argv: seq<string>, parse: string -> Option<real>, op: Op, ns: seq<real>)
    requires |argv| >= 3 && Lookup(Lower(argv[1])) == Some(op)
    requires ParseAll(argv[2..], parse) == Success(ns)
    ensures op == Add ==> Dispatch(argv, parse) == Success(Calculator.Total(ns))
    ensures op == Subtract ==> Dispatch(argv, parse) == Success(ns[0] - Calculator.Total(ns[1..]))
    ensures op == Multiply ==> Dispatch(argv, parse) == Success(Calculator.Product(ns))
    ensures op == Divide ==>
      Dispatch(argv, parse) ==
        if Calculator.Product(ns[1..]) != 0.0 then Success(ns[0] / Calculator.Product(ns[1..]))
        else Failure(OperationFailed(Calculator.DivisionByZero))
  {
    DispatchApplies(argv, parse, op, ns);
    var r := Dispatch(argv, parse);
    match op
    case Add =>
      assert r == Success(Calculator.Add(ns));
    case Subtract =>
      assert r == Success(Calculator.Subtract(ns));
    case Multiply =>
      assert r == Success(Calculator.Multiply(ns));
    case Divide =>
      Calculator.ProductNonZero(ns[1..]);
      if !Calculator.NonZero(ns[1..]) {
        var j :| 0 <= j < |ns[1..]| && ns[1..][j] == 0.0;
        assert ns[j + 1] == 0.0;
      }
  }

  /** An unrecognised operation name is reported, lower-cased, exactly when
      it spells none of the four names in any mixture of cases, and no
      arithmetic is done. */
  lemma DispatchRejectsUnknownName(argv: seq<string>, parse: string -> Option<real>)
    requires |argv| >= 3 && AllParse(argv[2..], parse)
    ensures Dispatch(argv, parse) == Failure(UnknownOperation(Lower(argv[1]))) <==>
      forall op :: !SpellsIgnoringCase(argv[1], Name(op))
  {
    forall op: Op {
      LookupIgnoresCase(argv[1], op);
    }
    if Lookup(Lower(argv[1])).Some? {
      LookupIgnoresCase(argv[1], Lookup(Lower(argv[1])).value);
    }
  }
}
