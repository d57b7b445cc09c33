# Calculator skill: a verified model

This project models the calculator script of the agent-skills collection,
`calculator.py <operation> <numbers...>`. It has four variadic arithmetic
operations and a command-line front end. Python floats are modelled as
exact Dafny `real`s.

- `add` is Python's `sum`: a left fold of `+` that starts from 0.
- `subtract`, `multiply` and `divide` are `functools.reduce` over the
  operands, each with early-return guards:
  - no operands give 0 for every operation, including `multiply`;
  - one operand is returned unchanged by `subtract` and `divide`;
  - `divide` first scans the divisors (every operand after the first) and
    raises on a zero one.
- `main` does the following, in this order:
  - rejects fewer than two arguments after the program name;
  - lower-cases the operation name;
  - parses every operand as a number;
  - looks the name up in a table of exactly four names;
  - applies the operation it finds.

  Each error path ends the program with exit status 1.

Module `Calculator` (`calculator.dfy`) holds the four operations. They are
written with one left fold, `FoldLeft`, over a `BinOp` operator datatype.
Each fold is proved equal to a closed form that does not depend on the
order of evaluation:
- `Total` is the sum;
- `Product` is the product;
- `subtract` is the first operand minus the `Total` of the rest;
- `divide` is the first operand divided by the `Product` of the rest.

The sum and the product are also proved independent of the order of the
operands.

Module `CalculatorCli` (`cli.dfy`) holds `main` as the pure function
`Dispatch`, which returns a `Result`:
- a `Failure` carries the reason for exit status 1 (`CliError`);
- a `Success` carries the value that `main` prints before a normal exit.

The parameters of `Dispatch` stand in for the program's surroundings:
- `argv` is the argument vector, program name first;
- `parse: string -> Option<real>` is Python's `float` conversion, left
  abstract.

Module `Results` (`results.dfy`) holds the `Option` and `Result` datatypes.

## Model

| member | source | states |
|---|---|---|
| `Calculator.Add` | agent-skills/.github/skills/calculator-utils/scripts/calculator.py:26-28 | `add` is the sum of all its operands (`Total`), and 0 when there are none |
| `Calculator.FoldPlusIsTotal` | agent-skills/.github/skills/calculator-utils/scripts/calculator.py:28 | adding the operands one by one, left to right, to a start value adds their sum |
| `Calculator.AddAnyOrder` | agent-skills/.github/skills/calculator-utils/scripts/calculator.py:26-28 | `add` gives the same result for any permutation of its operands |
| `Calculator.Subtract` | agent-skills/.github/skills/calculator-utils/scripts/calculator.py:31-37 | `subtract` gives 0 for no operands and the operand itself for one; otherwise it gives the first operand minus the sum of the others |
| `Calculator.FoldMinusIsDifference` | agent-skills/.github/skills/calculator-utils/scripts/calculator.py:37 | the left fold of `-` from a start value equals that value minus the sum of the operands |
| `Calculator.SubtractUndoesAdd` | agent-skills/.github/skills/calculator-utils/scripts/calculator.py:31-37 | for a non-empty input, `subtract` plus `add` of the remaining operands gives back the first operand |
| `Calculator.Multiply` | agent-skills/.github/skills/calculator-utils/scripts/calculator.py:40-44 | a non-empty input gives the product of all operands; an empty input gives 0, which differs from the empty product 1 |
| `Calculator.FoldTimesIsProduct` | agent-skills/.github/skills/calculator-utils/scripts/calculator.py:44 | the left fold of `*` from a start value equals that value times the product of the operands |
| `Calculator.MultiplyAnyOrder` | agent-skills/.github/skills/calculator-utils/scripts/calculator.py:40-44 | `multiply` gives the same result for any permutation of its operands |
| `Calculator.CheckDivisors` | agent-skills/.github/skills/calculator-utils/scripts/calculator.py:54-56 | the divisor scan passes exactly when no divisor is zero |
| `Calculator.ProductNonZero` | agent-skills/.github/skills/calculator-utils/scripts/calculator.py:54-58 | the product of the divisors is non-zero exactly when no divisor is zero, so the scan guards the division |
| `Calculator.Divide` | agent-skills/.github/skills/calculator-utils/scripts/calculator.py:47-58 | `divide` fails with `DivisionByZero` exactly when some operand after the first is zero, and a zero first operand is not an error; no operands give 0 and one operand gives itself, even when it is 0; otherwise the result is the first operand divided by the product of the others |
| `Calculator.FoldOverIsQuotient` | agent-skills/.github/skills/calculator-utils/scripts/calculator.py:58 | when no divisor is zero, the left fold of `/` from a start value equals that value divided by the product of the divisors |
| `Calculator.DivideUndoesMultiply` | agent-skills/.github/skills/calculator-utils/scripts/calculator.py:47-58 | a successful quotient of two or more operands, multiplied by `multiply` of the divisors, gives back the first operand |
| `CalculatorCli.Lookup` | agent-skills/.github/skills/calculator-utils/scripts/calculator.py:76-86 | the operation table finds a name exactly when it is one of `add`, `subtract`, `multiply` and `divide`, and then returns the operation of that name |
| `CalculatorCli.LookupName` | agent-skills/.github/skills/calculator-utils/scripts/calculator.py:76-81 | each of the four operations is found under its own name |
| `CalculatorCli.Lower` | agent-skills/.github/skills/calculator-utils/scripts/calculator.py:68 | lower-casing keeps the length and leaves no upper-case letter; each character is unchanged or is the lower-case form of the letter it replaces |
| `CalculatorCli.LowerEqualsWord` | agent-skills/.github/skills/calculator-utils/scripts/calculator.py:68 | lower-casing a string gives a lower-case word exactly when the string spells that word in some mixture of cases |
| `CalculatorCli.LookupIgnoresCase` | agent-skills/.github/skills/calculator-utils/scripts/calculator.py:68-86 | the lower-cased name selects an operation exactly when the given name spells that operation's name, case ignored |
| `CalculatorCli.ParseAll` | agent-skills/.github/skills/calculator-utils/scripts/calculator.py:70-74 | operand parsing succeeds exactly when every operand parses, and then yields the parsed values in order; otherwise it reports the first operand that does not parse |
| `CalculatorCli.Apply` | agent-skills/.github/skills/calculator-utils/scripts/calculator.py:88-93 | applying an operation fails only for `divide` with a zero divisor, and the error is the division-by-zero error |
| `CalculatorCli.Dispatch` | agent-skills/.github/skills/calculator-utils/scripts/calculator.py:61-93 | `main` reports insufficient arguments exactly when the argument vector has fewer than 3 entries; an unparsable operand is reported before an unknown name is; an unknown lower-cased name is reported as such; a result means the name was found and every operand parsed |
| `CalculatorCli.DispatchApplies` | agent-skills/.github/skills/calculator-utils/scripts/calculator.py:62-89 | once the name is found and the operands parse, `main` applies that operation to the parsed values in order, and there is always at least one value |
| `CalculatorCli.DispatchComputes` | agent-skills/.github/skills/calculator-utils/scripts/calculator.py:76-93 | through `main`, the four operations give their closed forms: the sum, the first minus the sum of the rest, the product (never the empty-input 0), and the first over the product of the rest or the division-by-zero error |
| `CalculatorCli.DispatchRejectsUnknownName` | agent-skills/.github/skills/calculator-utils/scripts/calculator.py:83-86 | when the operands parse, `main` reports an unknown operation exactly when the name spells none of the four names in any mixture of cases |

Because the argument count is checked first, none of the empty-input
answers (0 from each operation) can be reached from the command line.
`DispatchApplies` states this.

The model treats `multiply` of an empty input returning 0 as intended
behaviour, because the source returns 0 there explicitly.

## Left out

- Printing is not modelled. This covers the usage text, the error messages
  and the result. Each error path becomes a `CliError` value, and its
  message text is not modelled.
- Exit status is not modelled as a value. A `Failure` stands for exit
  status 1 and a `Success` for a normal exit after printing.
- `sys.argv` becomes the parameter `argv`.
- Python's `float` conversion of an operand becomes the abstract parameter
  `parse`. That covers its syntax, `inf` and `nan`, and its error message.
- IEEE-754 arithmetic is not modelled. Operands and results are exact
  reals, so there is no rounding, overflow to infinity, NaN or signed zero.
  The zero test of the divisor scan is exact equality with 0.
- `Calculator.Add`: Python's `sum` may use compensated summation for
  floats. This makes no difference over exact reals, and it is not
  modelled.
- The empty-input paths of `subtract` and `multiply` return the integer 0,
  not a float. The model returns the real 0, so only the printed form
  would differ.
- `CalculatorCli.Lower`: only the ASCII letters A-Z are lower-cased. Python's
  `str.lower` also folds non-ASCII letters, and that is not modelled.
- `foundry-local-agent-fx/generate_inference_model.py` is not part of this
  model. It only calls an external tokenizer template and writes the
  result to a JSON file.
