# setjmp/longjmp error escape, modelled in Dafny

The program validates an integer deep inside a chain of calls. `main` saves a
recovery point with `setjmp` and calls `twice`, which forwards through
`twice2` and `twice3` to `twice4`. `twice4` doubles a value in [0, 100]. A
negative value makes it print a notice and `longjmp` back with
`NEGATIVE_VALUE` (1); a value above 100 does the same with `TOO_BIG_VALUE` (2).
Control then arrives at `main`'s `setjmp` call site a second time, now yielding
the carried code, and `main` prints that code instead of a result. The program
as written uses the input 1000 and so reports code 2.

The model (`longjmp_example.dfy`, module `LongjmpExample`) replaces the jump by
a sum type: each frame of the chain returns an `Outcome`, `Ok(value)` or
`Escape(code)`. `RunMain` is `main` with its input as a parameter. Its loop
stands for the arrivals of control at the `setjmp` call site: the first on
fresh entry, yielding 0, and at most one more after a jump, yielding the
carried code through `Longjmp`. Its output is checked against
`ExpectedOutput`, a reference stated by input range alone. The C `int` is the
newtype `Int32`. Printed lines are recorded as `Message` values naming the kind
of line and its numbers.

## Model

| member | source | states |
|---|---|---|
| `LongjmpExample.ErrorCode.Value` | examples/longjmp_example.c:6-10 | the enumerators stand for 0, 1 and 2, and only `OK` stands for 0 |
| `LongjmpExample.Twice4` | examples/longjmp_example.c:12-20 | normal completion exactly for 0 <= value <= 100, with result 2 * value in [0, 200]; escape with NEGATIVE_VALUE exactly for value < 0; escape with TOO_BIG_VALUE exactly for value > 100; never an escape with OK |
| `LongjmpExample.Twice4Trichotomy` | examples/longjmp_example.c:13-19 | every input has one of the three outcomes; with the exact input ranges stated by `Twice4`, no input has two |
| `LongjmpExample.Twice3` | examples/longjmp_example.c:22 | `twice3` returns normally exactly for 0 <= value <= 100, with 2 * value, and otherwise escapes with NEGATIVE_VALUE for a negative value and TOO_BIG_VALUE for a value above 100 |
| `LongjmpExample.Twice2` | examples/longjmp_example.c:23 | `twice2` has the same outcome as `twice4` for every input |
| `LongjmpExample.Twice` | examples/longjmp_example.c:24 | `twice` has the same outcome as `twice4` for every input |
| `LongjmpExample.TwiceTransparent` | examples/longjmp_example.c:22-24 | `twice`, `twice2` and `twice3` pass the outcome of `twice4` through unchanged |
| `LongjmpExample.EscapeCodeNonZero` | examples/longjmp_example.c:6-18 | every code the chain escapes with is non-zero, so it cannot be mistaken for fresh entry |
| `LongjmpExample.Longjmp` | examples/longjmp_example.c:15-18 | arriving at the `setjmp` call site through a jump yields the carried code, never 0; jumping needs a saved recovery point |
| `LongjmpExample.EscapeNotice` | examples/longjmp_example.c:13-18 | the notice printed before the jump names the offending value and matches the code: negative notice for NEGATIVE_VALUE, too-big notice for TOO_BIG_VALUE |
| `LongjmpExample.ExpectedOutput` | examples/longjmp_example.c:30-37 | one line, the doubled result for that input, exactly for inputs in [0, 100]; for a negative input the negative-value notice and error code 1; for an input above 100 the too-big notice and error code 2 |
| `LongjmpExample.RunMain` | examples/longjmp_example.c:26-39 | the printed lines equal `ExpectedOutput(input)`: the result line only on normal completion, the notice and the code line only after a jump; control arrives at the `setjmp` call site once without a jump and twice with one; exit status 0 on both branches |
| `LongjmpExample.Main1000` | examples/longjmp_example.c:32-38 | with the hard-coded input 1000 the program prints the too-big notice and error code 2, and exits with 0 |
| `LongjmpExample.InputMinus10ReportsNegative` | examples/longjmp_example.c:32 | the alternative input -10 named in the comment escapes with NEGATIVE_VALUE and reports error code 1 |

## Left out

- c_examples/strtol_example.c: it only calls the C library's `strtol` on literal strings and prints the results; the parsing is the library's, not this program's.
- examples/errno_example.c: it only opens a file and prints the library's `errno` message; no logic of its own.
- The machine context that `setjmp` saves in the global `jmp_buf state`: the model records only whether a recovery point is saved (`JmpBuf`), and the jump is an `Outcome` value rather than restored register state.
- Calling `longjmp` with no saved recovery point is undefined in C; `Longjmp` requires a saved one instead of modelling a failure.
- `setjmp` used as the initializer in the declaration of `error_code` in `main`: section 7.13.1.1 of ISO C11 does not list this among the contexts where `setjmp` may appear, so its behaviour is undefined; the model assumes the usual compiler behaviour, where the call site yields 0 on fresh entry and the carried code after a jump.
- `printf` formatting: each printed line is a `Message` naming its kind and its numbers, not the text.
