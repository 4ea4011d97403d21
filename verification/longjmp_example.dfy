/**
  A model of a program that validates an integer deep inside a chain of calls
  (twice -> twice2 -> twice3 -> twice4) and, on invalid input, abandons the
  whole chain with setjmp/longjmp, carrying an error code back to `main`.

  The non-local jump is modelled as a sum type: every frame of the chain
  returns an `Outcome`, either `Ok` with the doubled value or `Escape` with the
  code that `longjmp` would have carried. `main` is a method in which control
  arrives at the `setjmp` call site once on fresh entry and once more after a
  `longjmp`, exactly as the C program re-enters that call site.
 */
module LongjmpExample {

  /** The C `int`: 32-bit two's complement. */
  newtype Int32 = x: int | -0x8000_0000 <= x < 0x8000_0000

  /** The `error_code_t` enumeration. */
  datatype ErrorCode = OK | NegativeValue | TooBigValue {

    /** The integer each enumerator stands for in C. */
    function Value(): (n: int)
      ensures 0 <= n <= 2
      ensures n == 0 <==> this == OK
    {
      match this
      case OK => 0
      case NegativeValue => 1
      case TooBigValue => 2
    }
  }

  /** How a call into the chain ends: a normal return, or a longjmp with a code. */
  datatype Outcome = Ok(value: Int32) | Escape(code: ErrorCode)

  /** Inclusive bounds of the values `twice4` accepts. */
  const MinAccepted: Int32 := 0
  const MaxAccepted: Int32 := 100

  /**
    `twice4`: doubles a value in [0, 100]; a negative value escapes with
    NEGATIVE_VALUE, a value above 100 with TOO_BIG_VALUE. The negative test
    comes first.
   */
  function Twice4(value: Int32): (r: Outcome)
    ensures r.Ok? <==> MinAccepted <= value <= MaxAccepted
    ensures r.Ok? ==> r.value as int == 2 * value as int && 0 <= r.value <= 200
    ensures r == Escape(NegativeValue) <==> value < 0
    ensures r == Escape(TooBigValue) <==> value > 100
    ensures r.Escape? ==> r.code != OK
  {
    if value < 0 then Escape(NegativeValue)
    else if value > 100 then Escape(TooBigValue)
    else Ok(2 * value)
  }

  /** `twice3`: forwards its argument to `twice4`, so it doubles or escapes by the same ranges. */
  function Twice3(value: Int32): (r: Outcome)
    ensures r.Ok? <==> MinAccepted <= value <= MaxAccepted
    ensures r.Ok? ==> r.value as int == 2 * value as int
    ensures r.Escape? ==> r.code == (if value < 0 then NegativeValue else TooBigValue)
  {
    Twice4(value)
  }

  /** `twice2`: forwards its argument to `twice3`; the outcome is that of `twice4`. */
  function Twice2(value: Int32): (r: Outcome)
    ensures r == Twice4(value)
  {
    Twice3(value)
  }

  /** `twice`: forwards its argument to `twice2`; the outcome is that of `twice4`. */
  function Twice(value: Int32): (r: Outcome)
    ensures r == Twice4(value)
  {
    Twice2(value)
  }

  /** Every input has exactly one of the three outcomes of `twice4`. */
  lemma Twice4Trichotomy(value: Int32)
    ensures Twice4(value).Ok? || Twice4(value) == Escape(NegativeValue) || Twice4(value) == Escape(TooBigValue)
  {
  }

  /** The forwarding frames pass the outcome of `twice4` through unchanged. */
  lemma TwiceTransparent(value: Int32)
    ensures Twice(value) == Twice2(value) == Twice3(value) == Twice4(value)
  {
  }

  /** No frame of the chain ever escapes with OK, the code reserved for fresh entry. */
  lemma EscapeCodeNonZero(value: Int32)
    ensures Twice(value).Escape? ==> Twice(value).code.Value() != 0
  {
  }

  /** The `jmp_buf state` global: whether `setjmp` has saved a recovery point. */
  datatype JmpBuf = Unset | Saved

  /**
    The value that the `setjmp` call site yields when control arrives there
    through `longjmp(buf, val)`. Jumping to a buffer that was never saved is
    undefined in C, so it is excluded. A `longjmp` with 0 makes `setjmp` yield 1
    (section 7.13.2.1 of ISO C11), so a resumed arrival is never taken for a
    fresh one.
   */
  function Longjmp(buf: JmpBuf, val: int): (yielded: int)
    requires buf.Saved?
    ensures yielded != 0
    ensures val != 0 ==> yielded == val
  {
    if val == 0 then 1 else val
  }

  /** The kinds of line the program prints. */
  datatype Message =
    | NegativeValueNotice(value: Int32)          // "(!) Negative value: %d"
    | TooBigValueNotice(value: Int32)            // "(!) Too big value: %d"
    | TwiceOf(input: Int32, result: Int32)       // "Twice of %d is %d"
    | ErrorCodeNotice(code: int)                 // "Error code %d"

  /** The notice `twice4` prints just before it jumps with `code`. */
  function EscapeNotice(code: ErrorCode, value: Int32): (m: Message)
    requires code != OK
    ensures m.NegativeValueNotice? <==> code == NegativeValue
    ensures m.TooBigValueNotice? <==> code == TooBigValue
    ensures (m.NegativeValueNotice? || m.TooBigValueNotice?) && m.value == value
  {
    match code
    case NegativeValue => NegativeValueNotice(value)
    case TooBigValue => TooBigValueNotice(value)
  }

  /**
    What `main` prints for a given input, stated by input range alone, without
    the call chain or the jump.
   */
  function ExpectedOutput(input: Int32): (out: seq<Message>)
    ensures |out| == 1 <==> 0 <= input <= 100
    ensures |out| == 1 ==> out[0].TwiceOf? && out[0].result as int == 2 * input as int
    ensures |out| == 1 ==> out[0].TwiceOf? && out[0].input == input
    ensures |out| != 1 ==> |out| == 2 && out[1].ErrorCodeNotice? && out[1].code != 0
    ensures input < 0 ==> out == [EscapeNotice(NegativeValue, input), ErrorCodeNotice(NegativeValue.Value())]
    ensures input > 100 ==> out == [EscapeNotice(TooBigValue, input), ErrorCodeNotice(TooBigValue.Value())]
  {
    if input < 0 then [NegativeValueNotice(input), ErrorCodeNotice(1)]
    else if input > 100 then [TooBigValueNotice(input), ErrorCodeNotice(2)]
    else [TwiceOf(input, 2 * input)]
  }

  /**
    `main` with its input as a parameter. Control arrives at the `setjmp` call
    site once on fresh entry, where it yields 0, and, if the chain jumps, once
    more, where it yields the carried code. `arrivals` counts these arrivals.
    The result line is printed only when the chain returns normally; the code
    line only after a jump. The exit status is 0 either way.
   */
  method RunMain(input: Int32) returns (exitStatus: int, output: seq<Message>, arrivals: nat)
    ensures exitStatus == 0
    ensures output == ExpectedOutput(input)
    ensures arrivals == if Twice(input).Ok? then 1 else 2
  {
    output := [];
    // setjmp(state) on fresh entry: the recovery point is saved and 0 is yielded.
    var state := Saved;
    var errorCode := 0;
    arrivals := 1;
    var returned := false;
    while !returned
      invariant state.Saved?
      invariant 1 <= arrivals <= 2
      invariant !returned && arrivals == 1 ==> errorCode == OK.Value() && output == []
      invariant arrivals == 2 ==> Twice(input).Escape?
      invariant !returned && arrivals == 2 ==>
        errorCode == Twice(input).code.Value() && output == [EscapeNotice(Twice(input).code, input)]
      invariant returned ==> output == ExpectedOutput(input)
      invariant returned ==> arrivals == if Twice(input).Ok? then 1 else 2
      decreases 2 - arrivals, !returned
    {
      if errorCode == OK.Value() {
        match Twice(input)
        case Ok(result) =>
          output := output + [TwiceOf(input, result)];
          returned := true;
        case Escape(code) =>
          // twice4 prints its notice, then longjmp(state, code) abandons the
          // chain and control arrives at the setjmp call site again.
          output := output + [EscapeNotice(code, input)];
          errorCode := Longjmp(state, code.Value());
          arrivals := arrivals + 1;
      } else {
        output := output + [ErrorCodeNotice(errorCode)];
        returned := true;
      }
    }
    exitStatus := 0;
  }

  /** The program as written: the hard-coded input 1000 reports TOO_BIG_VALUE. */
  method Main1000() returns (exitStatus: int, output: seq<Message>)
    ensures exitStatus == 0
    ensures output == [TooBigValueNotice(1000), ErrorCodeNotice(TooBigValue.Value())]
  {
    var arrivals;
    exitStatus, output, arrivals := RunMain(1000);
  }

  /** The alternative input named in the comment in `main`, -10, reports NEGATIVE_VALUE. */
  lemma InputMinus10ReportsNegative()
    ensures ExpectedOutput(-10) == [NegativeValueNotice(-10), ErrorCodeNotice(NegativeValue.Value())]
    ensures Twice(-10) == Escape(NegativeValue)
  {
  }
}
