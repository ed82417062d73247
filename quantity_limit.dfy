/**
 * The "quantity limit" cart validation: every cart line whose product carries
 * a quantity-limit value, and whose quantity is above the number that value
 * parses to, yields one error addressed to the cart.
 */
module QuantityLimit {
  import opened Wrappers
  import opened Strings
  import opened JsNumbers

  /**
   * A cart line: its quantity and the text of its product's quantity-limit
   * metafield (`merchandise?.product?.metafield?.value`; `None` when any link
   * of that chain is missing).
   */
  datatype CartLine = CartLine(quantity: int, quantityLimit: Option<string>)

  datatype Input = Input(lines: seq<CartLine>)

  /** `{localizedMessage, target}`. */
  datatype ValidationError = ValidationError(localizedMessage: string, target: string)

  datatype FunctionResult = FunctionResult(errors: seq<ValidationError>)

  const MessagePrefix := "Not possible to order more than "

  const CartTarget := "cart"

  /** The limit of a line: its value when present and non-empty, read by `parseInt` (`None` is NaN). */
  function LimitOf(line: CartLine): Option<int>
  {
    if line.quantityLimit.Some? && |line.quantityLimit.value| > 0 then ParseInt(line.quantityLimit.value) else None
  }

  /** The filter callback: `line.quantity > quantityLimit`, which is false when the limit is NaN. */
  predicate ExceedsLimit(line: CartLine)
  {
    match LimitOf(line)
    case None => false
    case Some(limit) => line.quantity > limit
  }

  /** The map callback: the message reports the line's quantity minus one. */
  function ErrorFor(line: CartLine): ValidationError
  {
    ValidationError(MessagePrefix + IntToString(line.quantity - 1), CartTarget)
  }

  /** `lines.filter(...)`: the lines over their limit, in order. */
  function OffendingLines(lines: seq<CartLine>): (r: seq<CartLine>)
    ensures |r| <= |lines|
    ensures forall l :: l in r ==> l in lines && ExceedsLimit(l)
  {
    if lines == [] then []
    else
      var rest := OffendingLines(lines[1..]);
      if ExceedsLimit(lines[0]) then [lines[0]] + rest else rest
  }

  /** `.map(...)`: one error per line, in order. */
  function ErrorsFor(lines: seq<CartLine>): (r: seq<ValidationError>)
    ensures |r| == |lines|
    ensures forall k :: 0 <= k < |r| ==> r[k] == ErrorFor(lines[k])
  {
    if lines == [] then [] else [ErrorFor(lines[0])] + ErrorsFor(lines[1..])
  }

  /** The function's entry point. */
  function Run(input: Input): (result: FunctionResult)
    ensures |result.errors| <= |input.lines|
    ensures forall e :: e in result.errors ==>
      e.target == CartTarget && exists l :: l in input.lines && ExceedsLimit(l) && e == ErrorFor(l)
  {
    var offending := OffendingLines(input.lines);
    var errors := ErrorsFor(offending);
    assert forall e :: e in errors ==> exists k :: 0 <= k < |offending| && e == ErrorFor(offending[k]);
    FunctionResult(errors)
  }

  lemma {:induction false} OffendingLinesAppend(a: seq<CartLine>, b: seq<CartLine>)
    ensures OffendingLines(a + b) == OffendingLines(a) + OffendingLines(b)
  {
    if a == [] {
      assert a + b == b;
    } else {
      assert (a + b)[0] == a[0] && (a + b)[1..] == a[1..] + b;
      OffendingLinesAppend(a[1..], b);
    }
  }

  lemma {:induction false} ErrorsForAppend(a: seq<CartLine>, b: seq<CartLine>)
    ensures ErrorsFor(a + b) == ErrorsFor(a) + ErrorsFor(b)
  {
    if a == [] {
      assert a + b == b;
    } else {
      assert (a + b)[1..] == a[1..] + b;
      ErrorsForAppend(a[1..], b);
    }
  }

  /** Errors follow the line order: the errors of a cart are those of its parts, concatenated. */
  lemma RunAppend(a: seq<CartLine>, b: seq<CartLine>)
    ensures Run(Input(a + b)).errors == Run(Input(a)).errors + Run(Input(b)).errors
  {
    OffendingLinesAppend(a, b);
    ErrorsForAppend(OffendingLines(a), OffendingLines(b));
  }

  /** A line alone yields its one error when it is over its limit, and nothing otherwise. */
  lemma RunOneLine(line: CartLine)
    ensures Run(Input([line])).errors == if ExceedsLimit(line) then [ErrorFor(line)] else []
  {
    assert [line][1..] == [];
  }

  /** A line that is not over its limit contributes nothing, wherever it stands. */
  lemma ExemptLineContributesNothing(before: seq<CartLine>, line: CartLine, after: seq<CartLine>)
    requires !ExceedsLimit(line)
    ensures Run(Input(before + [line] + after)) == Run(Input(before + after))
  {
    RunAppend(before + [line], after);
    RunAppend(before, [line]);
    RunOneLine(line);
    RunAppend(before, after);
  }

  /** A line over its limit contributes exactly its one error, in its place. */
  lemma OffendingLineContributesOneError(before: seq<CartLine>, line: CartLine, after: seq<CartLine>)
    requires ExceedsLimit(line)
    ensures Run(Input(before + [line] + after)).errors ==
      Run(Input(before)).errors + [ErrorFor(line)] + Run(Input(after)).errors
  {
    RunAppend(before + [line], after);
    RunAppend(before, [line]);
    RunOneLine(line);
  }

  /** Every line over its limit is reported. */
  lemma {:induction false} OffendingLineReported(lines: seq<CartLine>, i: nat)
    requires i < |lines| && ExceedsLimit(lines[i])
    ensures ErrorFor(lines[i]) in Run(Input(lines)).errors
  {
    assert lines == lines[..i] + [lines[i]] + lines[i + 1..];
    OffendingLineContributesOneError(lines[..i], lines[i], lines[i + 1..]);
  }

  /** A line without a limit value, or with an empty one, never yields an error. */
  lemma MissingLimitExempt(line: CartLine)
    requires line.quantityLimit == None || line.quantityLimit == Some("")
    ensures !ExceedsLimit(line)
  {
  }

  /**
   * A line whose value is the decimal text of `limit` (with any white space
   * before it and any non-digit text after it) yields an error exactly when
   * its quantity is above `limit`.
   */
  lemma NumericLimitDecides(quantity: int, ws: string, limit: int, rest: string)
    requires forall i :: 0 <= i < |ws| ==> IsStrWhiteSpace(ws[i])
    requires rest == [] || !IsRadixDigit(rest[0], 10)
    requires limit == 0 ==> rest == [] || (rest[0] != 'x' && rest[0] != 'X')
    ensures ExceedsLimit(CartLine(quantity, Some(ws + IntToString(limit) + rest))) <==> quantity > limit
  {
    ParseIntOfIntToString(ws, limit, rest);
  }

  /**
   * A value in which `parseInt` finds no digits after white space and an
   * optional sign (so it gives NaN) never yields an error, whatever the quantity.
   */
  lemma NonNumericLimitExempt(quantity: int, ws: string, sign: string, rest: string)
    requires forall i :: 0 <= i < |ws| ==> IsStrWhiteSpace(ws[i])
    requires IsSign(sign)
    requires rest == [] || !IsRadixDigit(rest[0], 10)
    requires sign == "" ==> rest == [] || (!IsStrWhiteSpace(rest[0]) && rest[0] != '+' && rest[0] != '-')
    ensures !ExceedsLimit(CartLine(quantity, Some(ws + (sign + rest))))
  {
    ParseIntNaN(ws, sign, rest);
  }

  /** A "0x" or "0X" prefix with no hexadecimal digit after it is NaN too, so it yields no error. */
  lemma EmptyHexLimitExempt(quantity: int, ws: string, sign: string, x: char, rest: string)
    requires forall i :: 0 <= i < |ws| ==> IsStrWhiteSpace(ws[i])
    requires IsSign(sign)
    requires x == 'x' || x == 'X'
    requires rest == [] || !IsRadixDigit(rest[0], 16)
    ensures !ExceedsLimit(CartLine(quantity, Some(ws + (sign + (['0', x] + rest)))))
  {
    ParseIntEmptyHex(ws, sign, x, rest);
  }

  /**
   * The message is the fixed prefix followed by the decimal text of the line's
   * quantity minus one, and that text reads back as quantity minus one.
   */
  lemma MessageReportsQuantityMinusOne(line: CartLine)
    ensures StartsWith(ErrorFor(line).localizedMessage, MessagePrefix)
    ensures ParseInt(ErrorFor(line).localizedMessage[|MessagePrefix|..]) == Some(line.quantity - 1)
  {
    var n := line.quantity - 1;
    var text := IntToString(n);
    var message := ErrorFor(line).localizedMessage;
    assert message == MessagePrefix + text;
    assert message[..|MessagePrefix|] == MessagePrefix;
    assert message[|MessagePrefix|..] == text;
    ParseIntOfIntToString("", n, "");
    assert "" + text + "" == text;
  }

  /** The message does not depend on the limit: lines with equal quantities get equal errors. */
  lemma ErrorIndependentOfLimit(line1: CartLine, line2: CartLine)
    requires line1.quantity == line2.quantity
    ensures ErrorFor(line1) == ErrorFor(line2)
  {
  }

  /** Quantity 5 against the value "3": one error reporting 4. */
  lemma ExampleOverLimit()
    ensures Run(Input([CartLine(5, Some("3"))])).errors ==
      [ValidationError("Not possible to order more than 4", "cart")]
  {
    var line := CartLine(5, Some("3"));
    assert IntToString(3) == "3";
    NumericLimitDecides(5, "", 3, "");
    assert "" + "3" + "" == "3";
    RunOneLine(line);
    assert IntToString(4) == "4";
    assert ErrorFor(line) == ValidationError(MessagePrefix + "4", CartTarget);
    assert MessagePrefix + "4" == "Not possible to order more than 4";
  }

  /** Quantity 2 against the value "3": no error. */
  lemma ExampleWithinLimit()
    ensures Run(Input([CartLine(2, Some("3"))])).errors == []
  {
    assert IntToString(3) == "3";
    NumericLimitDecides(2, "", 3, "");
    assert "" + "3" + "" == "3";
    RunOneLine(CartLine(2, Some("3")));
  }
}
