# Checkout functions of a Shopify store app, in Dafny

This project models the two checkout "function" extensions of a Shopify
merchant app. Both are pure and deterministic. Each takes the input document
the checkout runtime hands it and returns a result document.

- **Hide shipping rates** (`HideShippingRates`, in `hide_shipping_rates.dfy`).
  The merchant stores a setting `{zipCodes, rate}`. If either part is missing
  or empty, nothing changes. Otherwise a delivery group qualifies when its
  destination postcode, upper-cased, starts with some entry of `zipCodes`
  split on `","`, also upper-cased. Entries are not trimmed. For each
  qualifying group, in order, the function emits one `hide` operation per
  delivery option whose title equals `rate` exactly.
- **Quantity limit** (`QuantityLimit`, in `quantity_limit.dfy`). Each cart
  line whose product carries a non-empty quantity-limit value has that value
  read by JavaScript `parseInt`. A line whose quantity is above that number
  yields the error `{localizedMessage, target: "cart"}`. The message is
  "Not possible to order more than " followed by the line's quantity minus
  one. It does not report the limit, and the model keeps this literally. A
  value that `parseInt` reads as NaN exempts the line.

Supporting modules:

- `Wrappers` (`wrappers.dfy`): `Option`. A missing JavaScript property
  (`undefined`, `null`, a broken `?.` chain) is `None`.
- `Strings` (`strings.dfy`): ASCII `toUpperCase`, `startsWith`, `split` with
  a one-character separator, and `join`, its inverse.
- `JsNumbers` (`js_numbers.dfy`): `parseInt` with no radix, following
  section 19.2.5 of ECMA-262. It skips the full StrWhiteSpaceChar set, takes
  an optional sign, switches to base 16 after `0x`/`0X`, and reads the longest
  digit run. The module also has the decimal text of an integer, as a template
  literal writes an integer-valued Number.

The per-group test in the shipping filter is the method
`HideShippingRates.GroupQualifies`. It keeps the source's shape: a flag set
inside a loop over the split prefixes. The method is proved equal to the
existential predicate `Qualifies`. The filter, flatMap and map pipeline uses
that predicate as functions over sequences.

## Model

| member | source | states |
|---|---|---|
| `HideShippingRates.Run` | extensions/hide-shipping-rates/src/index.js:22-71 | If `zipCodes` or `rate` is missing or empty, the result is `{operations: []}`, whatever the cart holds. Otherwise there is one operation per option titled `rate` in a qualifying group, and an operation is emitted exactly when it hides such an option. |
| `HideShippingRates.Operations` | extensions/hide-shipping-rates/src/index.js:37-66 | The filter, flatMap and map pipeline on active settings. Its contents, count and order are stated by `OperationsExactly`, `OperationCount` and `OperationsAppend`. |
| `HideShippingRates.OperationsExactly` | extensions/hide-shipping-rates/src/index.js:37-66 | An operation is emitted exactly when it hides an option titled `rate` of a qualifying group. |
| `HideShippingRates.Qualifies` | extensions/hide-shipping-rates/src/index.js:39-52 | The filter test: a non-empty postcode that, upper-cased, starts with some upper-cased comma-separated entry. The loop `GroupQualifies` computes it; `MissingZipNeverQualifies`, `EmptyEntryMatchesEveryZip` and `QualifiesIgnoresCase` state its corners. |
| `HideShippingRates.MissingZipNeverQualifies` | extensions/hide-shipping-rates/src/index.js:41 | A group whose postcode is missing or empty never qualifies. |
| `HideShippingRates.GroupQualifies` | extensions/hide-shipping-rates/src/index.js:39-52 | The loop's flag ends up set exactly when the group has a non-empty postcode and some split entry, upper-cased, is a prefix of the upper-cased postcode. |
| `HideShippingRates.EmptyEntryMatchesEveryZip` | extensions/hide-shipping-rates/src/index.js:43-46 | An empty entry among the split prefixes makes every group with a non-empty postcode qualify. |
| `HideShippingRates.TrailingCommaMatchesEveryZip` | extensions/hide-shipping-rates/src/index.js:43-46 | A setting ending in a comma makes every group with a non-empty postcode qualify. |
| `HideShippingRates.QualifiesIgnoresCase` | extensions/hide-shipping-rates/src/index.js:42-46 | Changing the letter case of the postcode or of the setting does not change whether a group qualifies. |
| `HideShippingRates.OperationsIgnoreCase` | extensions/hide-shipping-rates/src/index.js:37-66 | Changing the letter case of postcodes and setting does not change the operations of the pipeline. |
| `HideShippingRates.RunIgnoresCase` | extensions/hide-shipping-rates/src/index.js:22-71 | The whole result is unchanged when only the letter case of postcodes and of `zipCodes` differs. |
| `HideShippingRates.QualifyingGroups` | extensions/hide-shipping-rates/src/index.js:37-53 | The group filter. `QualifyingGroupsMembers` and `QualifyingGroupsAppend` state what it keeps and in which order. |
| `HideShippingRates.QualifyingGroupsMembers` | extensions/hide-shipping-rates/src/index.js:37-53 | The group filter keeps exactly the qualifying groups and never grows the list. |
| `HideShippingRates.QualifyingGroupsAppend` | extensions/hide-shipping-rates/src/index.js:37-53 | The group filter keeps group order: it distributes over concatenation. |
| `HideShippingRates.TitledOptions` | extensions/hide-shipping-rates/src/index.js:55-57 | The option filter keeps exactly the options whose title equals `rate`, case-sensitively, and a null title never matches. |
| `HideShippingRates.TitledOptionsAppend` | extensions/hide-shipping-rates/src/index.js:55-57 | The option filter keeps the options' order. |
| `HideShippingRates.OptionsToHide` | extensions/hide-shipping-rates/src/index.js:54-58 | The flatMap over the qualifying groups. `OptionsToHideMembers` and `OptionsToHideAppend` state what it yields and in which order. |
| `HideShippingRates.OptionsToHideMembers` | extensions/hide-shipping-rates/src/index.js:54-58 | The flatMap yields exactly the options titled `rate` that sit in one of the given groups. |
| `HideShippingRates.OptionsToHideAppend` | extensions/hide-shipping-rates/src/index.js:54-58 | The flatMap keeps group order. |
| `HideShippingRates.HideAll` | extensions/hide-shipping-rates/src/index.js:59-66 | The map yields one operation per option, in place, carrying that option's handle. |
| `HideShippingRates.OperationsCons` | extensions/hide-shipping-rates/src/index.js:37-66 | The operations of a group come first, followed by those of the groups after it. |
| `HideShippingRates.OperationsAppend` | extensions/hide-shipping-rates/src/index.js:37-66 | The operations of a concatenation of groups are those of each part, concatenated, so group order is kept. Option order inside a group follows from `OperationsCons`, `TitledOptionsAppend` and `HideAll`. |
| `HideShippingRates.NonQualifyingGroupContributesNothing` | extensions/hide-shipping-rates/src/index.js:37-53 | Removing a group that does not qualify leaves the operations unchanged. |
| `HideShippingRates.OperationCount` | extensions/hide-shipping-rates/src/index.js:45-58 | The number of operations is the sum, over qualifying groups, of their options titled `rate`. Each such option gives one operation however many prefixes match. |
| `HideShippingRates.HiddenOptionsMatch` | extensions/hide-shipping-rates/src/index.js:54-64 | Every emitted handle belongs to an option titled `rate` in a qualifying group. |
| `HideShippingRates.MatchingOptionsHidden` | extensions/hide-shipping-rates/src/index.js:54-64 | Every option titled `rate` in a qualifying group has its handle emitted. |
| `HideShippingRates.ExampleMatchingPostcode` | extensions/hide-shipping-rates/src/index.js:22-71 | With `{zipCodes: "AB,CD", rate: "Standard"}`, a group shipping to "AB1 2CD" with options Standard/h1 and Express/h2 gives exactly `[hide h1]`. |
| `HideShippingRates.ExampleOtherPostcode` | extensions/hide-shipping-rates/src/index.js:22-71 | With the same setting, a group shipping to "ZZ9 1AA" gives no operation. |
| `Strings.ToUpper` | extensions/hide-shipping-rates/src/index.js:42 | Upper-casing keeps the length and upper-cases each ASCII letter in place. |
| `Strings.CaseVariantSameUpper` | extensions/hide-shipping-rates/src/index.js:46 | Texts that differ only in letter case have the same upper-cased form. |
| `Strings.StartsWith` | extensions/hide-shipping-rates/src/index.js:46 | `startsWith`: the prefix is at most as long as the text and equals its first characters. `StartsWithAppend` characterises it. |
| `Strings.StartsWithAppend` | extensions/hide-shipping-rates/src/index.js:46 | A text starts with a prefix exactly when it is that prefix followed by some text. |
| `Strings.Split` | extensions/hide-shipping-rates/src/index.js:43 | `split(",")` gives at least one piece, no piece holds a comma, and joining the pieces with commas gives back the text. |
| `Strings.SplitJoin` | extensions/hide-shipping-rates/src/index.js:43 | Splitting a comma-join of comma-free pieces gives back those pieces. |
| `Strings.SplitTrailingSeparator` | extensions/hide-shipping-rates/src/index.js:43 | A trailing comma adds one empty piece at the end. |
| `Strings.SplitSameUpper` | extensions/hide-shipping-rates/src/index.js:42-46 | Texts equal up to case split into equally many pieces that are pairwise equal up to case. |
| `JsNumbers.ParseInt` | extensions/quantity-limit/src/index.js:19-21 | `parseInt` with no radix: white space, optional sign, `0x`/`0X` prefix, longest digit run, NaN as `None`. The lemmas below state its behaviour. |
| `JsNumbers.TrimStart` | extensions/quantity-limit/src/index.js:19-21 | `parseInt` drops exactly the leading white space. |
| `JsNumbers.DigitPrefixLength` | extensions/quantity-limit/src/index.js:19-21 | `parseInt` reads the longest run of digits of the radix. |
| `JsNumbers.NatToString` | extensions/quantity-limit/src/index.js:28 | The decimal text of a natural number is non-empty, all digits, has no leading zero, and denotes the number again. |
| `JsNumbers.ParseIntDecimal` | extensions/quantity-limit/src/index.js:19-21 | After white space and an optional `+` or `-`, a decimal run followed by text that cannot extend it reads as the run's value with the sign applied. Leading zeros do not matter. This holds unless the digits are exactly `0` and the rest starts with `x` or `X`, which starts a hexadecimal number instead. |
| `JsNumbers.ParseIntHex` | extensions/quantity-limit/src/index.js:19-21 | After white space and an optional sign, `0x` or `0X` switches to base 16. The following hexadecimal run gives the value, and an empty run gives NaN. |
| `JsNumbers.ParseIntExampleLeadingZeros` | extensions/quantity-limit/src/index.js:19-21 | `parseInt("007")` is 7. |
| `JsNumbers.ParseIntExamplePlusSign` | extensions/quantity-limit/src/index.js:19-21 | `parseInt(" +3")` is 3. |
| `JsNumbers.ParseIntExampleHex` | extensions/quantity-limit/src/index.js:19-21 | `parseInt("0x1F")` is 31. |
| `JsNumbers.ParseIntExampleNegativeHex` | extensions/quantity-limit/src/index.js:19-21 | `parseInt("-0X1f")` is -31. |
| `JsNumbers.IntToString` | extensions/quantity-limit/src/index.js:28 | The text `${n}` writes for an integer: a minus sign for negatives, then the digits of the magnitude. `ParseIntOfIntToString` reads it back. |
| `JsNumbers.ParseIntOfIntToString` | extensions/quantity-limit/src/index.js:19-21 | `parseInt` of white space, then the decimal text of an integer, then text no digit starts, gives that integer. This holds unless the integer is 0 and the text after it starts with `x` or `X`, which starts a hexadecimal number instead. |
| `JsNumbers.ParseIntSkipsWhiteSpace` | extensions/quantity-limit/src/index.js:19-21 | Leading white space never changes what `parseInt` returns. |
| `JsNumbers.ParseIntNaN` | extensions/quantity-limit/src/index.js:19-21 | After white space and an optional sign, text that does not start with a decimal digit gives NaN. Without a sign, the text must also not start with white space or a sign. Examples are `""`, `"x"`, `"-"`, `"+x"`, `"- 3"` and `"+-3"`. |
| `JsNumbers.ParseIntEmptyHex` | extensions/quantity-limit/src/index.js:19-21 | After white space and an optional sign, `0x` or `0X` followed by no hexadecimal digit gives NaN. |
| `QuantityLimit.LimitOf` | extensions/quantity-limit/src/index.js:15-21 | A present, non-empty value read by `parseInt`, otherwise `None`. `MissingLimitExempt`, `NumericLimitDecides` and `NonNumericLimitExempt` state its effect. |
| `QuantityLimit.ExceedsLimit` | extensions/quantity-limit/src/index.js:22-24 | The filter test `quantity > limit`, false when the limit is NaN. |
| `QuantityLimit.ErrorFor` | extensions/quantity-limit/src/index.js:27-29 | The error of a line. `MessageReportsQuantityMinusOne` and `ErrorIndependentOfLimit` state what it holds. |
| `QuantityLimit.OffendingLines` | extensions/quantity-limit/src/index.js:13-26 | The line filter keeps only lines over their limit and never grows the list. |
| `QuantityLimit.ErrorsFor` | extensions/quantity-limit/src/index.js:27-30 | The map yields one error per offending line, in place. |
| `QuantityLimit.Run` | extensions/quantity-limit/src/index.js:12-35 | There are at most as many errors as lines. Every error targets "cart" and is the error of some line over its limit. |
| `QuantityLimit.RunAppend` | extensions/quantity-limit/src/index.js:13-30 | Errors follow line order: the errors of a cart are those of its parts, concatenated. |
| `QuantityLimit.ExemptLineContributesNothing` | extensions/quantity-limit/src/index.js:15-24 | A line that is not over its limit contributes nothing, wherever it stands. |
| `QuantityLimit.OffendingLineContributesOneError` | extensions/quantity-limit/src/index.js:13-30 | A line over its limit contributes exactly one error, in its place. |
| `QuantityLimit.OffendingLineReported` | extensions/quantity-limit/src/index.js:22-24 | Every line over its limit is reported. |
| `QuantityLimit.MissingLimitExempt` | extensions/quantity-limit/src/index.js:15-18 | A line whose value is missing or empty never yields an error. |
| `QuantityLimit.NumericLimitDecides` | extensions/quantity-limit/src/index.js:19-24 | A line whose value is the decimal text of `L` (with white space before and non-digit text after) yields an error exactly when its quantity is above `L`. This holds unless the integer is 0 and the text after it starts with `x` or `X`, which starts a hexadecimal number instead. |
| `QuantityLimit.NonNumericLimitExempt` | extensions/quantity-limit/src/index.js:19-24 | A value in which `parseInt` finds no digit after white space and an optional sign (the NaN texts of `ParseIntNaN`) never yields an error, whatever the quantity. |
| `QuantityLimit.EmptyHexLimitExempt` | extensions/quantity-limit/src/index.js:19-24 | A value whose `0x` or `0X` prefix, after white space and an optional sign, has no hexadecimal digit after it is NaN and never yields an error. |
| `QuantityLimit.MessageReportsQuantityMinusOne` | extensions/quantity-limit/src/index.js:28 | The message is the fixed prefix followed by text that reads back as the line's quantity minus one. |
| `QuantityLimit.ErrorIndependentOfLimit` | extensions/quantity-limit/src/index.js:27-30 | Two lines with equal quantities get equal errors, whatever their limits. |
| `QuantityLimit.ExampleOverLimit` | extensions/quantity-limit/src/index.js:12-35 | Quantity 5 against the value "3" gives exactly one error, "Not possible to order more than 4", targeting "cart". |
| `QuantityLimit.ExampleWithinLimit` | extensions/quantity-limit/src/index.js:12-35 | Quantity 2 against the value "3" gives no error. |

## Left out

- `JSON.parse` of the shipping setting (extensions/hide-shipping-rates/src/index.js:30-32): the model takes the setting already parsed, as two optional strings. A missing metafield parses `"{}"` and gives `Configuration(None, None)`. Malformed text makes the real `JSON.parse` throw. The text `null` parses to `null`, and the property read at extensions/hide-shipping-rates/src/index.js:33 then throws. Neither failure is modelled. Any other JSON value that is not an object, such as a number or a string, has no `zipCodes` property, so it behaves like `Configuration(None, None)` and the result is `{operations: []}`.
- Settings that are not strings: the admin form always stores strings. A numeric `rate` would compare loosely (`==`) with a title, and a non-string `zipCodes` would make `split` throw; neither is modelled.
- Dafny strings are sequences of Unicode scalar values, while JavaScript strings are sequences of UTF-16 code units. JavaScript `length` counts code units, so it differs from `|s|` for characters outside the Basic Multilingual Plane. The source only tests it for zero (extensions/quantity-limit/src/index.js:17), where the two agree. `split`, ASCII upper-casing, `startsWith` and the white-space set agree on well-formed text. A lone surrogate cannot be represented.
- Full Unicode `toUpperCase`: only ASCII letters are upper-cased. Other characters, such as "ß" or accented letters, are left unchanged.
- `parseInt` number range: its result is a mathematical integer, not a double. This does not change the `quantity > limit` comparison for quantities of magnitude below 2^53. Beyond that the two can differ: for quantity -2^53 and the text "-9007199254740993", `parseInt` rounds the text to -2^53 and the source finds no error, while the model compares with -2^53 - 1 and finds one. The 32-bit bound on quantities, stated in the next line, rules such cases out. It does not model the rounding of very long digit runs or their overflow to Infinity. A negative zero is zero, which compares the same.
- JsNumbers.IntToString: covers integers only, written in plain decimal. JavaScript writes a Number of 10^21 or more with an exponent (`1e+21`), and arithmetic above 2^53 is inexact. Neither matters for the message: a cart line's quantity is a GraphQL `Int`, a signed 32-bit integer, so quantity minus one is exact and prints in plain decimal. The model does not bound `quantity`; it takes any integer.
- The host runtime entrypoint, the generated GraphQL input types, and the optional chaining of `deliveryAddress?.zip` and `merchandise?.product?.metafield?.value`: each chain is collapsed into one `Option` field.
- app/routes/app._index.jsx, app/routes/app.hide-shipping-rates.$functionId.$id.jsx and extensions/shipping-address-validation/src/Checkout.jsx: admin UI, GraphQL calls and a rendered banner, with no decision logic.
- Determinism and idempotence hold trivially, because every operation is a Dafny function. No separate lemma states them.
