# Kotlin idioms, modelled in Dafny

`src/Idioms.kt` is a single `main` function that demonstrates Kotlin idioms one after
another. Most of it only prints. This project models the fragments whose behaviour can be
stated exactly, and proves that behaviour:

- the colour-code tables `transform` and `transform2` (module `Colors`, `colors.dfy`);
- the `if`-expression classifier `foo(param)` and the type-testing `hasPrefix`
  (`Conditionals`, `conditionals.dfy`);
- the null-safety idioms: `values["email"] ?: throw`, `firstOrNull() ?: ""` and
  `value?.let { transformValue(it) } ?: defaultValue` (`NullSafety`, `nullsafety.dfy`);
- `intList.filter { it > 0 }` (`Collections`, `collections.dfy`);
- `arrayOfMinusOnes`, which fills a fresh `IntArray` with -1 in place (`Arrays`, `arrays.dfy`);
- the `for` loops over `1..100`, `1 until 100`, `2..10 step 2` and `10 downTo 1`
  (`Ranges`, `ranges.dfy`);
- the swap `a = b.also { b = a }` (`Variables`, `variables.dfy`).

Kotlin's `null` is `Wrappers.Option.None`. A thrown exception is `Wrappers.Result.Thrown`
carrying a `Wrappers.Exception`, so every error path is part of the model and no
precondition rules one out. The pure expressions are functions. The in-place fill, the swap
and the range loops are methods with loops and local variables, as in the source.

`values["email"] ?: throw` looks up the one literal key `"email"`. The file read at lines
280-285 is I/O and is listed under Left out.

## Model

| member | source | states |
|---|---|---|
| Colors.Transform | src/Idioms.kt:179-186 | yields 0, 1 and 2 exactly for "Red", "Green" and "Blue"; throws IllegalArgumentException("Invalid color param value") exactly for every other string |
| Colors.Transform2 | src/Idioms.kt:234-239 | every code it yields lies in 0..2; anything it throws is the invalid-colour exception |
| Colors.TransformsAgree | src/Idioms.kt:234-239 | `transform2` agrees with `transform` on every string |
| Colors.TransformInvertsColorName | src/Idioms.kt:179-186 | a string decodes to a code if and only if it is that code's colour name in the inverse table |
| Colors.TransformOnto | src/Idioms.kt:179-186 | every code 0..2 is produced by some colour name |
| Conditionals.Foo | src/Idioms.kt:206-214 | the `if` expression is "one" iff param == 1, "two" iff param == 2, and "three" iff param is neither |
| Conditionals.StartsWith | src/Idioms.kt:73 | the character-by-character prefix test holds iff the prefix is no longer than the string and equals its front |
| Conditionals.HasPrefix | src/Idioms.kt:72-75 | true iff the argument is a String whose first six characters are "prefix"; false for every non-String |
| Conditionals.HasPrefixOfConcat | src/Idioms.kt:72-75 | every String that begins with "prefix" passes, whatever follows |
| NullSafety.Get | src/Idioms.kt:152 | indexing a map yields a value iff the key is present, and then the bound value |
| NullSafety.Elvis | src/Idioms.kt:157 | `?:` yields the non-null value, or the default for null |
| NullSafety.ElvisThrow | src/Idioms.kt:152 | `?: throw e` yields the value iff it is non-null and throws `e` otherwise |
| NullSafety.Email | src/Idioms.kt:151-152 | yields v iff "email" is bound to v; throws IllegalStateException("Email is missing!") iff the key is absent |
| NullSafety.EmailOfValues | src/Idioms.kt:151-152 | in the script's map the lookup yields 2 |
| NullSafety.EmailAbsentThrows | src/Idioms.kt:152 | an absent key never yields a value; the lookup throws |
| NullSafety.EmailIgnoresOtherKeys | src/Idioms.kt:151-152 | binding any other key leaves the outcome unchanged |
| NullSafety.FirstOrNull | src/Idioms.kt:157 | non-null iff the list is non-empty, and then its first element |
| NullSafety.MainEmail | src/Idioms.kt:156-157 | the first element of a non-empty list, "" for an empty one; never throws |
| NullSafety.MainEmailOfEmails | src/Idioms.kt:156-157 | for the script's list the result is "from@me" |
| NullSafety.Let | src/Idioms.kt:173 | `?.let` is null for a null receiver, and otherwise is the lambda's result, which may itself be null |
| NullSafety.LetElvisDefault | src/Idioms.kt:173-175 | `?.let { } ?: default` gives the default exactly when the value or the transform result is null, and the transform result otherwise |
| NullSafety.TransformValue | src/Idioms.kt:169-171 | always 1 |
| NullSafety.Mapped | src/Idioms.kt:172-173 | transformValue(value), which is 1, for a non-null value; defaultValue for null |
| NullSafety.LetNullIgnoresTransform | src/Idioms.kt:173-175 | on null the result does not depend on the transform at all, and `?:` then returns the default |
| NullSafety.MappedOfScript | src/Idioms.kt:161-173 | with value 99 and defaultValue 0 the result is 1 |
| Collections.Filter | src/Idioms.kt:49 | the result is a subsequence of the input, no longer than it; each value occurs in it as often as in the input if it satisfies the predicate and not at all otherwise |
| Collections.Positives | src/Idioms.kt:53 | exactly the positive elements, with their multiplicities, in their original order |
| Collections.FilterKeepsAll | src/Idioms.kt:49 | a list whose every element satisfies the predicate is kept whole |
| Collections.FilterIdempotent | src/Idioms.kt:49 | filtering a filtered list again changes nothing |
| Collections.FilterConcat | src/Idioms.kt:49 | filtering distributes over concatenation, so order is preserved across any split |
| Collections.PositivesOfIntList | src/Idioms.kt:48-53 | filtering listOf(1, 2, 3) keeps all three |
| Arrays.Fill | src/Idioms.kt:219 | afterwards every element of the array equals the fill value |
| Arrays.ArrayOfMinusOnes | src/Idioms.kt:218-220 | throws NegativeArraySizeException iff size < 0; otherwise a fresh array of length exactly size whose every element is -1 |
| Variables.SwapAlso | src/Idioms.kt:313 | afterwards each variable holds the other's previous value |
| Variables.SwapTwiceRestores | src/Idioms.kt:310-313 | swapping twice restores both variables |
| Ranges.Elements | src/Idioms.kt:89-100 | a loop over a progression runs not at all iff the progression is empty |
| Ranges.ElementsAt | src/Idioms.kt:89-100 | the k-th value of the loop variable is first + k * step |
| Ranges.ElementsWithin | src/Idioms.kt:89-100 | every value lies between the two ends, and one more stride past the final value would leave them |
| Ranges.ElementsEndAtLast | src/Idioms.kt:89-100 | on a progression Kotlin builds, a loop that runs ends with the loop variable equal to `last`, where Kotlin's iterator stops |
| Ranges.RangeTo | src/Idioms.kt:89 | `a..b` walks upwards by 1 from a to b, b included, and is a progression Kotlin builds |
| Ranges.Until | src/Idioms.kt:92 | `a until b` walks upwards by 1 from a to b - 1, and is a progression Kotlin builds |
| Ranges.DownTo | src/Idioms.kt:98 | `a downTo b` walks downwards by 1 from a to b, and is a progression Kotlin builds |
| Ranges.LastElement | src/Idioms.kt:95 | for a non-empty progression the trimmed end is first + k * step for some k >= 0, within the old end and less than one stride before it; which pins it down uniquely |
| Ranges.Step | src/Idioms.kt:95 | throws IllegalArgumentException iff the step is not positive; otherwise keeps the start, sets the stride with the original direction, is empty iff the original is, and its `last` is reachable in whole strides and within one stride of the old end |
| Ranges.TrimKeepsElements | src/Idioms.kt:95 | moving `last` to anywhere short of the next stride past the final element does not change the values visited |
| Ranges.StepKeepsElements | src/Idioms.kt:95-97 | `p step s` visits exactly the values that striding by s from p's start towards p's end visits |
| Ranges.ForEach | src/Idioms.kt:89-100 | the loop variable takes exactly the progression's values in order, and x is x0 if the body never ran and 99 otherwise |
| Ranges.UnitStepElements | src/Idioms.kt:89-100 | a unit-stride loop runs once per integer between its ends and visits exactly those integers |
| Ranges.ClosedRangeRunsHundredTimes | src/Idioms.kt:89-91 | `1..100` runs 100 times and includes 1 and 100 |
| Ranges.HalfOpenRangeRunsNinetyNineTimes | src/Idioms.kt:92-94 | `1 until 100` runs 99 times, reaches 99 and never reaches 100 |
| Ranges.SteppedRangeVisitsEvens | src/Idioms.kt:95-97 | `2..10 step 2` is the progression 2 to 10 by 2 and visits 2, 4, 6, 8, 10 |
| Ranges.DownToRunsTenTimes | src/Idioms.kt:98-100 | `10 downTo 1` runs 10 times, the k-th value being 10 - k |

## Left out

- Kotlin's `Int` is 32-bit; the model uses unbounded integers. The range loops and the
  `step` trimming do not model wrap-around at `Int.MAX_VALUE`/`Int.MIN_VALUE`, nor
  `until Int.MIN_VALUE` giving the empty range. Every literal in the script is far from
  those bounds.
- Ranges.Step: its exception message is Kotlin's "Step must be positive, was: <step>."
  without the trailing value.
- Kotlin strings are sequences of UTF-16 code units; Dafny's `string` is a sequence of
  Unicode scalar values, so strings holding a lone surrogate cannot be represented. Every
  comparison in the model is against an ASCII literal.
- Ranges.ForEach: the loop body only assigns `x = 99`; the model records the loop
  variable's values in `visited` so that the iteration set can be stated. Like `Elements`,
  the loop stops once the variable passes `last`, where Kotlin's iterator stops when it
  equals `last`. The two agree on every progression Kotlin builds
  (`Ranges.ElementsEndAtLast`); the model's `Progression` type also admits others.
- Conditionals.Foo: in the source `foo(param)` binds the `if` expression to a local and
  returns `Unit`; the model returns the value of that expression.
- NullSafety.Let: on the null path the transform is not applied. In a model made of pure
  functions this shows as the result not depending on the transform
  (`NullSafety.LetNullIgnoresTransform`); there is no call counter.
- Reading `/some/file.txt` with `Files.newInputStream(...)` and `reader().use { readText() }`
  (lines 280-285) is file-system I/O through JDK calls that are not part of this model.
- Everything that only prints: the membership checks on `emailsList` (56-63), string
  interpolation (67-68), traversing `pairList` (79-82), `println(map["a"])` (108), the
  `?.size` demonstrations (142-147), `value?.let { println }` (163-165),
  `spaceToCamelCase` (122-125), and `count`/`test` with its try/catch (190-202).
- The `lazy` property (113-118): its compute-once behaviour lives in the Kotlin runtime's
  delegate, not in this code.
- The compiler-generated members of the data class `Customer` (26-38) and the default
  parameters of `foo(a, b)` (42-44), whose body only sets a local.
- `theAnswer`/`theAnswer2` (224-230), constant functions with nothing to state.
- `Turtle` (243-260): empty methods over floating-point arguments.
- The `Rectangle().apply` configuration (264-274) and the `Resource` singleton (17-19):
  plain field assignments.
- `MyDir.listFiles` (133-142), which returns a hard-coded list.
- The commented-out reified Gson helper (289-295) and the nullable-Boolean `if` with empty
  branches (300-306).
