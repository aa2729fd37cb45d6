# GradingEnv in Dafny

This project models the two versions of a small in-memory unit-test framework and proves properties of the model. Both versions are one environment object that:

- registers named tests in order;
- runs them one at a time with a cursor on the running test;
- files the record of every assertion into that test's bucket of a map;
- reports pass counts and a rounded-up pass percentage.

- `MTest` (`mtest.dfy`) models `MTEnv` from `mtest.hpp`. Tests get integer ids from a counter. A record holds `pass`, `printable` and an optional `reason`. Four assertions (`expect_eq`, `expect_neq`, `expect_true`, `expect_false`) are built on one public `expect` primitive, which a test body may also call directly with a comparator and reason of its own. The report counts tests: a test passes iff none of its records failed.
- `Grading` (`grading.dfy`) models `GradingEnv` from `grading.hpp`. Tests are keyed by a `uint8_t` position counter that wraps from 255 to 0. It has only `expect_eq`. The report counts records, not tests.
- `Buckets` (`buckets.dfy`) holds `_insertRecord`'s map update, which both versions share. `Text` (`text.dfy`) renders integers as `std::ostream` does and parses them back. `Percent` (`percent.dfy`) is the rounded-up percentage and the summary both reports return.

Both environments are classes whose methods update their fields (`tests`, `records`, the cursor, the counter), as the C++ does. A test body is data: the list of assertion calls it makes (`MTest.Assertion`, `Grading.Check`). A direct call of `MTEnv::expect` is the `Custom` assertion, which carries the comparator's verdict and the reason. Running a body makes those calls in order. Method contracts tie the new state to specification functions:

- `Ran` is the record map after a run.
- `Registered` is the tests one `add_test` of a list adds.
- `Sections`, `Log` and `ReportText` are the report text.
- `CountKeys`, `PassedTests`, `RecordCount` and `PassCount` are the report counts.

The lemmas state what the framework promises about these functions. Records land in their own test's bucket. Tests without assertions never reach the report. A test passes iff every assertion held. The grading counts equal the number of checks and of passing checks, however often the key wraps. Failure messages identify their operands.

The operand type of the generic assertions is fixed to `int`, and its `operator<<` is `Text.IntToString`. Colour escape codes are dropped from stored reasons and from the report text; `std::endl` is `"\n"`. A report returns its summary (counts and percentage) and the text it writes to the console.

Neither header has exception assertions (`expect_except`, `expect_no_except`, `expect_any_except`) or a polarity flag, so none are modelled. `MTEnv`'s feedback is a plain `std::string`.

## Model

| member | source | states |
|---|---|---|
| MTest.RecordTextShape | mtest.hpp:48-60 | a record writes text iff it failed and is printable; the text ends with the stored reason, or with "no provided" when there is none |
| MTest.ExpectRecord | mtest.hpp:129-149 | the verdict and `printable` are copied through; a record has no reason iff it passed |
| MTest.ExpectRecordReason | mtest.hpp:129-149 | a failing record's reason is the supplied message plus a line break |
| MTest.Outcome | mtest.hpp:129-196 | a record passes iff its assertion's comparator holds: `expect_eq` iff l == r, `expect_neq` iff l != r, `expect_true` iff the value is true, `expect_false` iff it is false, a direct `expect` iff its comparator returned true; `printable` is copied; there is a reason iff it failed |
| MTest.OutcomeReason | mtest.hpp:129-196 | the failure reason of each assertion: "l != r", "l == r" with both operands rendered, "value is false", "value is true", or the reason given to a direct `expect`, each followed by a line break |
| MTest.OutcomesPass | mtest.hpp:118-122 | the record a body files at position i passes iff the assertion at position i held |
| MTest.VerdictOfOutcomes | mtest.hpp:225-246 | a body's records hold no failure iff every assertion of the body held |
| MTest.ComparisonReasonDeterminesOperands | mtest.hpp:155-173 | two failing `expect_eq` (or two failing `expect_neq`) calls with the same reason compared the same two values: the reason renders both operands |
| MTest.FailedCountZeroIff | mtest.hpp:225-246 | a bucket's failure count is zero iff every record in it passed |
| MTest.RecordsTextSilentIff | mtest.hpp:231-241 | a bucket writes nothing iff each of its records passed or is not printable, so a non-printable failure is counted but never shown |
| MTest.PassedAtMostCounted | mtest.hpp:226-246 | the passed-test count never exceeds the count of tests with records |
| MTest.CountKeysIsSize | mtest.hpp:221-226 | when every key is a registered position, the ascending walk counts every bucket of the map, so `testCounter` is the number of buckets |
| MTest.Registered | mtest.hpp:103-110 | a list registers its entries in list order, with consecutive ids from the counter's value |
| MTest.RanBucketOf | mtest.hpp:113-123 | when no other test shares its id, running the tests appends exactly the records a test's body makes, in assertion order, to what that test's bucket held before |
| MTest.RanBucketOfLast | mtest.hpp:113-123 | the newest test's bucket gets its body's records after what it held before the run |
| MTest.RanLeavesOther | mtest.hpp:202-214 | running one test leaves the bucket of every other id as it was |
| MTest.RanElsewhere | mtest.hpp:202-214 | a key that is the id of none of the tests run keeps its bucket |
| MTest.RanKeys | mtest.hpp:202-214 | after a run, a key has a bucket iff it had one before or it is the id of a test that made at least one assertion |
| MTest.FiledByStep | mtest.hpp:113-123 | one more test files under key k iff the earlier tests did or the new test has id k and makes an assertion |
| MTest.TestVerdict | mtest.hpp:216-253 | starting from no records, a test reaches the report iff it made an assertion, and it counts as passed iff all of its assertions held |
| MTest.AtLookup | mtest.hpp:228 | `_tests.at(id)` finds the test at position id, and fails when id is out of range |
| MTest.SharedCounterLookupMisses | mtest.hpp:265-271 | with the counter shared by all environments, a second environment's first test gets id 1 and the report's lookup of that id fails |
| MTest.OwnCounterLookupFinds | mtest.hpp:94-99 | with a per-environment counter starting at 0, the report's lookup of every bucket key finds the test with that id |
| MTest.Env.constructor | mtest.hpp:80-82 | a new environment has no tests, no records and no current test, and the counter is 0 |
| MTest.Env.AddTest | mtest.hpp:94-99 | appends one test whose id is the counter's old value; the counter goes up by one; earlier tests, records and cursor are unchanged |
| MTest.Env.AddTests | mtest.hpp:103-110 | appends `Registered(list, counter)` and advances the counter by the list's length; nothing else changes |
| MTest.Env.InsertRecord | mtest.hpp:202-214 | the record is appended to the current test's bucket; every other bucket, the tests and the cursor are unchanged |
| MTest.Env.Expect | mtest.hpp:129-149 | files `ExpectRecord` for the given verdict under the current test's id |
| MTest.Env.ExpectEq | mtest.hpp:152-162 | files the `expect_eq` outcome under the current test's id |
| MTest.Env.ExpectNeq | mtest.hpp:164-174 | files the `expect_neq` outcome under the current test's id |
| MTest.Env.ExpectTrue | mtest.hpp:176-185 | files the `expect_true` outcome under the current test's id |
| MTest.Env.ExpectFalse | mtest.hpp:187-196 | files the `expect_false` outcome under the current test's id |
| MTest.Env.Perform | mtest.hpp:122-196 | one assertion call of a body (one of the four `expect_*` forms, or `expect` itself) files that assertion's outcome under the current test |
| MTest.Env.RunBody | mtest.hpp:118-122 | a body's records go, in order, into the current test's bucket |
| MTest.Env.BucketReport | mtest.hpp:231-241 | the inner walk counts the failing records of a bucket and writes each record's text |
| MTest.Env.TestSection | mtest.hpp:226-252 | one test's part of the report: it passes iff none of its records failed, and its text is `Section(test, bucket)` |
| MTest.Env.Walk | mtest.hpp:221-253 | the walk over the buckets in ascending id order counts the buckets, counts those without a failing record, and writes the sections |
| MTest.Env.Report | mtest.hpp:216-262 | total = number of buckets; passed = buckets without a failing record; passed <= total; percentage = ceil(100 * passed / total), between 0 and 100, and absent when there are no buckets; the text is the sections in ascending id order, then the percentage line |
| MTest.Env.RunTest | mtest.hpp:118-121 | the cursor becomes a copy of the test at position i, and that test's body files its records under its id |
| MTest.Env.RunTests | mtest.hpp:115-122 | runs the bodies in registration order; records become `Ran(old records, tests)`; the cursor ends on the last test, and is unchanged when there is none |
| MTest.Env.RunAll | mtest.hpp:113-127 | runs the bodies in registration order, each with the cursor on its own test; records become `Ran(old records, tests)`; the cursor ends on the last test; the report is run only when asked for |
| Percent.CeilPercent | mtest.hpp:256 | the result p satisfies p * total >= 100 * passed > (p - 1) * total, so it is the rounded-up percentage; it lies in [0, 100] when passed <= total |
| Percent.CeilPercentIsLeast | grading.hpp:186 | no smaller value reaches 100 * passed, so the percentage is the least such value (a corollary of `CeilPercent`'s contract) |
| Text.NatToStringDigits | mtest.hpp:155-156 | a natural number renders as at least one digit, only digits, with no leading zero |
| Text.IntToStringShape | mtest.hpp:155-156 | an int renders as an optional minus sign and digits, with no space or line break |
| Text.ParseIntOfIntToString | grading.hpp:139-141 | parsing the rendering gives back the integer |
| Text.IntToStringInjective | grading.hpp:139-141 | two integers with the same rendering are equal |
| Buckets.Insert | grading.hpp:151-163 | the key's bucket becomes its old bucket plus the record (a one-record bucket when it had none); the key set gains the key; every other bucket is unchanged |
| Buckets.FileAll | grading.hpp:144 | filing a list of records under one key appends exactly that list to its bucket |
| Buckets.FileAllElsewhere | grading.hpp:151-163 | filing under one key leaves the bucket of every other key as it was |
| Buckets.FileAllKeys | mtest.hpp:202-214 | filing adds the key to the map exactly when there is at least one record to file |
| Grading.RecordTextShape | grading.hpp:47-61 | a record prints "[name" then " PASSED]" and a line break when it passed, or " FAILED]", a line break, its feedback and a line break when it failed |
| Grading.RecordTextDistinguishes | grading.hpp:47-61 | two records of the same test that print the same text agree on whether they passed, and two such failures carry the same feedback |
| Grading.EqRecord | grading.hpp:126-145 | the record carries the current test's name; passes iff l == r; feedback is "Passed!" on a pass, otherwise the expected value r, the value got l and the message, each on its own line |
| Grading.FailureFeedbackDeterminesCheck | grading.hpp:136-143 | two failing checks with the same feedback had the same expected value, value got and message |
| Grading.Next | grading.hpp:193-196 | the counter goes up by one below 255 and wraps from 255 to 0 |
| Grading.KeyAtValue | grading.hpp:193-196 | while test i runs, the counter holds (start + i) mod 256, where start is its value before the run |
| Grading.KeyAtWraps | grading.hpp:199 | positions 256 apart get the same key |
| Grading.KeyAtDistinct | grading.hpp:199 | positions less than 256 apart get different keys |
| Grading.RanBucketAt | grading.hpp:108-122 | with at most 256 tests, the bucket of the key for position i gets exactly the records of test i, appended in check order, each carrying test i's name |
| Grading.RanBucketAtLast | grading.hpp:108-122 | within the first 256 positions, the newest test's bucket gets its records after what it held before the run |
| Grading.RanLeavesOther | grading.hpp:153-162 | running the test at one position leaves the bucket of every other key as it was |
| Grading.RanElsewhere | grading.hpp:151-163 | a key that no position maps to keeps its bucket through the run |
| Grading.WrapSharesBucket | grading.hpp:193-202 | with 257 tests, the records of the test at position 256 are appended to the first test's bucket |
| Grading.InsertCounts | grading.hpp:151-181 | filing one record adds one to the record count, and one to the pass count iff the record passed, whatever its key |
| Grading.FileAllCounts | grading.hpp:173-181 | filing a list of records adds its length to the record count and its passing records to the pass count |
| Grading.PassingInOutcomes | grading.hpp:130-144 | a body's passing records are exactly its checks with equal operands |
| Grading.RanCounts | grading.hpp:165-181 | after a run, the report's record count is the number of checks in all bodies, and its pass count is the number of those checks with equal operands, however often the key wraps |
| Grading.PassCountAtMost | grading.hpp:176-181 | passing records never outnumber records |
| Grading.Env.constructor | grading.hpp:79-83 | a new environment has counter 0, an empty current name, no tests and no records |
| Grading.Env.AddTest | grading.hpp:93-96 | appends one test {name, body} and changes nothing else |
| Grading.Env.AddTests | grading.hpp:98-106 | appends the list's tests in list order and changes nothing else |
| Grading.Env.InsertRecord | grading.hpp:151-163 | the record is appended to the bucket of the counter's current value; nothing else changes |
| Grading.Env.ExpectEq | grading.hpp:124-145 | files `EqRecord(current name, l, r, msg)` under the counter's current value |
| Grading.Env.NextTest | grading.hpp:193-196 | the counter becomes `Next` of its old value; nothing else changes |
| Grading.Env.RunBody | grading.hpp:116 | a body's records, each carrying the current name, go in order into the current key's bucket |
| Grading.Env.BucketReport | grading.hpp:173-183 | the inner walk counts the passing records of a bucket and writes each record with a line break |
| Grading.LogStep | grading.hpp:173-183 | one more record of a bucket adds one to the pass count iff it passed, and its text and a line break to the log |
| Grading.Env.Walk | grading.hpp:167-184 | the outer walk over the keys in ascending order counts all records and the passing ones, and writes every record in key order |
| Grading.Env.Summarize | grading.hpp:186-187 | the summary carries the counts and the ceiling percentage, between 0 and 100 and absent when there is no record, and the percentage line follows the log |
| Grading.Env.Report | grading.hpp:165-188 | tests = all records in all buckets; passed = records that passed; passed <= tests; percentage = ceil(100 * passed / tests), between 0 and 100, and absent when there is no record; the text is every record in ascending key order, then the percentage line |
| Grading.Env.RunTest | grading.hpp:113-118 | the current name becomes the test's name, its body's records go into the bucket of the counter's value, and the counter advances by `Next` |
| Grading.Env.RunTests | grading.hpp:110-118 | runs every test in order; records become `Ran(old records, tests, start)`; the counter ends at `KeyAt(start, number of tests)`; the current name is the last test's name, unchanged when there is none |
| Grading.Env.RunAll | grading.hpp:108-122 | sets the current name to each test's name before its body, advances the counter after each test, so test i files under key (start + i) mod 256; records become `Ran(old records, tests, start)`; the report is run only when asked for |

## Left out

- Console output and colour codes. Each report returns its text as a string instead, and colour escapes are dropped from the text and from stored reasons.
- Floating-point counters and `std::ceil`. The percentage is computed exactly in integers. Any difference that single-precision rounding could make is not modelled.
- `std::function` test bodies, and exceptions that escape a body and abort `run_all`. A body is a list of assertion calls, and it always completes.
- `MTest.Assertion`: a direct `expect` call is its `Custom` form, which holds the verdict the comparator returned on its arguments, not the comparator or the arguments. The model does not capture what a comparator computes, nor one that throws.
- Templates. The only operand type is `int`, rendered as `std::ostream` renders it.
- The `verbose` and `showComp` parameters, which the code never reads.
- The `test_f` macros, the deleted copy and move members, and the `unique_ptr::release` leak in `run_all`. None of these has an effect the model can observe.
- The static `_idCounter` shared across `MTEnv` instances. The model keeps one counter per environment, starting at 0. That is what makes `_tests.at(id)` find the right test; see Findings.
- `MTest.Env.Expect`, `ExpectEq`, `ExpectNeq`, `ExpectTrue`, `ExpectFalse`, `Perform`, `RunBody` and `InsertRecord` require a current test. In the source, calling them before `run_all` dereferences a null `_currentTest`, which is undefined behaviour.
- `MTest.Env.Report` and `Grading.Env.Report`: when there is no bucket (or no record), the source computes 0/0, which is undefined. The model gives no percentage and no summary line there.
- `Grading.RanBucketAt` states bucket contents only for runs of at most 256 tests. For longer runs, `Grading.WrapSharesBucket` shows bucket sharing for 257 tests, and `Grading.RanCounts` gives the report counts for any number of tests.
- example/main.cpp is not part of this model. It is a demo driver, and it calls `GradingEnv` members that `grading.hpp` does not have.

## Findings

| source | as written | input that shows it | evidently intended | confidence | as-written member | corrected member |
|---|---|---|---|---|---|---|
| mtest.hpp:265-271 | `_idCounter` is static, so all `MTEnv` instances share one id sequence, while `_report` uses the id as a position in its own `_tests` (mtest.hpp:228) | environment A registers one test; environment B then registers one test that makes an assertion and runs with the report on: B's bucket key is 1, and `_tests.at(1)` on B's one-element vector throws `std::out_of_range` | each environment numbers its own tests from 0, so id == position | high (not executed) | MTest.SharedCounterLookupMisses | MTest.OwnCounterLookupFinds |
