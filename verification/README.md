# FizzBuzz API core, modelled in Dafny

This project models the core of a small HTTP FizzBuzz service written in PHP
(php-fizzbuzz-api-lbc) and proves properties of that model.

The service takes two divisors `int1`, `int2`, a `limit` and two
replacements `str1`, `str2`. For each `n` in `1..limit` it concatenates the
replacement of every rule whose divisor divides `n`, in rule order. When that
concatenation is empty (no rule matches, or the matching rules' replacements
are all empty), it emits the decimal string of `n`. It also counts how often
each parameter set was requested and can report the most frequent one.
Requests are validated against declared ranges. Exceptions raised under
`/api` become JSON error bodies.

The modules follow the source files:

| module | file | source |
|---|---|---|
| `Rules` | multiple_rule.dfy | `MultipleRule`: one divisor/replacement rule, with PHP's truncating `%` |
| `Algorithm` | fizzbuzz_algorithm.dfy | `FizzBuzzAlgorithm`: a class whose `ApplyRules` and `Generate` loops are proved against the pure `Element` and `Sequence` |
| `ResultValue` | fizzbuzz_result.dfy | `FizzBuzzResult` value object |
| `Service` | fizzbuzz_service.dfy | `FizzBuzzService::process`: builds the two rules, generates the sequence, records the request |
| `Parameters` | parameters.dfy | the five-field parameter array, `ksort` and the fingerprint that `hashParameters` computes |
| `StatisticsStore` | statistics_repository.dfy | `StatisticsRepository`: counter table, cache and file as objects updated in place, and the most-frequent fold |
| `RequestDto` | request_dto.dfy | `FizzBuzzRequestDTO`: `fromArray`, `toArray`, and the declared constraints as a violation list |
| `ValidationErrors` | validation_exception.dfy | `ValidationException`: violations folded into a property → message map |
| `ExceptionListener` | api_exception_listener.dfy | `ApiExceptionListener`: route filter and exception → response table (status codes per section 15 of RFC 9110) |
| `Decimal`, `Wrappers` | decimal.dfy, wrappers.dfy | PHP's `(string)` of an integer, and `Option` |

### Modelling choices

- **Divisors.** A zero divisor makes PHP's `%` throw. `Apply` therefore
  requires a nonzero divisor. `Generate` and `Process` require one only when
  `limit >= 1`, since no remainder is computed otherwise.
- **Parameter fingerprint.** `hashParameters` is `md5(json_encode(...))` of
  the key-sorted array. It is modelled as `Fingerprint(KeySort(p))`, an
  injective function of the sorted field list. So two arrays share a key
  exactly when they hold the same fields.
- **Statistics table.** The table is a sequence of `(key, entry)` pairs in
  insertion order, which is PHP's array order. That order decides ties in
  `getMostFrequent`.
- **Cache and file.** Each is an object the repository holds. Two
  repositories can share one file, which is how a restart is modelled
  (`Reopen`). A file that is missing or cannot be decoded reads as the
  empty table. The repository's `Valid` invariant says that neither the
  file nor the cache holds a table with a repeated key, since a PHP array
  cannot have one.
- **Validation.** The validator's output is written out as the list of
  violations the declared attributes produce, in declaration order.
  - Symfony's `NotBlank` does not flag the integer 0.
  - The `Type` constraint cannot fail on a typed property, so it never
    appears.
- **Exception listener.** A throwable is described by the kinds the listener
  tests: a `ValidationException`, an `InvalidArgumentException`, and an HTTP
  exception with its status. One throwable may be of several kinds, so the
  model keeps the order in which the listener checks those kinds.
- **Statistics recording.** The service records every processed request in
  the statistics store, as the code at
  src/Application/Service/FizzBuzzService.php:50-56 does. The model follows
  that code.

## Model

| member | source | states |
|---|---|---|
| Rules.PhpMod | src/Domain/Rule/MultipleRule.php:22 | PHP's remainder is zero exactly when Dafny's Euclidean remainder is zero, is smaller in size than the divisor, takes the sign of the dividend, and differs from the dividend by a multiple of the divisor: exactly PHP's truncating remainder |
| Rules.MultipleIffZeroRemainder | src/Domain/Rule/MultipleRule.php:22 | `n` is an integer multiple of `d` exactly when `n % d == 0` |
| Rules.MultipleHasZeroRemainder | src/Domain/Rule/MultipleRule.php:22 | every product `k * d` leaves remainder zero |
| Rules.Apply | src/Domain/Rule/MultipleRule.php:20-23 | the result is the replacement or ""; it is the replacement exactly for multiples of the divisor and "" for all other numbers |
| Rules.ApplyToMultiples | src/Domain/Rule/MultipleRule.php:20-23 | `k * divisor` always yields the replacement |
| Rules.ApplyBetweenMultiples | src/Domain/Rule/MultipleRule.php:20-23 | a number strictly between two consecutive multiples yields "" |
| Rules.DivisorOneReplacesAll | tests/Unit/Domain/FizzBuzzAlgorithmTest.php:58-65 | with divisor 1 or -1, every number yields the replacement |
| Rules.FizzRuleExamples | tests/Unit/Domain/Rule/MultipleRuleTest.php:12-27 | rule (3, "fizz") maps 3, 6 and 9 to "fizz" and non-multiples to "" |
| Algorithm.CombinedEmptyIff | src/Domain/FizzBuzzAlgorithm.php:56-59 | the concatenation of the rule outputs is empty exactly when every rule yields "" |
| Algorithm.Combined | src/Domain/FizzBuzzAlgorithm.php:56-59 | reference definition of the concatenated rule outputs, characterised by `CombinedEmptyIff` and `CombinedPair` |
| Algorithm.Element | src/Domain/FizzBuzzAlgorithm.php:54-62 | the element for `n` is never empty; `ElementCases` says which of the two it is |
| Algorithm.ElementCases | src/Domain/FizzBuzzAlgorithm.php:61 | when every rule yields "" for `n` the element is its decimal string; as soon as some rule yields a non-empty string it is the concatenation |
| Algorithm.SequenceShape | src/Domain/FizzBuzzAlgorithm.php:36-41 | the sequence has `limit` elements (none when `limit <= 0`), and element `k` is the element for `k + 1` |
| Algorithm.Sequence | src/Domain/FizzBuzzAlgorithm.php:34-42 | the sequence for 1..limit has `limit` elements (none when `limit <= 0`); `SequenceShape` gives each element |
| Algorithm.NoRulesGiveNumbers | src/Domain/FizzBuzzAlgorithm.php:22-25 | with no rules, element `k` is the decimal string of `k + 1` |
| Algorithm.CombinedPair | src/Domain/FizzBuzzAlgorithm.php:56-59 | two rules concatenate in constructor order |
| Algorithm.TwoRulesConcatenateInOrder | src/Domain/FizzBuzzAlgorithm.php:56-61 | a number both divisors divide gives the first replacement followed by the second, provided the two replacements are not both empty |
| Algorithm.ClassicFizzBuzz | tests/Unit/Domain/FizzBuzzAlgorithmTest.php:13-28 | rules (3, fizz), (5, buzz) up to 15 give the classic fifteen strings |
| Algorithm.FooBarSequence | tests/Unit/Domain/FizzBuzzAlgorithmTest.php:31-44 | rules (2, foo), (3, bar) up to 6 give 1, foo, bar, foo, 5, foobar |
| Algorithm.SingleRuleSequences | tests/Unit/Domain/FizzBuzzAlgorithmTest.php:46-65 | one rule (2, even) up to 5 gives 1, even, 3, even, 5; (1, all) up to 1 gives all |
| Algorithm.FizzBuzzAlgorithm.ApplyRules | src/Domain/FizzBuzzAlgorithm.php:54-62 | the loop over the rules returns the element of `n`: the concatenation, or the number when it is empty |
| Algorithm.FizzBuzzAlgorithm.Generate | src/Domain/FizzBuzzAlgorithm.php:34-42 | the loop returns the sequence for 1..limit: `limit` elements (none for `limit <= 0`), element `k` being `applyRules(k + 1)` |
| Decimal.IntRoundTrip | src/Domain/FizzBuzzAlgorithm.php:61 | the decimal string of an integer parses back to it and starts with "-" exactly for negatives |
| Decimal.IntToString | src/Domain/FizzBuzzAlgorithm.php:61 | `(string) $n` is never empty; `IntRoundTrip` and `IntToStringInjective` characterise it |
| Decimal.IntToStringInjective | src/Domain/FizzBuzzAlgorithm.php:61 | distinct numbers have distinct decimal strings |
| Decimal.ParseNegative | src/Domain/FizzBuzzAlgorithm.php:61 | a minus sign in front of digits negates what they read as |
| ResultValue.FizzBuzzResult.GetCount | src/Domain/ValueObject/FizzBuzzResult.php:35-38 | the count is the number of items |
| ResultValue.FizzBuzzResult.GetItems | src/Domain/ValueObject/FizzBuzzResult.php:27-30 | reference definition of `getItems`, characterised by `ResultRoundTrip` |
| ResultValue.ResultRoundTrip | src/Domain/ValueObject/FizzBuzzResult.php:17-38 | the items read back are those given, their count is their length, and the items determine the value |
| Service.RequestRules | src/Application/Service/FizzBuzzService.php:40-43 | exactly two rules, (int1, str1) first and (int2, str2) second |
| Service.FizzBuzzService.constructor | src/Application/Service/FizzBuzzService.php:18-21 | the service holds the statistics store it records into (the repository itself, since the pass-through `StatisticsService` is not part of this model) |
| Service.FizzBuzzService.Process | src/Application/Service/FizzBuzzService.php:32-59 | the items are the sequence for those two rules up to `limit`; the store counts the request's five-field array once more, stays coherent and keeps its keys unique |
| Service.ProcessedCount | tests/Integration/Presentation/Controller/FizzBuzzControllerTest.php:12-42 | the result's count equals `limit` |
| Service.BothDivisorsGiveStr1ThenStr2 | src/Application/Service/FizzBuzzService.php:40-47 | a number both divisors divide gives `str1 + str2`, never the reverse, provided `str1` and `str2` are not both empty |
| Service.ClassicRequest | tests/Integration/Presentation/Controller/FizzBuzzControllerTest.php:12-42 | request (3, 5, 15, fizz, buzz) gives fizz, buzz and fizzbuzz at positions 3, 5 and 15 |
| Service.SameRequestTwice | tests/Integration/Presentation/Controller/StatisticsControllerTest.php:42-80 | two identical requests raise that parameter set's count by 2 (to 2 from nothing) |
| Parameters.KeySortPermutes | src/Infrastructure/Repository/StatisticsRepository.php:88 | `ksort` keeps exactly the same fields |
| Parameters.KeySort | src/Infrastructure/Repository/StatisticsRepository.php:88 | `ksort` keeps the number of fields; `KeySortPermutes`, `KeySortSorted` and `SortedUnique` characterise it |
| Parameters.KeySortSorted | src/Infrastructure/Repository/StatisticsRepository.php:88 | `ksort` of an array with distinct keys is strictly ordered by key |
| Parameters.SortedUnique | src/Infrastructure/Repository/StatisticsRepository.php:88 | two key-sorted arrays with the same fields are identical |
| Parameters.HashParameters | src/Infrastructure/Repository/StatisticsRepository.php:86-90 | the fingerprint holds the same fields, sorted by key |
| Parameters.HashIgnoresOnlyOrder | src/Infrastructure/Repository/StatisticsRepository.php:86-90 | two arrays with distinct keys share a fingerprint exactly when they hold the same fields in any order |
| Parameters.RequestFields | src/Application/Service/FizzBuzzService.php:50-56 | the recorded array has five distinct keys |
| Parameters.ReorderedRequestSharesKey | tests/Unit/Infrastructure/Repository/StatisticsRepositoryTest.php:182-207 | the request fields in another order get the same fingerprint |
| StatisticsStore.IndexOf | src/Infrastructure/Repository/StatisticsRepository.php:24 | a found position holds the key, and none is found exactly when the key is absent |
| StatisticsStore.LookupUnique | src/Infrastructure/Repository/StatisticsRepository.php:24 | with unique keys, looking a key up returns its entry |
| StatisticsStore.Increment | src/Infrastructure/Repository/StatisticsRepository.php:24-31 | reference definition of find-or-create then `count++`, characterised by `IncrementEffect` |
| StatisticsStore.CreateThenCount | src/Infrastructure/Repository/StatisticsRepository.php:24-31 | creating an entry with count 0 and then counting it is the increment of an unseen key |
| StatisticsStore.CountExisting | src/Infrastructure/Repository/StatisticsRepository.php:31 | counting the entry already stored under a key is the increment of that known key |
| StatisticsStore.IncrementKeepsKeysUnique | src/Infrastructure/Repository/StatisticsRepository.php:24-31 | an increment never adds a second entry under one key |
| StatisticsStore.IncrementElsewhere | src/Infrastructure/Repository/StatisticsRepository.php:24-31 | an increment leaves the entry under every other key as it was |
| StatisticsStore.IncrementEffect | src/Infrastructure/Repository/StatisticsRepository.php:19-34 | keys stay unique; a new key gets its parameters verbatim with count 1 at the end; an existing key gets count + 1 with its first parameters; every other key is unchanged |
| StatisticsStore.RepeatedIncrements | tests/Unit/Infrastructure/Repository/StatisticsRepositoryTest.php:49-66 | N increments of an unseen key append one entry with count N |
| StatisticsStore.Step | src/Infrastructure/Repository/StatisticsRepository.php:44-46 | one fold step returns the carry or the new entry, never an empty carry, with a count at least that of both |
| StatisticsStore.Reduce | src/Infrastructure/Repository/StatisticsRepository.php:44-46 | the fold is null exactly for the empty table, and otherwise its count is at least every entry's count |
| StatisticsStore.ReduceIsFirstMaximum | src/Infrastructure/Repository/StatisticsRepository.php:44-46 | the fold over a non-empty table returns the entry at the first position of maximal count |
| StatisticsStore.MostFrequentSpec | src/Infrastructure/Repository/StatisticsRepository.php:36-49 | nothing exactly for the empty table, otherwise the first entry of maximal count |
| StatisticsStore.MostFrequent | src/Infrastructure/Repository/StatisticsRepository.php:36-49 | null exactly for the empty table; otherwise an entry whose count is at least every entry's count |
| StatisticsStore.FirstMaximumUnique | src/Infrastructure/Repository/StatisticsRepository.php:44-46 | there is only one first maximum, so ties have one winner |
| StatisticsStore.TwoEntryFold | src/Infrastructure/Repository/StatisticsRepository.php:44-46 | with two entries, the second wins only with a strictly greater count |
| StatisticsStore.FirstSetWinsUnlessOutcounted | tests/Unit/Infrastructure/Repository/StatisticsRepositoryTest.php:76-109 | after n1 requests of one set and n2 <= n1 of another, the table has 2 entries and the first set is the most frequent |
| StatisticsStore.TwoSetsRecorded | tests/Unit/Infrastructure/Repository/StatisticsRepositoryTest.php:76-109 | two different keys recorded n1 and then n2 times give one entry each, in first-seen order, with those counts |
| StatisticsStore.Cache.Expire | src/Infrastructure/Repository/StatisticsRepository.php:12 | an expired cache is empty |
| StatisticsStore.StatisticsRepository.constructor | src/Infrastructure/Repository/StatisticsRepository.php:14-17 | the repository holds the given cache and file |
| StatisticsStore.Decode | src/Infrastructure/Repository/StatisticsRepository.php:56-61 | a non-empty table read from the file is the table the file stores; a missing or undecodable file reads as empty |
| StatisticsStore.StatisticsRepository.Valid | src/Infrastructure/Repository/StatisticsRepository.php:24-31 | neither the file nor a filled cache repeats a key, so the table a load returns has unique keys |
| StatisticsStore.StatisticsRepository.LoadStats | src/Infrastructure/Repository/StatisticsRepository.php:51-63 | returns the cached table, or else the file's (empty when missing or undecodable), and caches it; the keys stay unique |
| StatisticsStore.StatisticsRepository.SaveStats | src/Infrastructure/Repository/StatisticsRepository.php:65-84 | afterwards the cache and the file hold the saved table, whose keys are unique |
| StatisticsStore.StatisticsRepository.IncrementRequestCount | src/Infrastructure/Repository/StatisticsRepository.php:19-34 | the stored table becomes the increment of the previous one at the array's fingerprint, in both cache and file, and its keys stay unique |
| StatisticsStore.StatisticsRepository.GetMostFrequent | src/Infrastructure/Repository/StatisticsRepository.php:36-49 | returns the most frequent entry of the stored table, leaves the cache holding that table, and leaves the table, and its unique keys, as they were |
| StatisticsStore.Reopen | tests/Unit/Infrastructure/Repository/StatisticsRepositoryTest.php:134-155 | a newly allocated repository with a new, empty cache on the same file sees the same table, with its keys still unique |
| StatisticsStore.RestartReloadsCounts | tests/Unit/Infrastructure/Repository/StatisticsRepositoryTest.php:134-155 | one request counted on a fresh file, then read back through a reopened repository, is the most frequent with count 1 and its parameters as given |
| StatisticsStore.ExpireCache | src/Infrastructure/Repository/StatisticsRepository.php:12 | when the cache entry expires, a coherent repository still sees the same table, now read from the file |
| RequestDto.FromArray | src/Application/DTO/FizzBuzzRequestDTO.php:47-56 | each present field is kept as given; a missing integer becomes 0 and a missing string "" |
| RequestDto.ToArray | src/Application/DTO/FizzBuzzRequestDTO.php:63-66 | exactly the five fields int1, int2, limit, str1, str2 with their values, in that order |
| RequestDto.FromArrayOfToArray | src/Application/DTO/FizzBuzzRequestDTO.php:47-66 | reading back the array of a request gives the same request |
| RequestDto.ToArrayOfFromArray | src/Application/DTO/FizzBuzzRequestDTO.php:47-66 | an array of exactly the five well-typed fields survives `fromArray` then `toArray` |
| RequestDto.IntViolations | src/Application/DTO/FizzBuzzRequestDTO.php:12-28 | an integer property gives no violation exactly when it lies in 1..max, and every violation names that property |
| RequestDto.StrViolations | src/Application/DTO/FizzBuzzRequestDTO.php:30-38 | a string property gives no violation exactly when its length lies in 1..50, and every violation names that property |
| RequestDto.Violations | src/Application/DTO/FizzBuzzRequestDTO.php:11-39 | there are no violations exactly when every field is in its declared range |
| RequestDto.Valid | src/Application/DTO/FizzBuzzRequestDTO.php:12-38 | reference definition of the declared ranges (divisors 1..1000, limit 1..100000, strings of 1 to 50 characters), the partner of `Violations` in `ViolationsMatchRanges` |
| RequestDto.IntViolationsOnce | src/Application/DTO/FizzBuzzRequestDTO.php:12-28 | an integer property is reported at most once, exactly when outside 1..max |
| RequestDto.StrViolationsOnce | src/Application/DTO/FizzBuzzRequestDTO.php:30-38 | a string property is reported at most once, exactly when its length is outside 1..50 |
| RequestDto.ViolationsMatchRanges | src/Application/DTO/FizzBuzzRequestDTO.php:11-39 | the reported properties are exactly the out-of-range ones, so there are no violations exactly when the request is valid |
| RequestDto.IntegersOncePerProperty | src/Application/DTO/FizzBuzzRequestDTO.php:12-28 | int1, int2 and limit are each reported at most once, and nothing else is |
| RequestDto.StringsOncePerProperty | src/Application/DTO/FizzBuzzRequestDTO.php:30-38 | str1 and str2 are each reported at most once, and nothing else is |
| RequestDto.ViolationsOncePerProperty | src/Application/DTO/FizzBuzzRequestDTO.php:11-39 | no property is reported twice |
| RequestDto.ValidationExamples | tests/Unit/Application/DTO/FizzBuzzRequestDTOTest.php:58-110 | (3, 5, 15, fizz, buzz) passes; int1 1001, int2 -5, limit 100001, empty str1 and a 51-character str2 each give their one message |
| RequestDto.MissingIntegerFails | src/Application/DTO/FizzBuzzRequestDTO.php:14-28 | a missing integer field becomes 0 and is reported as "must be positive" |
| ValidationErrors.ErrorMapKeys | src/Application/Exception/ValidationException.php:19-25 | the error keys are exactly the violated property paths |
| ValidationErrors.ErrorMap | src/Application/Exception/ValidationException.php:19-23 | every error is the message of some violation of that property; `ErrorMapKeys` and `ErrorMapLastWins` pin it down |
| ValidationErrors.ErrorMapLastWins | src/Application/Exception/ValidationException.php:20-23 | each path maps to the message of its last violation |
| ValidationErrors.ErrorMapKeepsDistinct | src/Application/Exception/ValidationException.php:20-23 | when no path repeats, every violation's message is kept |
| ValidationErrors.RequestErrors | src/Application/Exception/ValidationException.php:17-28 | a rejected request's errors are its out-of-range properties, each with its message |
| ValidationErrors.ErrorMapExamples | tests/Unit/Infrastructure/EventListener/ApiExceptionListenerTest.php:73-109 | one `field1` violation gives one `field1` error; a repeated path keeps the later message; no violations give no errors |
| ValidationErrors.ValidationException.constructor | src/Application/Exception/ValidationException.php:17-28 | the loop builds the errors map of the violations; the message is "Validation failed" and the code 400 |
| ValidationErrors.ValidationException.GetErrors | src/Application/Exception/ValidationException.php:35-38 | reference definition of `getErrors`: the map the constructor built, as its `ensures` states |
| ExceptionListener.DefaultMessage | src/Infrastructure/EventListener/ApiExceptionListener.php:108-115 | "Resource not found" exactly for 404, "Method not allowed" exactly for 405, "An error occurred" for every other code; never empty |
| ExceptionListener.InternalServerError | src/Infrastructure/EventListener/ApiExceptionListener.php:87-106 | 500 "Internal server error"; a debug member with the class and message exactly in the dev environment |
| ExceptionListener.CreateJsonResponse | src/Infrastructure/EventListener/ApiExceptionListener.php:54-85 | status is always "error"; errors appear exactly for a validation exception; debug only on a dev 500 |
| ExceptionListener.Handle | src/Infrastructure/EventListener/ApiExceptionListener.php:28-52 | a response exactly for paths starting with "/api" (so "/apidoc" too), always with status "error" |
| ExceptionListener.StartsWith | src/Infrastructure/EventListener/ApiExceptionListener.php:33 | reference definition of `str_starts_with`, used by `Handle` and `OnKernelException` |
| ExceptionListener.ValidationAnswersBadRequest | src/Infrastructure/EventListener/ApiExceptionListener.php:57-62 | a validation exception answers 400 "Validation failed" with its errors, whatever else it is |
| ExceptionListener.InvalidArgumentAnswersBadRequest | src/Infrastructure/EventListener/ApiExceptionListener.php:66-71 | an invalid-argument exception answers 400 with its own message, before the HTTP branch |
| ExceptionListener.HttpExceptionKeepsStatus | src/Infrastructure/EventListener/ApiExceptionListener.php:74-81 | an HTTP exception keeps its status and message; an empty or "0" message becomes the default for the status |
| ExceptionListener.OtherThrowablesAnswerInternalError | src/Infrastructure/EventListener/ApiExceptionListener.php:84 | anything else answers the 500 response, with debug exactly in dev |
| ExceptionListener.ListenerExamples | tests/Unit/Infrastructure/EventListener/ApiExceptionListenerTest.php:31-189 | non-API path ignored; generic exception 500; invalid argument 400 with its message; not found 404 with its message; empty messages fall back to the defaults |
| ExceptionListener.ApiExceptionListener.OnKernelException | src/Infrastructure/EventListener/ApiExceptionListener.php:28-52 | on an "/api" path the event gets the table's response, elsewhere it is unchanged; an error is logged exactly for handled non-validation throwables |

## Left out

- File I/O, `mkdir` and JSON encoding of the statistics file are not modelled. The file is a slot holding a table, a missing file, or an undecodable file.
- Parameters.HashParameters: MD5 collisions are not modelled. The fingerprint is an injective function of the sorted fields.
- Parameters.KeySort: PHP's `ksort` compares numeric-string keys as numbers. Keys here are compared as strings, which agrees for the five field names used.
- StatisticsStore.Decode: a file holding valid JSON that is neither an array nor null makes PHP raise a `TypeError` (the `array` return type of `loadStats` under strict types, src/Infrastructure/Repository/StatisticsRepository.php:51 and :58). The model reads such a file as the empty table, like an undecodable one.
- The cache's one-hour lifetime is not modelled. Expiry is the explicit `Cache.Expire` (and `ExpireCache` on a repository), since time is not part of the model.
- Concurrent requests and the lost update of the non-atomic load, modify and save are not modelled. The model is sequential.
- Integers are unbounded. PHP's 64-bit overflow to float cannot occur within the validated ranges.
- RequestDto.FromArray: it requires well-typed fields. PHP's `(int)` and `(string)` casts of arbitrary JSON values are not modelled.
- The Symfony validator engine is not modelled. The violations the declared attributes produce are written out directly.
- ExceptionListener.CreateJsonResponse: an HTTP exception whose status lies outside 100..599 makes Symfony's response constructor throw. The model's throwables carry only statuses in that range (`StatusCode`), so that failure is not modelled.
- ExceptionListener.InternalServerError: the debug member holds the class and message only. The file, line and trace are runtime data.
- The logger is represented only by whether an error record is written. The record's contents are not modelled.
- src/Infrastructure/Http/JsonRequestHandler.php and the two controllers are not part of this model. They are request decoding and routing glue.
- src/Application/Service/StatisticsService.php is not part of this model. It passes calls straight to the repository, and the model calls the repository directly.
- `FizzBuzzRuleInterface` is not modelled separately. Its contract is the one `Rules.Apply` states.
- `ValidationException::getErrors` is the `errors` field, returned as is.
