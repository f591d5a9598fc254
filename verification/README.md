# Vendor microservice core in Dafny

This project models the rule engine and the service logic of a NestJS vendor
microservice:

- **The condition engine.** A token list (field names, operators,
  parentheses, `and`/`or`, literal values) is first checked for balanced
  parentheses. Groups are then reduced innermost-first by recursion. After
  that, each `operand operator operand` triple becomes a boolean, the AND
  runs collapse, and a left-to-right OR fold gives the answer.
- **`evaluateOperator`.** It compares two operands under one of nineteen
  operators. It coerces date-like strings first, and its guard chain
  refuses operand/operator combinations that make no sense.
- **Effects.**
  - A plain effect is returned as stored.
  - A conditional effect scans its blocks in order and is resolved again
    from the target of the first block whose guard holds.
  - The request validator and the token discriminator of the effect DTO.
- **The per-field cache.** The first call runs the accessor. Every later
  call replays the stored outcome.
- **The column-name helpers.** camelCase/snake_case conversion, the
  recursive key renaming of database rows, and the column lists of the
  query builders. Also `hasDefinedProperties`.
- **Subscriptions.** Creation defaults, status stamps, the billing cycle
  and renewal, the activity test, the day count to the next bill, and the
  effect lookup of the active listing.
- **Promotions.** The creation record and the active-window listing.
- **Locations.** Single locations, combinations, and the priority order of
  a location's catalog candidates.
- **Catalogs.** Creation with items and selections, lookup by id, and the
  first-match fallback by location.

Each service module covers one service of the source. CatalogService and
LocationService also cover their data services, and LocationService models
the conflict rule of the generic upsert in `queries.ts` that its writes go
through. Wrappers and Json are shared value types, and ConditionProperties
holds lemmas about the condition engine rather than code of its own. The
source's loops are methods proved equal to a recursive function that says
what the loop computes:

- the parenthesis check and the pair search;
- the comparison, AND and OR passes and the reduction loop;
- the block scan and effect resolution;
- the object and array branches of the key renaming;
- the member loop of a location combination;
- the candidate loop of the catalog lookup.

The cache is a class whose one slot is updated in place. Everything else is
a pure function over values.

Databases, uuids and the clock are parameters:

- a table is a sequence (or map) of rows;
- fresh ids are arguments, or functions from an index to an id;
- "now" is an integer of milliseconds.

The JavaScript and date-fns behaviour the comparison relies on is an
injected record. This covers date parsing, `String(date)`, regular
expressions, `differenceInDays` and the current time. The date-fns calendar
steps of the billing cycle are injected the same way.

## Model

| member | source | states |
|---|---|---|
| ConditionTypes.FieldTypeCode | src/managers/condition/types.ts:12-16 | each field type has a non-empty string code |
| ConditionTypes.DecodeOp | src/managers/condition/types.ts:18-38 | reading an operator string gives an unlisted operator exactly for strings outside the nineteen codes, and encoding the result gives the string back |
| ConditionTypes.DecodeOpCode | src/managers/condition/types.ts:18-38 | decoding inverts encoding for every well-formed operator |
| ConditionTypes.OpCodeInjective | src/managers/condition/types.ts:18-38 | the operator codes are pairwise distinct |
| ConditionTypes.DecodeParen | src/managers/condition/types.ts:40-43 | the parenthesis kinds are exactly '(' and ')' and decode back to their codes |
| ConditionTypes.DecodeConnective | src/managers/condition/types.ts:45-48 | the connectives are exactly 'and' and 'or' and decode back to their codes |
| ConditionTypes.Raws | src/managers/condition/types.ts:3-10 | each raw token becomes a processed token in the same position |
| EffectTypes.KindCode | src/managers/effect/types.ts:3-10 | every effect kind encodes to one of the six codes |
| EffectTypes.DecodeKind | src/managers/effect/types.ts:3-10 | a stored kind string decodes exactly when it is one of the six codes, and it re-encodes to itself |
| EffectTypes.DecodeKindCode | src/managers/effect/types.ts:3-10 | decoding inverts encoding |
| EffectTypes.KindCodeInjective | src/managers/effect/types.ts:3-10 | the six kind codes are pairwise distinct |
| CompareOperators.TypeOf | src/managers/condition/utils/compareOperators.ts:128-133 | `typeof` gives "object" exactly for a Date or null, "string" exactly for strings and "number" exactly for numbers |
| CompareOperators.ToDate | src/managers/condition/utils/compareOperators.ts:9-19 | `new Date(undefined)` is invalid and a Date converts to its own time |
| CompareOperators.Contains | src/managers/condition/utils/compareOperators.ts:42-53 | `includes` holds exactly when the needle occurs at some index of the haystack |
| CompareOperators.Coerce | src/managers/condition/utils/compareOperators.ts:9-19 | a left string that parses becomes a new Date, otherwise the left is kept; the right changes only while the left is still a string and the right converts to a valid date, and then it becomes a new Date of that time |
| CompareOperators.CanCompareFields | src/managers/condition/utils/compareOperators.ts:125-189 | every refusal is a type mismatch or one of the three operator-on-type errors |
| CompareOperators.Compare | src/managers/condition/utils/compareOperators.ts:23-122 | the switch fails only on a bad regular expression, an invalid days operand or an unlisted operator |
| CompareOperators.EvaluateOperator | src/managers/condition/utils/compareOperators.ts:4-123 | comparing never raises a parenthesis error |
| CompareOperators.MismatchedTypesFail | src/managers/condition/utils/compareOperators.ts:125-135 | operand types that differ after coercion fail with a type mismatch unless the operator is DaysAfter or DaysBefore |
| CompareOperators.DateAndNullShareTag | src/managers/condition/utils/compareOperators.ts:128-133 | a Date and null have the same `typeof` tag, so pairing them is no mismatch |
| CompareOperators.StringLeftRejected | src/managers/condition/utils/compareOperators.ts:137-156 | a left operand still a string after coercion is refused for the ten ordering, date and days operators |
| CompareOperators.NumberLeftRejected | src/managers/condition/utils/compareOperators.ts:158-174 | a numeric left operand is refused for the five string operators and the four date-ordering operators |
| CompareOperators.DateLeftRejected | src/managers/condition/utils/compareOperators.ts:176-188 | a Date left operand is refused for the five string operators |
| CompareOperators.NotEqualsNegatesEquals | src/managers/condition/utils/compareOperators.ts:24-35 | NotEquals succeeds exactly when Equals does and then returns its negation |
| CompareOperators.IncludesComplement | src/managers/condition/utils/compareOperators.ts:42-53 | Includes holds iff both coerced sides are strings and the right contains the left; DoesntInclude is its exact negation |
| CompareOperators.ExistenceLooksLeft | src/managers/condition/utils/compareOperators.ts:64-69 | Exists and NotExists are complementary, null and undefined both count as absent, and the right operand does not affect the answer |
| CompareOperators.DaysOperators | src/managers/condition/utils/compareOperators.ts:90-119 | the days operators fail unless the left is a number and the right a valid date; otherwise they compare the whole-day difference from now (DaysAfter) or to now (DaysBefore) with that number |
| CompareOperators.UnlistedOperatorFails | src/managers/condition/utils/compareOperators.ts:120-121 | an operator outside the enum always throws |
| CompareOperators.DateStringAgainstStringFails | src/managers/condition/utils/compareOperators.ts:9-21 | a left string that parses as a date, against any right string, fails with "object" vs "string" for every operator but the days operators |
| ConditionService.GetFieldValue | src/managers/condition/condition.service.ts:19-23 | a name without an accessor throws "is not a function", a rejected accessor rethrows its reason, and a fulfilled one gives its value |
| ConditionService.CreateFieldOrValue | src/managers/condition/condition.service.ts:186-204 | a token with a value key is used as that value, even when it also names a field; a field gives its accessor's value, null when that is undefined, and fails exactly when the lookup fails; other tokens give null |
| ConditionService.ParenthesesError | src/managers/condition/condition.service.ts:52-72 | the check passes or raises one of the two parenthesis errors |
| ConditionService.ScanErrors | src/managers/condition/condition.service.ts:52-72 | every suffix scan of the depth check ends in one of those three outcomes |
| ConditionService.ValidateParentheses | src/managers/condition/condition.service.ts:52-72 | the depth loop computes the parenthesis check |
| ConditionService.PairFrom | src/managers/condition/condition.service.ts:74-100 | a reported pair is an opening parenthesis strictly before a closing one |
| ConditionService.TopLevelPair | src/managers/condition/condition.service.ts:74-100 | a reported pair is an opening parenthesis strictly before a closing one |
| ConditionService.FindParenthesesPair | src/managers/condition/condition.service.ts:74-100 | the scan loop with its early return computes the first top-level pair |
| ConditionService.Replace | src/managers/condition/condition.service.ts:42-46 | the group `s..e` is replaced by one result: the prefix and the suffix are kept and the list shrinks by `e - s` |
| ConditionService.ComparisonPass | src/managers/condition/condition.service.ts:112-184 | the comparison pass never raises a parenthesis error |
| ConditionService.EvaluateComparisonOperators | src/managers/condition/condition.service.ts:112-184 | the `while` loop with its three-token step computes the comparison pass |
| ConditionService.AndRun | src/managers/condition/condition.service.ts:216-234 | an AND run consumes tokens and never lengthens the rest |
| ConditionService.CollapseAndRun | src/managers/condition/condition.service.ts:216-237 | the inner loop stops after the maximal `and result` run following the result at `i`, with the conjunction of that run |
| ConditionService.EvaluateAndOperators | src/managers/condition/condition.service.ts:206-245 | the outer loop computes the AND pass |
| ConditionService.EvaluateOrOperators | src/managers/condition/condition.service.ts:247-286 | the OR loop, with its shortcut for a lone result, computes the OR pass |
| ConditionService.LogicalValue | src/managers/condition/condition.service.ts:102-110 | combining a parenthesis-free list never raises a parenthesis error |
| ConditionService.EvaluateLogicalExpression | src/managers/condition/condition.service.ts:102-110 | comparisons, then AND, then OR, as the composition of the three passes |
| ConditionService.EvaluateConditions | src/managers/condition/condition.service.ts:30-50 | validation, then the reduction loop over the first top-level group with a recursive call on its interior, then the logical expression, computes the full evaluation |
| ConditionService.EvaluateTokens | src/managers/condition/condition.service.ts:30-50 | a block's raw tokens are evaluated as processed tokens |
| ConditionProperties.ParenShapes | src/managers/condition/types.ts:6 | a parenthesis token is exactly an opening or a closing one |
| ConditionProperties.NoParensBalanced | src/managers/condition/condition.service.ts:52-72 | a list without parentheses is balanced |
| ConditionProperties.ScanDepthSpec | src/managers/condition/condition.service.ts:52-72 | the depth scan from any safe prefix reports a closing error iff some later prefix dips below 0, else an opening error iff the final depth is positive |
| ConditionProperties.ValidationMatchesDepth | src/managers/condition/condition.service.ts:52-72 | the check passes iff the list is balanced, reports an unmatched closing parenthesis iff some prefix dips below 0, and an unmatched opening one iff none does and the final depth is positive |
| ConditionProperties.TopLevelPairBalanced | src/managers/condition/condition.service.ts:74-100 | on a balanced list a pair is found iff there is a parenthesis, and it is a complete top-level group |
| ConditionProperties.ReplaceKeepsBalance | src/managers/condition/condition.service.ts:35-47 | replacing a top-level group of a balanced list leaves a balanced, strictly shorter list, and the group's interior is balanced |
| ConditionProperties.NoParenSurvives | src/managers/condition/condition.service.ts:35-47 | after the reduction loop of a balanced list no parenthesis is left |
| ConditionProperties.EvaluationBalanced | src/managers/condition/condition.service.ts:30-50 | a balanced list never fails with a parenthesis error |
| ConditionProperties.GroupPassBalanced | src/managers/condition/condition.service.ts:35-47 | the reduction loop of a balanced list never fails with a parenthesis error, whatever its recursive calls do |
| ConditionProperties.ParenthesesDecideFirst | src/managers/condition/condition.service.ts:30-72 | an unbalanced list fails with the validation error whatever the fields hold, and each parenthesis error occurs exactly for its kind of imbalance |
| ConditionProperties.EmptyIsFalse | src/managers/condition/condition.service.ts:256-285 | the empty list evaluates to false |
| ConditionProperties.ComparisonStep | src/managers/condition/condition.service.ts:139-177 | a successful pass at an operand consumes it with an operator and a second operand, both operands resolve to non-null values, and the first result emitted is `evaluateOperator` of those values under that operator |
| ConditionProperties.ComparisonPassShape | src/managers/condition/condition.service.ts:118-181 | the comparison pass leaves no operand, keeps every connective and parenthesis in order, and shortens the list by two per new result |
| ConditionProperties.PassThrough | src/managers/condition/condition.service.ts:121-137 | tokens that are not operands pass through unchanged |
| ConditionProperties.MalformedComparison | src/managers/condition/condition.service.ts:140-154 | an operand with fewer than two tokens after it, without an operator after it, or with a non-operand after the operator, throws the matching error |
| ConditionProperties.UndefinedOperand | src/managers/condition/condition.service.ts:156-170 | a field without an accessor throws "is not a function", and one whose accessor yields undefined throws "Field or value is undefined" |
| ConditionProperties.ValueKeyWins | src/managers/condition/condition.service.ts:186-193 | a token with both a value and a field key starts the same comparison as its value alone |
| ConditionProperties.AndRunTail | src/managers/condition/condition.service.ts:216-234 | an AND run over `and b1 and b2 …` yields the conjunction and stops at the first token that is not `and` |
| ConditionProperties.AndPassRender | src/managers/condition/condition.service.ts:206-245 | the AND pass turns each conjunction of results into its value, leaving the `or` tokens between them |
| ConditionProperties.OrPassAlternate | src/managers/condition/condition.service.ts:259-283 | the OR pass over `a0 or a1 or …` is their disjunction |
| ConditionProperties.AndBeforeOr | src/managers/condition/condition.service.ts:102-110 | a disjunction of conjunctions of results evaluates to true iff some conjunction is all true: AND binds tighter than OR |
| ConditionProperties.NoResultIsFalse | src/managers/condition/condition.service.ts:256-285 | a list with no result yields false |
| ConditionProperties.LoneOperatorIsFalse | src/managers/condition/condition.service.ts:179-180 | a lone operator token passes every stage untouched and yields false |
| ConditionProperties.ResultWithoutOrOverwrites | src/managers/condition/condition.service.ts:266-278 | a result not preceded by `or` overwrites whatever was accumulated before it |
| FieldCache.Cache.constructor | src/managers/field-cache/utils/cache.ts:1-2 | the slot starts empty and nothing has run |
| FieldCache.Cache.Get | src/managers/field-cache/utils/cache.ts:4-11 | the first call stores and returns the accessor's outcome and counts one run; every later call returns the stored outcome, leaves the slot alone and runs nothing, so the accessor runs at most once and a failure is replayed like a value |
| EffectDto.ConditionsAllowed | src/managers/effect/effect.dto.ts:156-168 | validation passes iff the type is 'condition' exactly when the conditions have a truthy length |
| EffectDto.ConditionsMessage | src/managers/effect/effect.dto.ts:169-177 | the "required" message exactly for a Condition effect without conditions, the "only allowed" message otherwise |
| EffectDto.MessageMatchesRule | src/managers/effect/effect.dto.ts:156-177 | on a failed validation the message names the rule that failed |
| EffectDto.ConditionTypeDiscriminator | src/managers/effect/effect.dto.ts:126-143 | the first of field, operator, parentheses, logicalOperator, value that is defined picks its class; the plain fallback exactly when none is defined; null and undefined throw |
| EffectDto.TypeItems | src/managers/effect/effect.dto.ts:52-56 | every element keeps its data and gets the discriminator's class; mapping fails exactly when some element is null or undefined |
| EffectDto.TransformConditionArray | src/managers/effect/effect.dto.ts:49-57 | a non-array is returned untouched; an array is mapped element by element with its length kept |
| EffectService.ChooseEffectFromConditions | src/managers/effect/effect.service.ts:77-94 | no conditions give null; the block loop, which skips null guards and returns at the first true guard, computes the first match |
| EffectService.FirstMatchFinds | src/managers/effect/effect.service.ts:84-92 | the scan returns target `t` iff some block selects with target `t` and every earlier block is passed over |
| EffectService.FirstMatchNone | src/managers/effect/effect.service.ts:80-93 | the scan returns null iff every block is passed over |
| EffectService.NullGuardsSkipped | src/managers/effect/effect.service.ts:85 | blocks with a null guard play no part in the scan |
| EffectService.GetEffect | src/managers/effect/effect.service.ts:50-68 | the recursive method computes the resolution of an id |
| EffectService.PlainEffectReturned | src/managers/effect/effect.service.ts:50-67 | a missing id gives null and a record that is not conditional comes back unchanged |
| EffectService.ConditionalFollowsFirstMatch | src/managers/effect/effect.service.ts:57-64 | a conditional record resolves as the target of its first selecting block, one hop further |
| EffectService.NoMatchIsNull | src/managers/effect/effect.service.ts:57-62 | a conditional record whose blocks are all passed over resolves to null |
| EffectService.FuelMonotone | src/managers/effect/effect.service.ts:50-68 | more hops never change an outcome that was reached |
| EffectService.RankedResolves | src/managers/effect/effect.service.ts:57-64 | when every target ranks below its record, fuel equal to the rank is enough |
| EffectService.SelfTargetDiverges | src/managers/effect/effect.service.ts:57-64 | a record that selects itself never resolves, since there is no cycle guard |
| EffectService.CreateEffect | src/managers/effect/effect.service.ts:16-32 | the new record copies the request's kind, value, details and conditions, takes the fresh id and the clock for both dates, and is added to the store |
| EffectService.CreateConditionalEffect | src/managers/effect/effect.service.ts:34-48 | the new record is always of kind condition and has no value, whatever the request says |
| EffectService.CreatedEffectResolves | src/managers/effect/effect.service.ts:16-68 | a created plain effect resolves to itself; a created conditional one resolves through its own blocks |
| Json.Put | src/lib/fieldOperations.ts:26 | a property write stores the value under its key; an existing key keeps its place, and a new key goes last |
| Json.PutOther | src/lib/fieldOperations.ts:26 | a write leaves every other key's value alone |
| Json.PutKeys | src/lib/fieldOperations.ts:26 | after a write a key is present iff it was before or is the key written |
| Json.PutKeepsUnique | src/lib/fieldOperations.ts:26 | a write keeps every key unique |
| FieldOperations.ToCamelShortens | src/lib/fieldOperations.ts:11-15 | `toCamel` never lengthens a key; the length is kept iff there is no match, and then the key is unchanged |
| FieldOperations.ToSnakeLengthens | src/lib/fieldOperations.ts:17-19 | `toSnake` never shortens a key; the length is kept iff there is no match, and then the key is unchanged |
| FieldOperations.CamelUndoesSnake | src/lib/fieldOperations.ts:11-19 | a key made of ASCII letters comes back from its snake_case column |
| FieldOperations.KeysToCamel | src/lib/fieldOperations.ts:21-37 | arrays map element by element, dates become `{}`, objects stay objects and other values are returned as they are |
| FieldOperations.CamelizeKeys | src/lib/fieldOperations.ts:21-37 | the recursive method computes the renaming |
| FieldOperations.CamelizeEntries | src/lib/fieldOperations.ts:22-29 | the `forEach` that fills a fresh object computes the object branch |
| FieldOperations.CamelizeItems | src/lib/fieldOperations.ts:30-34 | the `map` computes the array branch |
| FieldOperations.FoldPutKeys | src/lib/fieldOperations.ts:25-27 | successive writes leave exactly the earlier keys and the written keys |
| FieldOperations.FoldPutUntouched | src/lib/fieldOperations.ts:25-27 | a key no write touches keeps its value |
| FieldOperations.FoldPutAppend | src/lib/fieldOperations.ts:25-27 | writing two lists of pairs in turn is writing them laid end to end |
| FieldOperations.FoldPutFirstLast | src/lib/fieldOperations.ts:25-27 | the first write of a key that no later write repeats is the value read |
| FieldOperations.FoldPutLast | src/lib/fieldOperations.ts:25-27 | a written key holds the value of its last write |
| FieldOperations.FoldPutUnique | src/lib/fieldOperations.ts:25-27 | successive writes keep every key unique |
| FieldOperations.CamelObjectKey | src/lib/fieldOperations.ts:22-29 | a renamed object has a key iff some old key has it as its camelCase form |
| FieldOperations.CamelObject | src/lib/fieldOperations.ts:22-29 | a renamed object has unique keys, exactly the camelCase forms of the old keys, and under each the converted value of the last old key with that form |
| FieldOperations.Columns | src/lib/fieldOperations.ts:39-43 | one snake_case column per key, in key order |
| FieldOperations.ColumnsMatchKeys | src/lib/fieldOperations.ts:39-48 | the column list lines up with `values` one for one, and renaming a column back gives its key |
| FieldOperations.Assignments | src/lib/fieldOperations.ts:51-57 | one `column = value` pair per key whose value is not undefined, and no other pair |
| FieldOperations.AssignmentsAppend | src/lib/fieldOperations.ts:51-57 | the pairs of two records laid end to end are the pairs of each, in order |
| FieldOperations.AssignmentsOne | src/lib/fieldOperations.ts:51-57 | a single key gives its snake_case column and value, or nothing when the value is undefined |
| FieldOperations.NothingToSet | src/lib/fieldOperations.ts:51-57 | an update has no assignment iff the record has no defined property |
| FieldOperations.DedupFrom | src/lib/fieldOperations.ts:59-61 | the map keeps each parameter once, at its first occurrence, and names exactly the parameters; a list without repeats is kept as it is |
| FieldOperations.NewParameterAppended | src/lib/fieldOperations.ts:59-61 | a parameter not seen before goes to the end of the map |
| FieldOperations.RepeatedParameterIgnored | src/lib/fieldOperations.ts:59-66 | listing a parameter again changes nothing, and the list is duplicate-free and names exactly the parameters |
| DefinedProperties.Values | src/lib/hasDefinedProperties.ts:2 | `Object.values`: one value per key, in key order |
| DefinedProperties.FindDefined | src/lib/hasDefinedProperties.ts:2 | `find` gives none iff every value is undefined, and otherwise the first value that is not undefined |
| DefinedProperties.HasDefinedProperties | src/lib/hasDefinedProperties.ts:1-8 | true iff some value is not undefined; null, 0, false and "" count as defined |
| DefinedProperties.OrderIrrelevant | src/lib/hasDefinedProperties.ts:1-8 | the answer depends only on the multiset of values |
| SubscriptionService.NextBillingDate | src/managers/subscription/subscription.service.ts:146-159 | an unknown cycle steps one month |
| SubscriptionService.NextBillingMovesForward | src/managers/subscription/subscription.service.ts:146-159 | with forward calendar steps, the next billing date is strictly later |
| SubscriptionService.CurrencyOrDefault | src/managers/subscription/subscription.service.ts:42 | a missing or empty currency becomes USD, and any other is kept |
| SubscriptionService.CreateSubscription | src/managers/subscription/subscription.service.ts:29-55 | a new subscription is Active, has the fresh id and the caller's vendor, copies the customer, name, description, type, billing cycle, price, effect id, trial end and metadata of the request, has the defaulted currency, the next billing date one cycle after the start, no cancel or pause stamp, and the clock for both dates |
| SubscriptionService.FirstBillAfterStart | src/managers/subscription/subscription.service.ts:29-55 | the first bill is strictly after the start |
| SubscriptionService.UpdateSubscriptionStatus | src/managers/subscription/subscription.service.ts:69-97 | PastDue and Expired throw "Unsupported subscription status"; the others set the status, and only Cancelled and Paused add their stamp, equal to the timestamp |
| SubscriptionService.ApplyStatusUpdate | src/managers/subscription/subscription.service.ts:75-96 | writing an update changes only that row's status, the stamps it carries and its updated date |
| SubscriptionService.Renew | src/managers/subscription/subscription.service.ts:123-139 | a missing or non-Active subscription gives null and changes nothing; otherwise the stored next billing date moves one cycle on and the row is returned |
| SubscriptionService.RenewMovesForward | src/managers/subscription/subscription.service.ts:123-139 | renewing an Active subscription succeeds, moves its bill strictly later and keeps it Active |
| SubscriptionService.IsSubscriptionActive | src/managers/subscription/subscription.service.ts:161-171 | active iff Active, not past its end date and already started |
| SubscriptionService.CeilDiv | src/managers/subscription/subscription.service.ts:175 | `Math.ceil(ms / d)` is the least integer q with ms <= q·d |
| SubscriptionService.DaysUntilNextBilling | src/managers/subscription/subscription.service.ts:173-176 | the least whole number of days covering the gap to the next bill |
| SubscriptionService.DaysSignMatchesDue | src/managers/subscription/subscription.service.ts:173-176 | the count is positive iff the bill is still ahead |
| SubscriptionService.View | src/managers/subscription/subscription.service.ts:103-118 | the flag and day count are attached; only an active subscription with an effect id looks its effect up, and a failed lookup fails the view |
| SubscriptionService.ActiveSubscriptions | src/managers/subscription/subscription.service.ts:99-121 | the listing succeeds iff every view does, and then holds each subscription's view in order |
| SubscriptionService.EffectOnlyWhenActive | src/managers/subscription/subscription.service.ts:107-110 | only active subscriptions with an effect id carry an effect |
| PromotionService.CreatePromotion | src/managers/promotion/promotion.service.ts:21-31 | the record holds the fresh id, the caller's vendor and the clock under both dates, whatever the body says |
| PromotionService.CreatePromotionKeepsBody | src/managers/promotion/promotion.service.ts:22-28 | every other key of the body passes through unchanged, and the keys stay unique |
| PromotionService.View | src/managers/promotion/promotion.service.ts:45-62 | the flag is start <= now <= end; only an active promotion with an effect id asks for its effect, and a failed lookup leaves it null |
| PromotionService.ActivePromotions | src/managers/promotion/promotion.service.ts:41-68 | only active views are returned, and every active promotion's view is among them |
| PromotionService.ActivePromotionsKeepOrder | src/managers/promotion/promotion.service.ts:64-67 | the filter commutes with concatenation, so the listing keeps the input order |
| PromotionService.ActivePromotionsOne | src/managers/promotion/promotion.service.ts:64-67 | one promotion contributes its view exactly when it is active |
| LocationService.VendorOf | src/managers/location/location.service.ts:25 | an explicit vendor argument wins, even when empty; otherwise the request's vendor is used |
| LocationService.Merge | src/lib/queries.ts:114-115 | on a conflict every column the written row defines is overwritten, and a column it leaves undefined keeps the stored value |
| LocationService.Stored | src/lib/databaseHelper.ts:78-102 | the row the upsert leaves: the written row for a fresh id, else the written row merged into the first stored row with that id; id, kind and vendor always come from the written row |
| LocationService.Upsert | src/managers/location/locationData.service.ts:44-46 | the stored row is in the table afterwards, every other row of the result was there before, and rows with other ids are kept |
| LocationService.ConflictKeepsUndefinedColumns | src/lib/queries.ts:99-124 | with unique ids, writing a row whose id is taken merges it into the existing row, which keeps the columns the write leaves undefined |
| LocationService.UpsertStored | src/lib/queries.ts:99-124 | writing the row an upsert would store has the same effect as the upsert itself |
| LocationService.UpsertKeepsUnique | src/managers/location/locationData.service.ts:44-46 | an upsert keeps location ids unique |
| LocationService.UpsertAll | src/managers/location/location.service.ts:65-82 | successive upserts keep location ids unique |
| LocationService.UpsertAllSnoc | src/managers/location/location.service.ts:65-82 | one more write upserts one more row and stores one more row, at the end |
| LocationService.UpsertAllKeepsLast | src/managers/location/location.service.ts:65-82 | the row each write stores survives unless a later write reuses its id |
| LocationService.UpsertAllIds | src/managers/location/location.service.ts:65-82 | after the writes every row was in the table before or carries the id of one of the written rows |
| LocationService.NewIdStoredAsWritten | src/managers/location/location.service.ts:65-82 | a write whose id is in neither the table nor an earlier write is stored exactly as written |
| LocationService.GetLocation | src/managers/location/locationData.service.ts:17-42 | the first row matching the non-empty filters, or null iff none matches |
| LocationService.GetLocationAsWritten | src/managers/location/locationData.service.ts:17-42 | without a `test` binding the lookup throws a ReferenceError; with one that has a defined property it filters; otherwise it returns the first row of the whole table |
| LocationService.AsWrittenIgnoresFilters | src/managers/location/locationData.service.ts:21 | a table where the lookup as written returns another vendor's row while the filtered lookup returns the vendor's own |
| LocationService.LookupById | src/managers/location/locationData.service.ts:17-42 | with unique ids, a lookup by a non-empty id finds the row with that id when it passes the other filters |
| LocationService.PostLocation | src/managers/location/location.service.ts:22-34 | Individual iff a request is given and Global iff none is; the fresh id and the vendor; the request's coordinates when it gives them, and for an id not yet stored exactly the request's coordinates and no combination; the returned row is the one the upsert stores, and ids stay unique |
| LocationService.CombinationItem | src/managers/location/location.service.ts:67-76 | a member is Individual, points at the parent, has the vendor, the request's coordinates and the request's id or a fresh one |
| LocationService.FindParent | src/managers/location/location.service.ts:44-50 | a parent found is a Combination row of the table with the requested id |
| LocationService.CombinationParent | src/managers/location/location.service.ts:44-63 | the parent is always a Combination; when none is found it has the fresh id and the vendor |
| LocationService.ParentTable | src/managers/location/location.service.ts:51-63 | the parent is in the table afterwards, and ids stay unique |
| LocationService.ResolveParent | src/managers/location/location.service.ts:42-63 | looks the parent up only for a non-empty combination id and writes a new one when none is found |
| LocationService.Members | src/managers/location/location.service.ts:66-77 | one member per entry, in order, each built from its entry |
| LocationService.MembersSnoc | src/managers/location/location.service.ts:66-77 | one more entry adds its member at the end |
| LocationService.WriteMembers | src/managers/location/location.service.ts:65-82 | the loop upserts one member per entry, in order, and returns the rows the upserts store |
| LocationService.StoredMembers | src/managers/location/location.service.ts:65-82 | every returned member is Individual, has the member's id and the vendor, and points at the parent |
| LocationService.PostLocationCombination | src/managers/location/location.service.ts:36-85 | returns the parent and the stored row of each member; the table is the parent table with the members upserted in order, and ids stay unique |
| LocationService.PrioritizedLocations | src/managers/location/location.service.ts:87-111 | three candidates: the id of the first Individual row of the vendor with the location's id, that row's combination id, and the id of the vendor's first Global row; each is null exactly when its row is missing |
| LocationService.OwnRowCandidates | src/managers/location/location.service.ts:87-102 | with unique ids, a stored Individual row of the vendor yields its own id and then its combination id |
| LocationService.CombinationMemberCandidates | src/managers/location/location.service.ts:87-102 | a member just written is found first as itself and then through its stored combination, the requested one when it gave one, unless a later member reuses its id |
| CatalogService.GetCatalog | src/managers/catalog/catalogData.service.ts:15-78 | the first of the vendor's catalogs that matches the non-empty filters, or null iff none does |
| CatalogService.GetCatalogById | src/managers/catalog/catalog.service.ts:77-81 | a result is the vendor's catalog with that id (an empty id filters nothing); null iff there is none |
| CatalogService.GetCatalogByIdFindsRow | src/managers/catalog/catalog.service.ts:77-81 | with unique catalog ids, the lookup returns exactly the row with that id |
| CatalogService.CatalogAt | src/managers/catalog/catalog.service.ts:91-93 | a catalog found for a candidate is the vendor's, at that location |
| CatalogService.FirstCatalog | src/managers/catalog/catalog.service.ts:83-103 | null iff no usable candidate has a catalog; otherwise the catalog of the first usable candidate that has one |
| CatalogService.FirstCatalogStep | src/managers/catalog/catalog.service.ts:86-98 | one step of the candidate scan |
| CatalogService.LaterCandidatesIgnored | src/managers/catalog/catalog.service.ts:95-97 | once a candidate has a catalog, later candidates do not matter |
| CatalogService.MemberFallsBackToCombination | src/managers/catalog/catalog.service.ts:83-103 | a location without its own catalog gets its combination's catalog |
| CatalogService.FallsBackToGlobal | src/managers/catalog/catalog.service.ts:83-103 | when neither the location nor its combination has a catalog, the lookup gives the catalog of the third candidate, which is a Global location of the vendor, or null when that has none |
| CatalogService.GetCatalogByLocation | src/managers/catalog/catalog.service.ts:83-103 | the loop, which skips empty candidates and returns at the first catalog, computes the first-match fallback |
| CatalogService.NewItem | src/managers/catalog/catalog.service.ts:46-56 | an item copies the request fields, takes its fresh id and the vendor, and has price unit USD |
| CatalogService.NewItems | src/managers/catalog/catalog.service.ts:45-60 | one item per request item, in order |
| CatalogService.NewSelections | src/managers/catalog/catalog.service.ts:62-72 | one selection per item, linking it to the catalog |
| CatalogService.CreateCatalog | src/managers/catalog/catalog.service.ts:28-75 | the catalog row is always written; a request without items then fails with the TypeError and nothing else is written; otherwise the items and their selections are appended and returned with the catalog |
| CatalogService.SelectedItemIds | src/managers/catalog/catalogData.service.ts:43-46 | an item id is listed iff a selection of the catalog points at it |
| CatalogService.SelectedItemIdsAppend | src/managers/catalog/catalogData.service.ts:43-46 | the selected ids of appended selections are appended |
| CatalogService.ItemIds | src/managers/catalog/catalog.service.ts:63 | the ids of the items, in order |
| CatalogService.NewSelectionsSelectAll | src/managers/catalog/catalog.service.ts:62-72 | the new selections select exactly the new items, in order |
| CatalogService.CreatedCatalogSelectsItems | src/managers/catalog/catalog.service.ts:28-75 | for a fresh catalog id, the created catalog selects exactly the created items, in order |

## Left out

- Database access, uuids and the clock are not modelled as effects. Tables are sequences or maps of rows, and ids and times are parameters.
- SQL text is not modelled. The query builders are modelled by the columns and values they carry, and a query result is taken in table order.
- `Promise.all` is modelled as a left-to-right sequence. When two lookups fail, the model reports the first in list order. Which rejection wins in JavaScript is timing-dependent.
- Numbers are integers, and catalog prices are reals. NaN and fractional operands of the comparisons are not modelled.
- ConditionTypes.Value: a field value is a string, a number, a boolean, a Date, null or undefined. Arrays, plain objects and other values are not modelled as operands. The source's `typeof` check (src/managers/condition/utils/compareOperators.ts:128-133) would tag an array or object "object", as it does a Date or null, and the operators would then convert it to a primitive.
- Thrown errors are modelled by their message text. The error class (`TypeError`, `ReferenceError`, `Error`) and the stack are not modelled.
- Date parsing, `String(date)`, `RegExp`, `differenceInDays` and the date-fns calendar steps are injected functions. Their own behaviour is not modelled.
- FieldOperations.ToSnake: `toSnake` lowercases whatever character follows a lower-case ASCII letter, and `toLowerCase` maps non-ASCII letters too. The model lowercases ASCII letters only. `toCamel` matches `[-_][a-z]` case-insensitively, which is ASCII, and is modelled as it is.
- `Object.keys` moves integer-like keys to the front. The model keeps insertion order for every key.
- The JSON round trip of stored conditions is not modelled. Neither are the class prototypes `plainToClass` attaches to the transformed tokens: a token keeps its data and records its class.
- EffectService.GetEffect: resolution carries a fuel bound, one unit per hop, because the source has no cycle guard. A chain longer than the fuel ends as OutOfFuel. RankedResolves states when the fuel suffices, and SelfTargetDiverges shows that no fuel suffices for a self-loop.
- LocationService.GetLocationAsWritten: the binding of the global `test` comes from the runtime (a test runner defines one, production does not). It is a parameter: none, or the own enumerable properties of the value bound to it.
- LocationService.Merge: a `null` coordinate in a request is taken as absent. `fieldsEqualValues` drops only `undefined`, so an explicit `null` would clear the stored coordinate.
- ConditionTypes.Token: a raw token carries a field, a value, both, or one of the other kinds. Other combinations of keys are not modelled.
- CompareOperators.EvaluateOperator: the Date identities `CoercedLeft` and `CoercedRight` stand for the two Dates a comparison creates. An input is taken not to carry them; one that did would compare equal to a freshly coerced Date, which no JavaScript value does.
- The `json_agg` aggregation of a catalog's items into its query row is not modelled. GetCatalog returns the catalog row, and SelectedItemIds states which items a catalog selects.
- `PriceUnit` and `CatalogType` are declared in the catalog module's `types.ts`, which is not part of this model. The kinds are kept as strings, and the price unit as USD or another code.
- The `getSubscription*`, `getPromotion*` and `getSubscriptionsDueForBilling` pass-throughs to the data services are not modelled. They contain no logic.
- The vendor and receipt services and the controllers are not part of this model.
- Console logging and the logger warning are not modelled.

## Findings

| source | as written | input that shows it | evidently intended | confidence | as-written member | corrected member |
|---|---|---|---|---|---|---|
| src/managers/location/locationData.service.ts:21 | the WHERE clause is guarded by `hasDefinedProperties(test)`, a global the function never binds; production throws a ReferenceError, and under a test runner the guard tests the runner's `test` function, never the filters | a table holding another vendor's Global row before the vendor's own, looked up with `test` bound to a value without defined properties: the first row of the table, of the wrong vendor, is returned | guard on the filters the function builds from `locationId`, `type` and the vendor | not executed | LocationService.GetLocationAsWritten, LocationService.AsWrittenIgnoresFilters | LocationService.GetLocation |
