# Verified model of the sample collection's small state machines and validators

This project is a Dafny model of the parts of the sample collection that have
logic worth stating, with proofs about that logic:

- The `TodoList` React component: adding, toggling, deleting and editing todos,
  clearing the completed ones, toggle-all, the stats, the filters and the
  newest/oldest sort.
  - The pure list computations are functions in `TodoModel`.
  - The component state is the class `TodoListComponent.TodoList`. Its fields
    are the `useState` values and its methods are the event handlers.
- The xstate `toggle` machine: its transition table, an `Actor` that holds the
  current snapshot, and the script that sends TOGGLE, ten INC and END.
- The `Counter` component: increment, decrement, reset to the initial count,
  and the value each handler reports to `onCountChange`.
- The in-source test examples:
  - the e-mail, number and required-field checks, and the status that `fetchData` chooses;
  - the password validator, the tax-rate table, `processItems` and `classifyInput`;
  - the event emitter, the user service over a database and a mailer, and `processWithCallback`;
  - the arithmetic helpers and `greet`.
- The neverthrow sample: the e-mail pattern, `divide`, the user lookup over the
  fixed two-user table, and `updateUserEmail`.
- The tsx/node script's `greetUser` and `calculateTotal`.

Shared pieces:
- `Wrappers` holds `Option` and `Result`.
- `Text` holds the JavaScript string primitives the sources use:
  - `trim`, and the white space that `trim` and `\s` recognise;
  - `indexOf`, `includes`, and the ASCII character classes;
  - integer rendering in a template string.

JavaScript numbers are modelled as unbounded integers, or as `real` where the
source divides. Every input the sources and their tests use is an integer.

## Model

| member | source | states |
|---|---|---|
| Text.Trim | playwright-component-test/src/components/TodoList.tsx:91-94 | `trim` result is empty exactly when the string is all JavaScript white space; otherwise it starts and ends with non-space |
| Text.TrimPadded | playwright-component-test/src/components/TodoList.tsx:91-94 | trimming white-space padding around a core that starts and ends with non-space gives back exactly that core |
| Text.TrimIdempotent | playwright-component-test/src/components/TodoList.tsx:121-124 | trimming twice equals trimming once |
| Text.IndexOf | vitest-in-source-example/src/custom-matchers.ts:116 | `indexOf` gives -1 exactly when the character is absent, and otherwise its first position |
| Text.Includes | vitest-in-source-example/src/custom-matchers.ts:30 | `includes` holds exactly when the substring occurs at some position |
| Text.IncludesChar | vitest-in-source-example/src/custom-matchers.ts:30 | a one-character `includes` is membership |
| Text.NatToString | sample-neverthrow/index.ts:56 | the rendering of a natural number is a string of decimal digits whose value is the number, a single digit exactly below 10, with no leading zero |
| Text.IntToString | sample-neverthrow/index.ts:56 | an integer renders as its magnitude's digits, preceded by "-" exactly when it is negative; the digits read back give the magnitude |
| TodoModel.Filter | playwright-component-test/src/components/TodoList.tsx:61-63 | `filter` keeps only elements that pass and never grows the list |
| TodoModel.FilterMembers | playwright-component-test/src/components/TodoList.tsx:61-63 | an element is kept exactly when it passes, as often as in the input; failing elements vanish |
| TodoModel.FilterAppend | playwright-component-test/src/components/TodoList.tsx:112 | filtering distributes over concatenation, so the original order is kept |
| TodoModel.FilterSingleton | playwright-component-test/src/components/TodoList.tsx:112 | filtering a one-element list keeps it exactly when it passes |
| TodoModel.FilterKeepsAll | playwright-component-test/src/components/TodoList.tsx:112 | a filter that every element passes returns the list unchanged |
| TodoModel.ToggleById | playwright-component-test/src/components/TodoList.tsx:103-109 | same length; exactly the todos with the id get the flag flipped; ids, texts and times are unchanged |
| TodoModel.ToggleTwice | playwright-component-test/src/components/TodoList.tsx:103-109 | toggling the same id twice restores the list |
| TodoModel.DeleteById | playwright-component-test/src/components/TodoList.tsx:111-113 | `deleteTodo`'s filter: never longer than the list, and no remaining todo has the deleted id |
| TodoModel.DeleteSpec | playwright-component-test/src/components/TodoList.tsx:111-113 | delete removes exactly the todos with that id, keeps the others in order, and deleting an absent id changes nothing |
| TodoModel.EditText | playwright-component-test/src/components/TodoList.tsx:122-126 | same length; exactly the todos with the id get the new text; nothing else changes |
| TodoModel.ActiveTodos | playwright-component-test/src/components/TodoList.tsx:137-139 | what `clearCompleted` keeps: never longer than the list, and every kept todo is active |
| TodoModel.CompletedTodos | playwright-component-test/src/components/TodoList.tsx:84 | the todos counted as completed: never longer than the list, and every one is completed |
| TodoModel.Partition | playwright-component-test/src/components/TodoList.tsx:82-87 | the active and the completed todos partition the list, in count and as a multiset |
| TodoModel.AllCompleted | playwright-component-test/src/components/TodoList.tsx:142 | `every`: holds exactly when each member of the list is completed, so it holds for the empty list |
| TodoModel.StatsOf | playwright-component-test/src/components/TodoList.tsx:82-87 | total is the length, completed counts the completed todos, active counts the active ones and equals total minus completed |
| TodoModel.CompletedZero | playwright-component-test/src/components/TodoList.tsx:282 | the completed count is 0 exactly when no todo is completed |
| TodoModel.ActiveZero | playwright-component-test/src/components/TodoList.tsx:142 | the active count is 0 exactly when every todo is completed |
| TodoModel.ClearCompletedStats | playwright-component-test/src/components/TodoList.tsx:137-139 | after clear-completed no todo is completed and the total is the previous active count |
| TodoModel.SetAllCompleted | playwright-component-test/src/components/TodoList.tsx:143 | every todo gets the given flag and nothing else changes |
| TodoModel.ToggleAll | playwright-component-test/src/components/TodoList.tsx:141-144 | same length, and every todo's flag becomes the opposite of "all were completed" |
| TodoModel.ToggleAllSpec | playwright-component-test/src/components/TodoList.tsx:141-144 | if all were completed (also for an empty list) all become active, otherwise all become completed; ids and texts are kept |
| TodoModel.ToggleAllTwice | playwright-component-test/src/components/TodoList.tsx:141-144 | on a list that is not all completed, toggle-all twice leaves every todo active and nothing else changed |
| TodoModel.FooterVisible | playwright-component-test/src/components/TodoList.tsx:270 | the footer shows only for a non-empty list (its consequences are in FooterSpec) |
| TodoModel.ClearCompletedVisible | playwright-component-test/src/components/TodoList.tsx:282 | the clear button shows when the completed count is positive; FooterSpec proves this means some todo is completed |
| TodoModel.ToggleAllLabel | playwright-component-test/src/components/TodoList.tsx:277-279 | "Uncheck All" when every todo is completed, otherwise "Check All"; FooterSpec proves what each label's click does |
| TodoModel.FooterSpec | playwright-component-test/src/components/TodoList.tsx:270-290 | the clear button shows exactly when some todo is completed; under "Check All" toggle-all completes every todo, and under "Uncheck All" it makes every todo active |
| TodoModel.Insert | playwright-component-test/src/components/TodoList.tsx:66-77 | inserting into a sorted list keeps it sorted and adds exactly the one element |
| TodoModel.SortByKey | playwright-component-test/src/components/TodoList.tsx:66-77 | the sort on a copy returns a sorted permutation of its input |
| TodoModel.SortKey | playwright-component-test/src/components/TodoList.tsx:67-71 | the comparator `b - a` for newest and `a - b` for oldest as an ascending key; DisplayedOrder proves the resulting orders |
| TodoModel.Filtered | playwright-component-test/src/components/TodoList.tsx:58-64 | the filter step; DisplayedMembers proves what each filter keeps |
| TodoModel.FilteredAndSorted | playwright-component-test/src/components/TodoList.tsx:57-80 | the displayed list is sorted by the chosen order and is a permutation of the filtered list |
| TodoModel.DisplayedPermutation | playwright-component-test/src/components/TodoList.tsx:57-80 | the displayed list is a permutation of the filtered list, and of all todos under the "all" filter |
| TodoModel.DisplayedMembers | playwright-component-test/src/components/TodoList.tsx:60-64 | the "active" filter shows exactly the active todos and the "completed" filter exactly the completed ones |
| TodoModel.DisplayedOrder | playwright-component-test/src/components/TodoList.tsx:67-71 | "newest" orders by descending creation time and "oldest" by ascending creation time |
| TodoModel.SameMembers | playwright-component-test/src/components/TodoList.tsx:66 | a permutation has the same members as the original |
| TodoListComponent.TodoList.constructor | playwright-component-test/src/components/TodoList.tsx:20-48 | the state starts with the initial todos, an empty input, the "all" filter, the "newest" order and no edit in progress |
| TodoListComponent.TodoList.SetInputValue | playwright-component-test/src/components/TodoList.tsx:163 | the input field holds the typed value |
| TodoListComponent.TodoList.AddTodo | playwright-component-test/src/components/TodoList.tsx:89-101 | a non-blank input appends one active todo with the trimmed text and clears the input; a blank input changes nothing |
| TodoListComponent.TodoList.ToggleTodo | playwright-component-test/src/components/TodoList.tsx:103-109 | the list becomes the toggled list |
| TodoListComponent.TodoList.DeleteTodo | playwright-component-test/src/components/TodoList.tsx:111-113 | the list loses exactly the todos with that id |
| TodoListComponent.TodoList.StartEditing | playwright-component-test/src/components/TodoList.tsx:115-118 | editing opens on the todo's id with its text |
| TodoListComponent.TodoList.SetEditingText | playwright-component-test/src/components/TodoList.tsx:222 | the edit field holds the typed value |
| TodoListComponent.TodoList.SaveEdit | playwright-component-test/src/components/TodoList.tsx:120-130 | the text is replaced by the trimmed edit only when the edited id is neither null nor "" and the trimmed text is not empty; editing always ends |
| TodoListComponent.TodoList.CancelEdit | playwright-component-test/src/components/TodoList.tsx:132-135 | editing ends and the todos are untouched |
| TodoListComponent.TodoList.ClearCompleted | playwright-component-test/src/components/TodoList.tsx:137-139 | the list keeps exactly its active todos in order; afterwards completed is 0 and total is the old active count |
| TodoListComponent.TodoList.ToggleAllTodos | playwright-component-test/src/components/TodoList.tsx:141-144 | the list becomes the toggle-all result |
| TodoListComponent.TodoList.SetFilter | playwright-component-test/src/components/TodoList.tsx:174-194 | the filter buttons set the filter |
| TodoListComponent.TodoList.SetSortBy | playwright-component-test/src/components/TodoList.tsx:199-207 | the sort select sets the order |
| TodoListComponent.TodoList.Displayed | playwright-component-test/src/components/TodoList.tsx:212 | the rendered list is sorted by the current order and is a permutation of the todos that pass the current filter |
| TodoListComponent.AddScenario | playwright-component-test/tests/TodoList.spec.tsx:38-48 | adding "New todo item" to an empty list gives stats 1/0/1; submitting only spaces leaves 0/0/0 |
| ToggleMachine.Step | statemachine/index.ts:12-24 | an event without an entry changes nothing; INC in active adds exactly 1; TOGGLE moves inactive to active and END moves active to inactive |
| ToggleMachine.Lookup | statemachine/index.ts:12-24 | the `on` table: TOGGLE in inactive targets active, INC in active runs the +1 action, END in active targets inactive, nothing else (UnhandledEventsIgnored proves which pairs are absent) |
| ToggleMachine.UnhandledEventsIgnored | statemachine/index.ts:12-24 | the unhandled events are exactly INC and END in inactive and TOGGLE in active, and each leaves the snapshot unchanged |
| ToggleMachine.Run | statemachine/index.ts:37-47 | sending events one by one never decreases the count, and leaves it unchanged when no INC is sent |
| ToggleMachine.RunCount | statemachine/index.ts:20 | along any event sequence the count grows by exactly the number of INC events accepted in active, so it never decreases |
| ToggleMachine.RunAppend | statemachine/index.ts:38-46 | sending `a` then `b` equals sending `a + b` |
| ToggleMachine.RunIncs | statemachine/index.ts:41-44 | n INC events in active add n to the count |
| ToggleMachine.ScriptOutcome | statemachine/index.ts:35-47 | TOGGLE, ten INC and END from the initial snapshot end inactive with count 10 |
| ToggleMachine.Actor.constructor | statemachine/index.ts:3-11 | the actor starts in inactive with count 0 |
| ToggleMachine.Actor.Send | statemachine/index.ts:38 | `send` replaces the snapshot by the step's result |
| ToggleMachine.RunScript | statemachine/index.ts:35-47 | the thirteen printed snapshots are inactive 0, active 0, active 1 to active 10, inactive 10 |
| CounterComponent.Counter.constructor | playwright-component-test/src/components/Counter.tsx:8-9 | the count starts at `initialCount`, defaulting to 0 |
| CounterComponent.Counter.Rerender | playwright-component-test/src/components/Counter.tsx:8-9 | new props change the reset target but not the current count |
| CounterComponent.Counter.Increment | playwright-component-test/src/components/Counter.tsx:11-15 | count goes up by 1 and the new value is reported |
| CounterComponent.Counter.Decrement | playwright-component-test/src/components/Counter.tsx:17-21 | count goes down by 1 with no lower bound, and the new value is reported |
| CounterComponent.Counter.Reset | playwright-component-test/src/components/Counter.tsx:23-26 | count returns to `initialCount` (not 0) and that value is reported |
| CounterComponent.IncrementThenDecrement | playwright-component-test/src/components/Counter.tsx:11-21 | an increment then a decrement restore the count and report count+1 then count |
| CounterComponent.ResetScenario | playwright-component-test/tests/Counter.spec.tsx:49-68 | mounted with 5, two increments show 7 and reset shows 5 |
| CounterComponent.NegativeScenario | playwright-component-test/tests/Counter.spec.tsx:90-103 | mounted with 0, two decrements show -1 then -2 |
| CustomMatchers.ValidateEmail | vitest-in-source-example/src/custom-matchers.ts:25-41 | empty gives REQUIRED; no '@' gives INVALID_FORMAT before the length check; '@' with fewer than 5 characters gives TOO_SHORT; it succeeds exactly with '@' and at least 5 characters; every error names the field "email" |
| CustomMatchers.ValidateEmailExamples | vitest-in-source-example/src/custom-matchers.ts:26-40 | "" is REQUIRED, "abc" and "invalid" are INVALID_FORMAT, "a@b" is TOO_SHORT, "a@b.c" passes |
| CustomMatchers.IsValidEmail | vitest-in-source-example/src/custom-matchers.ts:110-118 | valid exactly when there are at least 5 characters and the first '@' is neither the first nor the last character |
| CustomMatchers.IsValidEmailExamples | vitest-in-source-example/src/custom-matchers.ts:141-148 | "test@example.com" and "valid.email@domain.org" are valid; "@invalid.com" and "test" are not |
| CustomMatchers.IsValidEmailRejectsNoAt | vitest-in-source-example/src/custom-matchers.ts:116-117 | "invalid-email" has no '@' and is not valid |
| CustomMatchers.IsPositiveNumber | vitest-in-source-example/src/custom-matchers.ts:120-122 | strictly greater than 0 (NumberChecks states the boundary cases) |
| CustomMatchers.IsWithinRange | vitest-in-source-example/src/custom-matchers.ts:124-126 | both bounds included, and nothing lies in a range whose minimum exceeds its maximum |
| CustomMatchers.NumberChecks | vitest-in-source-example/src/custom-matchers.ts:120-126 | 0 is not positive; both range bounds are included; an empty range holds nothing |
| CustomMatchers.MissingFields | vitest-in-source-example/src/custom-matchers.ts:132 | a field is reported missing exactly when it is requested and absent |
| CustomMatchers.MissingFieldsAppend | vitest-in-source-example/src/custom-matchers.ts:132 | the missing fields keep the requested order |
| CustomMatchers.HasRequiredFields | vitest-in-source-example/src/custom-matchers.ts:128-134 | `missing` lists the absent fields in order, and `valid` holds exactly when every field is present |
| CustomMatchers.HasRequiredFieldsExample | vitest-in-source-example/src/custom-matchers.ts:168-181 | a complete object is valid; one without "email" reports exactly ["email"] |
| CustomMatchers.CalculatorDivide | vitest-in-source-example/src/custom-matchers.ts:58-63 | fails with "Division by zero" exactly when the divisor is 0; otherwise the quotient times the divisor is the dividend |
| CustomMatchers.FetchOutcome | vitest-in-source-example/src/custom-matchers.ts:73-89 | resolves with "success" and the URL exactly when the URL contains none of "error", "notfound", "unauthorized"; every rejection names the URL and one of 500, 404, 401 |
| CustomMatchers.FetchOutcomeSpec | vitest-in-source-example/src/custom-matchers.ts:78-85 | the first word found decides: "error" gives 500 "Server error", otherwise "notfound" gives 404 "Not found", otherwise "unauthorized" gives 401 "Unauthorized" |
| CustomMatchers.FetchErrorExample | vitest-in-source-example/src/custom-matchers.ts:263-276 | "/error" is rejected with 500 "Server error" and the endpoint "/error" |
| CustomMatchers.FetchNotFoundExample | vitest-in-source-example/src/custom-matchers.ts:279-284 | "/notfound" is rejected with 404 "Not found" |
| CustomMatchers.FetchUnauthorizedExample | vitest-in-source-example/src/custom-matchers.ts:286-291 | "/unauthorized" is rejected with 401 "Unauthorized" |
| CustomMatchers.FetchSuccessExample | vitest-in-source-example/src/custom-matchers.ts:293-297 | "/success" resolves with data "success" and that URL |
| ParameterizedTests.FailingChecks | vitest-in-source-example/src/parameterized-tests.ts:9-29 | the failing checks, never more than the checks run |
| ParameterizedTests.FailingChecksMembers | vitest-in-source-example/src/parameterized-tests.ts:9-29 | a check is listed exactly when it fails |
| ParameterizedTests.FailingChecksOrdered | vitest-in-source-example/src/parameterized-tests.ts:9-29 | the failing checks keep the order in which they run |
| ParameterizedTests.ValidatePassword | vitest-in-source-example/src/parameterized-tests.ts:3-35 | the pushed errors are the messages of the failing checks in the declared order, and `valid` holds exactly when there is none |
| ParameterizedTests.ExpectedErrorsSpec | vitest-in-source-example/src/parameterized-tests.ts:9-34 | at most five errors, each message at most once, a message appears exactly when its check fails, and no errors exactly when all five checks pass |
| ParameterizedTests.ShortLowercaseErrors | vitest-in-source-example/src/parameterized-tests.ts:155-162 | fewer than eight lower-case letters give the length, upper-case, number and special errors in that order |
| ParameterizedTests.ShortPasswordErrors | vitest-in-source-example/src/parameterized-tests.ts:155-162 | "short" gives exactly those four errors |
| ParameterizedTests.SingleFailure | vitest-in-source-example/src/parameterized-tests.ts:164-185 | a password failing exactly one check gets exactly that check's message |
| ParameterizedTests.AllChecksPass | vitest-in-source-example/src/parameterized-tests.ts:146-151 | eight or more characters with an upper-case letter, a lower-case letter, a digit and a special character give no errors |
| ParameterizedTests.StrongPasswordValid | vitest-in-source-example/src/parameterized-tests.ts:147 | "StrongPass123!" is valid |
| ParameterizedTests.RatePercent | vitest-in-source-example/src/parameterized-tests.ts:38-46 | every rate lies between 20 and 45 percent, and any region outside the table pays 25 percent |
| ParameterizedTests.RateTable | vitest-in-source-example/src/parameterized-tests.ts:37-46 | US 25, UK 20, JP 23, DE 42 and FR 45 percent; any other region pays the US rate; the test table's taxes follow from the rates |
| ParameterizedTests.ProcessedItems | vitest-in-source-example/src/parameterized-tests.ts:79-90 | the identified items, marked, in input order; ProcessedItemsSpec proves its members and bound |
| ParameterizedTests.ProcessedItemsSpec | vitest-in-source-example/src/parameterized-tests.ts:79-90 | the processed list holds exactly the marked objects with an `id`, each keeping its fields and carrying `processed: true` |
| ParameterizedTests.ProcessItems | vitest-in-source-example/src/parameterized-tests.ts:71-100 | the loop's output is the processed list in input order, and total = input length = valid + invalid with valid = processed count |
| ParameterizedTests.SnapshotExample | vitest-in-source-example/src/parameterized-tests.ts:256-274 | the snapshot data gives total 5, valid 3, invalid 2 |
| ParameterizedTests.ClassifyInput | vitest-in-source-example/src/parameterized-tests.ts:361-367 | each class holds exactly under its rule, given that the earlier rules failed: empty, blank, digits only, digit and letter, otherwise text |
| ParameterizedTests.ClassifyBlankExamples | vitest-in-source-example/src/parameterized-tests.ts:351-352 | "" is empty and " " is whitespace |
| ParameterizedTests.ClassifyTextExample | vitest-in-source-example/src/parameterized-tests.ts:353 | "hello" is text |
| ParameterizedTests.ClassifyNumberExample | vitest-in-source-example/src/parameterized-tests.ts:354 | "123" is a number |
| ParameterizedTests.ClassifyMixedExample | vitest-in-source-example/src/parameterized-tests.ts:355 | "hello123" is mixed |
| MockExamples.AddListener | vitest-in-source-example/src/mock-examples.ts:74-79 | `on` adds the event to the table's keys |
| MockExamples.AddListenerSpec | vitest-in-source-example/src/mock-examples.ts:74-79 | `on` appends the listener to its event's list, creating it if absent and keeping duplicates, and leaves other events' lists unchanged |
| MockExamples.Listeners | vitest-in-source-example/src/mock-examples.ts:82-83 | the event's registered listeners, or none for an unknown event |
| MockExamples.Invocations | vitest-in-source-example/src/mock-examples.ts:84-86 | one call per listener, in registration order, each with the same arguments |
| MockExamples.EventEmitter.constructor | vitest-in-source-example/src/mock-examples.ts:72 | the emitter starts with no listeners |
| MockExamples.EventEmitter.On | vitest-in-source-example/src/mock-examples.ts:74-79 | the table becomes the table with the listener appended |
| MockExamples.EventEmitter.Emit | vitest-in-source-example/src/mock-examples.ts:81-88 | the loop calls the event's listeners in order with the same arguments, and calls nothing for an event without listeners |
| MockExamples.EmitterScenarios | vitest-in-source-example/src/mock-examples.ts:241-261 | two listeners on "test" both receive ("arg1", "arg2") in order; emitting "event2" calls the "event1" listener not at all |
| MockExamples.CreateUser | vitest-in-source-example/src/mock-examples.ts:20-50 | an invalid e-mail fails with no database call; an existing id fails without saving; otherwise the user is saved, the welcome mail is sent, and only the message depends on the mail result |
| MockExamples.CreateUserSaves | vitest-in-source-example/src/mock-examples.ts:31-49 | a save happens exactly when creation succeeds, and the mail result changes neither the outcome nor the database |
| MockExamples.RemoveUser | vitest-in-source-example/src/mock-examples.ts:52-59 | an absent id gives false without a delete call; a present id gives the delete's result |
| MockExamples.UserServiceScenarios | vitest-in-source-example/src/mock-examples.ts:116-196 | the six service tests: their results and the calls made |
| MockExamples.ProcessWithCallback | vitest-in-source-example/src/mock-examples.ts:63-65 | same length, and output i is the callback applied to item i |
| MockExamples.ProcessWithCallbackAppend | vitest-in-source-example/src/mock-examples.ts:63-65 | mapping distributes over concatenation |
| Neverthrow.EmailMatchesPattern | sample-neverthrow/index.ts:22 | the matcher accepts exactly the strings that split as local part, '@', host, '.', suffix, each non-empty and free of white space and '@' |
| Neverthrow.EmailMatches | sample-neverthrow/index.ts:22-23 | the regex test, decided through the first '@'; EmailMatchesPattern and EmailMatchesShape prove it equals the pattern |
| Neverthrow.EmailMatchesShape | sample-neverthrow/index.ts:22 | accepted means: no white space, exactly one '@' and not at the start, and a '.' strictly inside the part after it |
| Neverthrow.ValidateEmail | sample-neverthrow/index.ts:21-31 | Ok with the e-mail exactly when it matches; otherwise INVALID_EMAIL with the e-mail and "Invalid email format: " followed by it |
| Neverthrow.PrintableAddress | sample-neverthrow/index.ts:22-24 | any printable `local@host.suffix` without another '@' is accepted |
| Neverthrow.NoAtRejected | sample-neverthrow/index.ts:136-140 | an address without '@' is rejected with its message |
| Neverthrow.ValidateEmailAlice | sample-neverthrow/index.ts:35 | "alice@example.com" is accepted |
| Neverthrow.ValidateEmailAliceNew | sample-neverthrow/index.ts:129 | "alice.new@example.com" is accepted |
| Neverthrow.ValidateEmailTest | sample-neverthrow/index.ts:191 | "test@example.com" is accepted |
| Neverthrow.Divide | sample-neverthrow/index.ts:78-83 | "Division by zero" exactly when the divisor is 0; otherwise the quotient times the divisor is the dividend |
| Neverthrow.DivideExamples | sample-neverthrow/index.ts:105-188 | 10/2 is 5, 10/0 fails, and 20/4, 15/3, 10/2 all give 5 |
| Neverthrow.Find | sample-neverthrow/index.ts:41 | `find` fails exactly when no user has the id, and otherwise returns a listed user with that id |
| Neverthrow.FetchUserFromDB | sample-neverthrow/index.ts:33-42 | a user exactly for ids 1 and 2, and then the listed user with that id |
| Neverthrow.GetUser | sample-neverthrow/index.ts:44-58 | Ok exactly for ids 1 and 2, with the listed user; otherwise USER_NOT_FOUND with the id and "User with id N not found" |
| Neverthrow.GetUserExamples | sample-neverthrow/index.ts:116-126 | ids 1 and 2 give Alice and Bob; id 3 gives "User with id 3 not found" |
| Neverthrow.UpdateUserEmail | sample-neverthrow/index.ts:60-76 | an invalid e-mail fails first with INVALID_EMAIL; with a valid one, success exactly when the user exists, and then only the e-mail is replaced; a failure is USER_NOT_FOUND |
| Neverthrow.UpdateUserEmailSpec | sample-neverthrow/index.ts:64-75 | an invalid e-mail gives the same error for every id (it takes precedence over a missing user); a successful update keeps id and name; an address without '@' is rejected |
| Neverthrow.UnknownUserNotFound | sample-neverthrow/index.ts:70-75 | a valid e-mail for an id outside the table gives USER_NOT_FOUND for that id |
| Neverthrow.UpdateAliceExample | sample-neverthrow/index.ts:129-134 | user 1 updated to "alice.new@example.com" is Alice with the new e-mail |
| Neverthrow.UpdateMissingExample | sample-neverthrow/index.ts:191-202 | updating the missing user 999 gives USER_NOT_FOUND for 999 |
| Neverthrow.ChainExample | sample-neverthrow/index.ts:171-180 | user 1's stored e-mail passes validation |
| MathOps.Add | vitest-in-source-example/src/math.ts:1-3 | subtracting either operand from the sum gives back the other |
| MathOps.Subtract | vitest-in-source-example/src/math.ts:5-7 | adding the subtrahend back gives the minuend, and the difference is 0 exactly for equal operands |
| MathOps.Multiply | vitest-in-source-example/src/math.ts:9-11 | the product is 0 exactly when a factor is 0 and positive exactly when both factors have the same sign |
| MathOps.Divide | vitest-in-source-example/src/math.ts:13-18 | "Cannot divide by zero" exactly when the divisor is 0; otherwise the quotient times the divisor is the dividend |
| MathOps.DivideExample | vitest-in-source-example/src/math.ts:76-84 | 10/2 is 5 and 10/0 fails |
| MathOps.JsRemainder | vitest-in-source-example/src/math.ts:21 | JavaScript's `%` with a positive divisor: the remainder has the sign of the dividend and is smaller than the divisor |
| MathOps.IsEven | vitest-in-source-example/src/math.ts:20-22 | despite JavaScript's truncating `%`, `isEven` is evenness, negatives included |
| MathOps.IsEvenMeansEven | vitest-in-source-example/src/math.ts:20-22 | `isEven` alternates between neighbours and is the same for n and -n |
| MathOps.IsEvenExamples | vitest-in-source-example/src/math.ts:86-96 | 0, 2 and -4 are even; 1, 3 and -3 are not |
| MathOps.Factorial | vitest-in-source-example/src/math.ts:24-32 | fails exactly for negative input, with its message; otherwise the result is at least 1 and at least n |
| MathOps.FactorialStep | vitest-in-source-example/src/math.ts:31 | for n ≥ 2, factorial(n) = n · factorial(n−1) |
| MathOps.FactorialDivisible | vitest-in-source-example/src/math.ts:28-31 | every k in 1..n divides factorial(n) |
| MathOps.FactorialExamples | vitest-in-source-example/src/math.ts:98-107 | factorial(0) = factorial(1) = 1, factorial(5) = 120, and factorial(-1) fails |
| Greeter.Greet | vitest-in-source-example/src/greeter.ts:1-3 | the greeting is "Hello, ", the name, then "!", so it is 8 characters longer than the name |
| Greeter.GreetInjective | vitest-in-source-example/src/greeter.ts:1-3 | different names give different greetings |
| Greeter.GreetExamples | vitest-in-source-example/src/greeter.ts:9-15 | "Miko" gives "Hello, Miko!" and "" gives "Hello, !" |
| WorkBoth.GreetUser | tsx-node-comparison/work-both.ts:13-15 | the greeting is "Hello, ", the name, "! Your email is ", then the e-mail |
| WorkBoth.CalculateTotal | tsx-node-comparison/work-both.ts:17-19 | the `reduce` from 0 as a left fold; TotalIsSum proves it equals the sum of the prices |
| WorkBoth.TotalAppend | tsx-node-comparison/work-both.ts:17-19 | the total of a concatenation is the sum of the totals |
| WorkBoth.TotalIsSum | tsx-node-comparison/work-both.ts:17-19 | the left fold from 0 equals the sum of the prices |
| WorkBoth.SampleRun | tsx-node-comparison/work-both.ts:21-37 | the empty total is 0, the sample products total 4500, and the sample greeting is spelled out |

## Left out

- Local storage in `TodoList` (loading, saving, JSON parsing) and the `onTodoChange` effect are I/O. They are not modelled.
- `TodoListComponent.TodoList.AddTodo`: `Date.now()` and `new Date()` are clock reads. The new id and time are parameters, so nothing guarantees that ids are unique.
- The "alphabetical" sort uses `localeCompare`, which is library collation. It is not modelled: `SortType` has only newest and oldest.
- `TodoModel.SortByKey`: sorted and a permutation are proved, but stability (the order of equal creation times, which `Array.prototype.sort` keeps) is not.
- The rendering of all components (JSX, class names, test ids) is not modelled. The footer's visibility conditions are.
- xstate internals are not modelled: `createActor`, `start`, snapshot objects and `console.log`. `RunScript` returns the printed snapshots instead.
- `calculateTax`'s floating-point multiply and `Math.round`: only the rate table is modelled, in percent.
- `ParameterizedTests.RatePercent`: keys inherited from `Object.prototype` (for example "constructor") yield a non-number in the source. The model treats them as unknown regions.
- `formatCurrency` uses `Intl` and is not modelled.
- `Calculator.sqrt` needs a real square root, and `parseNumber` depends on `Number()` coercion. Neither is modelled.
- `createUser` and `generateUserProfile` read `Math.random` and the clock. They are not modelled, and neither is the `processItems` timestamp.
- `fetchData`'s timer and timestamp are not modelled, nor are `logMessage` and the console. Only the status choice is modelled (`FetchOutcome`).
- `async-utils.ts` is not part of this model.
- The neverthrow library calls are not modelled: `fromThrowable(JSON.parse)`, `fromPromise`/`fetch`, `Result.combine`, and the console output of `processUserData`. The user lookup's 100 ms delay is not modelled either.
- MockExamples.RemoveUser: the database interface promises nothing about what the store holds after `deleteUser`. The model assumes that a delete reported as successful removes the id, so "the id is gone after a successful removal" holds under that assumption only. MockExamples.CreateUser likewise assumes that `saveUser` adds the id.
- `MockExamples.CreateUser`, `MockExamples.RemoveUser`: the database and the mailer are parameters:
  - the database is a map from id to name;
  - the validator is a function;
  - send and delete are reported as booleans.

  Promises and mock-call bookkeeping are not modelled, apart from the recorded call list.
- `MockExamples.EventEmitter.Emit`: listeners are identifiers, not functions. So a listener that calls `on` while `emit` is running, or that throws, is not modelled.
- `MockExamples.ProcessWithCallback`: `map` also passes the index and the array to the callback. The model's callback takes only the item.
- `MathOps.JsRemainder` is stated only for positive divisors, because `isEven` only uses 2.
- `MathOps.Factorial` is computed over unbounded integers. JavaScript doubles lose exactness above 2^53 (from n = 19), and that loss is not modelled.
- Numbers are integers or `real`. NaN, Infinity and `-0` are not modelled.
- `typeof` checks in `isValidEmail`, `isPositiveNumber` and `isWithinRange` are not modelled, because the parameters are typed.
- `CustomMatchers.HasRequiredFields` takes as input every key the `in` operator finds on the object, inherited ones included.
- Strings are sequences of Unicode scalar values, while JavaScript lengths count UTF-16 code units. Lengths differ for characters outside the Basic Multilingual Plane.
- The other samples are not modelled: UI-only components, Remix and HTTP plumbing, library wrappers, the RegExp `lastIndex` demo, and the constant-string script.
