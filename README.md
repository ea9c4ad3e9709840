# zelect item supply and selection, in Dafny

A model of the core of zelect.js, a jQuery dropdown that replaces a `<select>`. The widget
takes its items from one of two interchangeable sources behind one `{load, check}` interface,
debounces the filter that runs as the user types, and makes an initial selection once the
first load completes.

- `Items`: the items the host supplies (`Absent` for undefined/null, `Text` for a string,
  `Obj` for an object with `label` and `value`), `defaultRenderItem`, `itemFromOption`, and
  the two completion callbacks the widget hands to its sources.
- `Listing`: the displayed `<ol>` as a class `ItemList` holding rows (an item row per
  appended item, and the no-results row), with `ItemsOf` reading back the items shown.
- `StaticSource`: `selectBased`. The options become items once. `Filter` empties the list and
  appends, in a loop, every option whose label passes the matcher, and `NewTerm` filters and
  then hands back the callback.
- `PagedSource`: `infiniteScroll` as a class with the `state` record's fields, plus the set of
  loader calls that are still unanswered. Ghost logs record the pages shown and the
  generations whose callback fired. The loader's answers may arrive in any order. Answers
  from a superseded generation are dropped. The callback fires only when no further page is
  requested, and at most once per generation.
- `Throttle`: `throttled` as a state machine over `Call` and `Fire` events, plus a class whose
  methods follow it.
- `Widget`: `selectItem`, the precedence of `initialSelection`, `checkForNoResults`, and
  running the callbacks the sources hand back.
- `Scenarios`: whole runs from start-up, each with what it is guaranteed to leave behind.

The callbacks are not function values. A source returns the callback that is due
(`fire: Option<Done>`), and `Widget.Zelect.RunCallback` performs it. Whether the last row is
visible is a boolean parameter. The host's `regexpMatcher` is an opaque curried predicate.

## Model

| member | source | states |
|---|---|---|
| Items.RenderItem | zelect.js:185-197 | a missing or empty item renders as ""; a string renders as itself; an object with a label renders as its label, and one without a label as its string conversion |
| Items.ItemFromOption | zelect.js:119-121 | an option becomes an object whose label is the option's text and whose value is the option's value; an option with non-empty text renders as that text |
| Listing.ItemsOfRows | zelect.js:82-85 | reading back the items of the rows appended for a sequence of items gives that sequence |
| Listing.ItemsOfAppend | zelect.js:82-85 | the items shown by rows followed by more rows are the items of the first part followed by those of the second |
| Listing.DataAt | zelect.js:98 | the data of row i is that row's item when it is an item row, and absent for the no-results row or past the end; it is always absent or a shown item |
| Listing.ItemList.Empty | zelect.js:114 | `$list.empty()` leaves no rows |
| Listing.ItemList.Append | zelect.js:82-85 | `appendItem` adds one item row after the existing rows |
| Listing.ItemList.AppendAll | zelect.js:144 | appending a batch adds one row per item, in order, after the existing rows, and the items shown grow by exactly the batch |
| Listing.ItemList.AppendNoResults | zelect.js:89 | the no-results row goes after the existing rows and adds no item |
| StaticSource.Passes | zelect.js:113-116 | the empty term passes every label; any other term passes a label exactly when the matcher built from the term accepts it |
| StaticSource.Matching | zelect.js:112-118 | the options kept by the filter, in option order, never more than there are options |
| StaticSource.MatchingAppend | zelect.js:115-117 | filtering is option by option: the matches of a concatenation are the matches of its parts, in order |
| StaticSource.MatchingMember | zelect.js:113-116 | an item is kept if and only if it is an option whose label passes the filter for the term |
| StaticSource.MatchingEmptyTerm | zelect.js:113 | the empty term keeps every option |
| StaticSource.MatchingIdempotent | zelect.js:112-118 | filtering the result of a filter for the same term changes nothing |
| StaticSource.SelectBased.constructor | zelect.js:110 | the source's items are the options' items, one per option, in option order |
| StaticSource.SelectBased.Filter | zelect.js:112-118 | the list holds exactly the rows of the passing options, in option order, whatever it held before |
| StaticSource.SelectBased.NewTerm | zelect.js:122-125 | the list is the filter's result for the term, and the given callback is the one that is due |
| PagedSource.FlattenSnoc | zelect.js:142-144 | a later page extends the shown items at their end |
| PagedSource.IncreasingDistinct | zelect.js:146-148 | in the log of generations whose callback fired, a later entry is strictly larger, so no generation fires twice |
| PagedSource.InfiniteScroll.FiredOnce | zelect.js:146-148 | in every valid state the log of fired callbacks is strictly increasing, so no generation's callback has fired twice |
| PagedSource.InfiniteScroll.constructor | zelect.js:130 | the state starts at id 0, term "", page 0, neither loading nor exhausted, without a callback or an outstanding call |
| PagedSource.InfiniteScroll.Load | zelect.js:134-139 | a no-op while loading or exhausted; otherwise sets loading and issues exactly one loader call for the current generation, term and page |
| PagedSource.InfiniteScroll.MaybeLoadMore | zelect.js:154-160 | when exhausted, returns false and changes nothing; otherwise returns the visibility and requests a page exactly when it is visible and nothing is in flight |
| PagedSource.InfiniteScroll.NewTerm | zelect.js:162-165 | the generation grows by one, the page is 0, the term and callback are stored, and the one new call for page 0 is issued; the shown pages stay until that page arrives |
| PagedSource.InfiniteScroll.ApplyBatch | zelect.js:141-144 | the list is emptied if and only if page was 0, page grows by one, the source is exhausted exactly when the batch is empty, and the items are appended in order |
| PagedSource.InfiniteScroll.Apply | zelect.js:139-145 | a current answer is for the current term and page; it is no longer outstanding, its batch is applied and loading is cleared |
| PagedSource.InfiniteScroll.TakeCallback | zelect.js:147-148 | hands back the stored callback and clears it, logging the generation when there was one |
| PagedSource.InfiniteScroll.Settle | zelect.js:146-150 | after a current answer, either another page is requested and no callback is due, or nothing is requested and the stored callback is handed back once |
| PagedSource.InfiniteScroll.Respond | zelect.js:139-151 | a stale answer changes neither the state nor the list; a current one updates page, exhausted and list as above and then settles, keeping every invariant of the source |
| Throttle.Step | zelect.js:177-181 | a call runs the callback exactly when the delay is not positive and otherwise leaves a firing scheduled; a firing runs it exactly when one was scheduled and leaves none |
| Throttle.Run | zelect.js:176-183 | over a sequence of events the run count never drops and grows by at most one per event |
| Throttle.Throttled.constructor | zelect.js:178 | a new throttle has no firing scheduled and has run nothing |
| Throttle.BurstSchedules | zelect.js:179-182 | with a positive delay, a burst of calls runs nothing and leaves exactly one firing scheduled |
| Throttle.BurstRunsOnce | zelect.js:179-182 | with a positive delay, a burst of calls followed by the firing runs the callback exactly once |
| Throttle.Passthrough | zelect.js:177 | with no delay, each call runs the callback at once |
| Throttle.RunsBoundedByCalls | zelect.js:176-183 | runs plus the scheduled firing never exceed the calls made |
| Throttle.Throttled.Call | zelect.js:177-181 | one call makes the step of the state machine, and runs the callback at once exactly when the delay is not positive |
| Throttle.Throttled.Fire | zelect.js:181 | the firing makes its step, running the callback exactly when a firing was scheduled |
| Widget.InitialChoice | zelect.js:93-104 | an initial item wins; otherwise, without a loader and with a preselected option, the row at that option's position; otherwise nothing is committed exactly when a placeholder exists; otherwise the first row; any choice but the initial item is absent or a shown item |
| Widget.PreselectedChosen | zelect.js:97-98 | after a load without a loader that showed some items, the preselected option's position picks the item shown there |
| Widget.FirstRowChosen | zelect.js:101-102 | without an initial item, an applicable preselected option or a placeholder, the first item shown is picked |
| Widget.ValueAfter | zelect.js:64 | the value last written to the select becomes the item's value when it has a non-empty one, and otherwise stays what was written before |
| Widget.Zelect.SelectItem | zelect.js:61-66 | the item is rendered and recorded, the dropdown closes, the value follows the item, and exactly one change event carrying the item is emitted |
| Widget.Zelect.InitialSelection | zelect.js:93-104 | commits the item the precedence picks, or shows the placeholder with no event and no other change |
| Widget.Zelect.CheckForNoResults | zelect.js:87-91 | an empty list gets the no-results row for the term; a non-empty list is left alone |
| Widget.Zelect.RunCallback | zelect.js:41 | after a filter, the no-results check; after the first load (lines 56-59), the initial selection followed by one ready event |
| Scenarios.SupersededSearch | zelect.js:139-140 | with the older search answered last, only the newer term's items are shown and only its callback is due |
| Scenarios.PagesUntilExhausted | zelect.js:139-160 | pages are fetched until an empty one; the list holds every item, the callback is handed back once, and a later check requests nothing |
| Scenarios.StartWithPreselectedOption | zelect.js:56-59 | without a loader, start-up commits the preselected option's item and emits one change event and then ready |
| Scenarios.FilterTwice | zelect.js:122-125 | filtering twice for the same term leaves the same list, the passing options in order |

## Left out

- DOM construction, CSS classes (including `loading` and `placeholder`), dropdown toggling
  and focus, and the jQuery plumbing of `zelectItem` are not modelled. Only the open flag
  and the shown content are kept.
- Event wiring (keyup, esc, clicks, scrolling) is not modelled. The operations these handlers
  call are modelled, and `$.trim` of the search term is the caller's business.
- Real timers are not modelled. A timer firing is an explicit `Fire` event.
- Viewport geometry is a boolean `visible` parameter. On an empty list the source would
  throw a TypeError when it computes `offset().top`; the model has no such error.
- The RegExp engine and `defaultRegexpMatcher` are not modelled. The matcher is an opaque
  predicate from the term to a test on labels, and it is total. In the source, the default
  matcher throws for a term that is not a valid pattern, such as one with an unbalanced "("
  or "[". It throws before the list is emptied, so the list stays as it was and the
  completion callback never runs. The model has no such failure.
- The HTML of `defaultNoResults` is not modelled. The no-results row carries only its term.
- Only the default `renderItem` is modelled. Its last branch, an object without `toString`
  rendered as itself, is not modelled, since every object here has a string conversion.
- An absent batch (`items` undefined or null) is modelled as the empty batch.
- Completion callbacks are not invoked by the sources. A source hands back the callback that
  is due, and the widget runs it.
- Widget.Zelect.InitialSelection: the preselected option's position is given. `$s.index()`
  is taken to be that option's position among all options, which the source only guarantees
  when the `<select>` has no option groups.
- PagedSource.InfiniteScroll.Respond: the loader is assumed to answer each call at most once.
  A repeated answer is outside the model, since it must be for an outstanding call.
- Widget.Zelect.SelectItem: `value` is the value last written to the `<select>`, not the
  value the `<select>` reports. A `<select>` only takes a value one of its options carries.
  After writing any other value (a loader item's, say), the source's `$select.val()` reads
  null, which the model does not capture.
- Widget.Zelect.SelectItem: committing an undefined item records `Absent`. In the source,
  `$select.data('zelected', undefined)` stores nothing under jQuery 1.x and 2.x, so the earlier
  selection stays recorded. `Absent` stands for both undefined and null, and jQuery does store
  null, so the model cannot tell the two cases apart. `Committed`, which InitialSelection and
  RunCallback reuse, records `Absent` in both cases. The source reaches this case when rule 4
  meets an empty list, when the preselected position is past the end, or when a row shows an
  undefined loader item.
- Missing `value` and `label` properties, and an empty placeholder, are all "": JavaScript
  treats them as false alike.
