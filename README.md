# boost-ext-sml lite, modelled in Dafny

This project models the core of the single-header state-machine library
`include/boost/sml.lite.hpp`:

- **State identity (`mp::fixed_string`)**: a state name is a fixed-size
  character array. It carries a 32-bit hash, built as `(hash ^= c) <<= 1`
  over its characters starting from 0, and that hash is the state's
  identifier at run time. `operator*` prepends the `'*'` marker, which makes
  a source the initial state of a region. It recomputes the hash over the
  old characters only, so the marked and the plain name are the same state.
- **Guards and actions (`front`)**: `invoke`, `detail::always` and
  `detail::none`, and the combinators. The comma operator runs both actions.
  `and`/`or` short-circuit, and `not` negates. Guards and actions are
  syntax trees here. Evaluating one yields, besides its truth value, the
  trace of user guards asked and user actions run. That trace makes
  evaluation order and "runs exactly once" statable.
- **`transition::operator()`**: invokes the guard. Only when it holds, it
  runs the action once and, unless the destination name is empty, moves to
  the destination's identifier.
- **`back::sm`**:
  - it counts regions as the rows whose source starts with `'*'`;
  - the constructor seeds `current_state_` with the nonzero identifiers of
    the marked sources, in table order, and leaves the other slots 0;
  - `dispatch` scans, for one region, the transitions of the event's type
    in declaration order. A row whose source differs from the current state
    is skipped, and a row whose guard fails is passed over. The first row
    that fires ends the scan;
  - `process_event` dispatches every region, in index order.

Modules follow the library's namespaces:
- `Mp` (`mp.dfy`) holds the hash and `fixed_string`.
- `Front` (`front.dfy`) holds events, guards, actions, combinators and
  `Fire`.
- `Back` (`back.dfy`) holds table compilation, the pure dispatch `Scan` /
  `Process`, and the `Machine` class. The class has the `current_state_`
  array, a constructor, and the `Dispatch` / `ProcessEvent` methods that
  update the array in place.
- `Scenarios` (`scenarios.dfy`) holds small concrete tables worked through
  the model.

`num_of_regions` counts marked rows, not distinct marked states
(`include/boost/sml.lite.hpp:129-130`). A source marked on two rows
therefore yields two regions, and both start in that state
(`Scenarios.RepeatedMarkStart`, `Scenarios.RepeatedMarkRun`).

## Model

| member | source | states |
|---|---|---|
| Mp.Widen | include/boost/sml.lite.hpp:53 | Definition: the value a `char` contributes to `hash ^= c`. With a signed `char`, a byte below 0x80 is itself, and a byte of 0x80 or more is sign-extended to 32 bits |
| Mp.Step | include/boost/sml.lite.hpp:53 | Definition: one hash step, `(h ^ c) << 1` on 32 bits with the shifted-out bit lost |
| Mp.Fold | include/boost/sml.lite.hpp:51-54 | Definition: the hash loop's accumulated value, Step applied to each character left to right |
| Mp.Hash | include/boost/sml.lite.hpp:50-55 | Definition: a name's identifier is Fold from 0 (the value-initialised `hash{}` of line 68) over its characters |
| Mp.MakeFixedString | include/boost/sml.lite.hpp:50-55 | The converting constructor keeps the characters and its loop computes the hash of the whole name: the 32-bit fold of `(h ^ c) << 1` from 0 (result equals `Literal(str)`) |
| Mp.Star | include/boost/sml.lite.hpp:57-65 | `operator*` yields a marked string one character longer whose tail is the old characters; its hash is recomputed from 0 over them and so equals the original hash of a name built from a literal |
| Mp.FoldConcat | include/boost/sml.lite.hpp:51-54 | Hashing a concatenation continues the fold of the prefix over the suffix |
| Mp.FoldSnoc | include/boost/sml.lite.hpp:51-54 | One more character is one more `(h ^ c) << 1` step on the hash so far |
| Mp.HashIsEven | include/boost/sml.lite.hpp:53 | Every identifier has its lowest bit clear, because each step ends in a left shift |
| Mp.StarredKeepsIdentity | include/boost/sml.lite.hpp:57-65 | `*"x"` and `"x"` have the same identifier; `*"x"` is marked and one longer, while the empty name is not marked |
| Mp.ZeroHashName | include/boost/sml.lite.hpp:50-55 | The name `"!B"` hashes to 0, the same identifier as the empty name |
| Front.EvalGuard | include/boost/sml.lite.hpp:269-283 | Invoking a guard answers its truth value under the `and`/`or`/`not` combinators and never runs an action |
| Front.AndShortCircuits | include/boost/sml.lite.hpp:269-274 | `and` with a false left side does not invoke its right side and answers false |
| Front.OrShortCircuits | include/boost/sml.lite.hpp:275-280 | `or` with a true left side does not invoke its right side and answers true |
| Front.BothSidesEvaluated | include/boost/sml.lite.hpp:269-280 | Otherwise `and`/`or` invoke the left side and then the right side, and answer with the right side |
| Front.NotNegates | include/boost/sml.lite.hpp:281-283 | `not` negates the answer and asks exactly what its operand asks |
| Front.RunAction | include/boost/sml.lite.hpp:262-268 | Invoking an action runs only user actions, one per user callable it holds |
| Front.RunActionCalls | include/boost/sml.lite.hpp:262-268 | The k-th thing an action runs is its k-th user callable, left to right, on the event |
| Front.CommaRunsBoth | include/boost/sml.lite.hpp:262-268 | The comma operator always runs its left action and then its right action |
| Front.Target | include/boost/sml.lite.hpp:243-245 | Definition: the state after firing is the destination's identifier when the destination name is non-empty, and otherwise the state stays as it was |
| Front.Fire | include/boost/sml.lite.hpp:238-249 | `transition::operator()` fires exactly when the guard holds. It then runs the action once, and otherwise runs none. It moves to the destination's identifier only when it fires and the destination is non-empty |
| Back.RegionCount | include/boost/sml.lite.hpp:129-132 | The region count is at most the number of rows, and is positive exactly when some source is marked |
| Back.Candidates | include/boost/sml.lite.hpp:137-138 | The constructor's `states[]`: one entry per row, the source's identifier when its first character is `'*'` and 0 otherwise; as many entries as rows |
| Back.NonZeroHasNoZero | include/boost/sml.lite.hpp:140-141 | The `if (state)` filter keeps no 0: every seed written into `current_state_` is nonzero |
| Back.InitialRegions | include/boost/sml.lite.hpp:135-144 | Definition: `current_state_` after construction, i.e. the nonzero entries of `states[]` in order, followed by zeros (the zero-initialised array of line 174) up to the region count |
| Back.SeedsAreMarkedNonZero | include/boost/sml.lite.hpp:137-143 | The constructor's seeds are the nonzero identifiers of the marked sources, in table order: unmarked rows only contribute zeros, which are skipped |
| Back.SeedsFit | include/boost/sml.lite.hpp:137-143 | The seeding loop never writes past `current_state_`: there are at most as many seeds as regions |
| Back.NonZeroPadded | include/boost/sml.lite.hpp:139-143 | The skipped entries are all zeros: the kept ones plus as many zeros as were skipped are the input again, as a multiset |
| Back.InitialRegionsSeeded | include/boost/sml.lite.hpp:135-144 | After construction region r holds the r-th nonzero marked identifier. The seeded slots are nonzero, the slots after the last seed are 0, and there are exactly as many slots as regions |
| Back.InitialRegionsExact | include/boost/sml.lite.hpp:135-144 | When no marked name hashes to 0, region r starts in the r-th marked source of the table |
| Back.InitialRegionsPermuteMarks | include/boost/sml.lite.hpp:135-144 | Seeding loses no state. The initial regions are the marked identifiers, each as often as it is marked, up to order. A skipped zero identifier reappears as a trailing 0 slot |
| Back.EventGroup | include/boost/sml.lite.hpp:124-126 | The group of an event type lists only rows of that event type |
| Back.EventGroupComplete | include/boost/sml.lite.hpp:124-126 | The group lists rows in strictly increasing declaration order, and every row of the event type is in it |
| Back.Scan | include/boost/sml.lite.hpp:162-171 | Definition: the recursive `dispatch` over an event's group. A row whose source differs from the current state is skipped without calling its guard. A row whose guard fails passes over to the next row, keeping its guard's trace. The first row that fires ends the scan, and an exhausted group (the overload at lines 170-171) changes nothing |
| Back.Dispatched | include/boost/sml.lite.hpp:146-160 | Definition: what one region does with an event, which is `dispatch` from position 0 of the event type's group with that region's current state, as called at lines 149 and 159 |
| Back.ScanNoMatch | include/boost/sml.lite.hpp:162-171 | With no eligible row the region keeps its state and no action runs. Only the guards of rows leaving the current state are invoked, once each, in order |
| Back.ScanPassesOver | include/boost/sml.lite.hpp:165-166 | A row that is not eligible contributes only its guard invocation, and only when its source is the current state. The scan then goes on to the next row |
| Back.ScanFiresHere | include/boost/sml.lite.hpp:165-168 | An eligible first row fires at once: its destination (if any) becomes the state and its guard and action are what runs |
| Back.ScanFirstMatch | include/boost/sml.lite.hpp:162-171 | If the p-th row is the first eligible one, the result is that row firing, after the guard invocations of the rows before it |
| Back.ScanFirstMatchActions | include/boost/sml.lite.hpp:162-171 | The only actions a scan runs are the winning row's action, once |
| Back.ScanStopsAtMatch | include/boost/sml.lite.hpp:162-168 | Rows after the first eligible one do not influence the result |
| Back.DispatchFirstEligibleRow | include/boost/sml.lite.hpp:162-171 | If row i is the first eligible row of the event's type in table order, a region's dispatch fires exactly that row, moves to its destination and runs its action once |
| Back.DispatchNoEligibleRow | include/boost/sml.lite.hpp:162-171 | If no row of the event's type is eligible, the region keeps its state and no action runs |
| Back.Process | include/boost/sml.lite.hpp:146-160 | Regions are independent. Region r ends where its own dispatch from its own old state leads, slots not yet dispatched are untouched, and the effects are each region's effects in region order |
| Back.UnmatchedEventIsNoOp | include/boost/sml.lite.hpp:146-171 | An event that no region can take leaves every region unchanged and runs no action, and processing it again gives the same result |
| Back.UndeclaredEventIsNoOp | include/boost/sml.lite.hpp:170-171 | An event type that appears in no row changes nothing and runs no user code |
| Back.Machine.constructor | include/boost/sml.lite.hpp:135-144 | The constructor's loop fills `current_state_` (one slot per region) with the initial regions: the nonzero seeds in order, then zeros |
| Back.Machine.Dispatch | include/boost/sml.lite.hpp:162-171 | The loop over the event's group writes only slot r, and only with the state that the scan specification gives; it returns the scan's effects |
| Back.Machine.ProcessEvent | include/boost/sml.lite.hpp:146-160 | Dispatching every region in index order leaves `current_state_` and the effects as `Process` over all regions says |
| Scenarios.Identifiers | include/boost/sml.lite.hpp:50-55 | The identifiers of "s1", "s2", "s3" are 0x1AE, 0x1A8, 0x1AA, and that of "!B" is 0 |
| Scenarios.BasicStart | include/boost/sml.lite.hpp:129-144 | `*"s1" + event<E> / act = "s2"` has one region, and it starts in s1 |
| Scenarios.BasicRun | include/boost/sml.lite.hpp:146-171 | E moves that machine from s1 to s2 and runs the action once |
| Scenarios.BasicIdle | include/boost/sml.lite.hpp:162-171 | A second E in s2 changes nothing and runs nothing |
| Scenarios.CompetingRun | include/boost/sml.lite.hpp:162-168 | Of two rows leaving s1 on E whose guards both hold, only the first declared fires, and the second guard is never asked |
| Scenarios.InternalRun | include/boost/sml.lite.hpp:243-246 | A transition without destination runs its action and the region stays where it was |
| Scenarios.TwoRegionsStart | include/boost/sml.lite.hpp:135-144 | Two marked sources seed two regions, in table order |
| Scenarios.TwoRegionsOnE | include/boost/sml.lite.hpp:156-160 | An event that moves region 0 leaves region 1 alone |
| Scenarios.TwoRegionsOnF | include/boost/sml.lite.hpp:156-160 | An event that moves region 1 leaves region 0 alone |
| Scenarios.RepeatedMarkStart | include/boost/sml.lite.hpp:129-144 | A source marked on two rows makes two regions that both start in it |
| Scenarios.RepeatedMarkRun | include/boost/sml.lite.hpp:156-160 | In that machine E fires the same row in both regions, so its action runs twice |
| Scenarios.ZeroSeedStart | include/boost/sml.lite.hpp:137-143 | With `*"!B"` first and `*"s2"` second, "!B" is skipped: region 0 starts in s2 and region 1 keeps 0 |
| Scenarios.ZeroSeedRun | include/boost/sml.lite.hpp:162-171 | A row whose source is the empty name (identifier 0) then fires in region 1 |

## Left out

- The template metaprogramming (lines 11-115): index sequences, the
  friend-injection `counter`, `inherit` and `pool`. The table is a
  sequence of rows, and `EventGroup` numbers the rows of each event type
  from 0 within one table.
- Back.EventGroup assumes each event type is used by only one machine type
  per translation unit. The `counter` of lines 92-102 is keyed by the
  event type alone, and its state is global to the translation unit. A
  second machine type whose table uses an event type that an earlier
  machine already used numbers its rows from 1 or more. Its
  `dispatch<TEvent>` starts at 0 (lines 149, 159), finds no matching
  base, and takes the no-op overload of lines 170-171, so the event is
  silently ignored. The model does not capture this.
- Failing user code: a guard or action that throws. The action runs at
  line 242, before the write at line 244. A throw therefore leaves the
  current region's slot unwritten, and the regions after it (line 159)
  are never dispatched. In the model, user code cannot fail, so this is
  not captured.
- The `concepts::invokable` detection and the overload choice in `invoke`
  (lines 179-195). The model treats a guard or action taking no argument
  as one whose predicate ignores the event.
- The table-building syntax: `operator+`, `[]`, `/`, `=`, `*` on a
  transition, `event<>` and `_s` (lines 210-236, 255-260), and the
  `sm` deduction guide (lines 286-306). Tables are written directly as
  sequences of `Transition`.
- `static_assert(num_of_regions > 0)`: it is a compile-time rejection, so
  it is the constructor's precondition. There is no run-time error path to
  model.
- `[[no_unique_address]]` and object layout: they have no behavioural
  effect.
- Reentrancy (an action calling `process_event` on the same machine) and
  use from several threads: the library makes no promise for either.
- Guard and action bodies are user code. A guard is an opaque predicate on
  the event, and an action is visible only as a `Ran` entry in the effect
  trace. Anything a user action does to other state is outside the model.
- Event payloads are reduced to an integer next to the event's type.
  Dispatch looks only at the type.
- The state of a region is read and written only through `Machine.Dispatch`.
  The model's `Fire` returns the new state instead of writing it through a
  reference, and `Dispatch` performs the write.
- Mp.Widen: `char` is taken to be signed, so a byte of 0x80 or more is
  sign-extended before `^=`. Platforms with an unsigned `char` would
  zero-extend instead, which gives a different identifier for such names.
- Hash collisions: two different names with equal identifiers are the same
  state. The library does not detect this, and the model states no
  collision-freedom.
