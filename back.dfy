/** The engine, `back::sm`: how a transition table is compiled into
    regions and per-event groups, how one region reacts to an event, and the
    machine object that holds the regions' current states. */
module Back {
  import opened Mp
  import opened Front

  type Table = seq<Transition>

  /** `num_of_regions`: one for every transition whose source starts with `'*'`. */
  function RegionCount(table: Table): (n: nat)
    ensures n <= |table|
    ensures n > 0 <==> exists i :: 0 <= i < |table| && table[i].src.Marked()
  {
    if table == [] then 0
    else
      assert forall i :: 1 <= i < |table| ==> table[i] == table[1..][i - 1];
      (if table[0].src.Marked() then 1 else 0) + RegionCount(table[1..])
  }

  /** The identifiers of the marked sources, in table order. */
  function MarkedHashes(table: Table): (hs: seq<bv32>)
    ensures |hs| == RegionCount(table)
  {
    if table == [] then []
    else (if table[0].src.Marked() then [table[0].src.hash] else []) + MarkedHashes(table[1..])
  }

  /** The constructor's `states[]`: per transition, the source's identifier
      when it is marked and 0 otherwise. */
  function Candidates(table: Table): (states: seq<bv32>)
    ensures |states| == |table|
  {
    seq(|table|, i requires 0 <= i < |table| =>
      if table[i].src.Marked() then table[i].src.hash else 0)
  }

  /** The nonzero entries of `s`, in order. */
  function NonZero(s: seq<bv32>): (r: seq<bv32>)
    ensures |r| <= |s|
  {
    if s == [] then []
    else (if s[0] != 0 then [s[0]] else []) + NonZero(s[1..])
  }

  /** Filtering a sequence without zeros keeps all of it. */
  lemma {:induction false} NonZeroKeepsAll(s: seq<bv32>)
    requires forall k :: 0 <= k < |s| ==> s[k] != 0
    ensures NonZero(s) == s
    decreases |s|
  {
    if s != [] {
      NonZeroKeepsAll(s[1..]);
      assert s == [s[0]] + s[1..];
    }
  }

  /** Filtering leaves no zero behind. */
  lemma {:induction false} NonZeroHasNoZero(s: seq<bv32>, k: nat)
    requires k < |NonZero(s)|
    ensures NonZero(s)[k] != 0
    decreases |s|
  {
    if s[0] == 0 {
      NonZeroHasNoZero(s[1..], k);
    } else if k > 0 {
      NonZeroHasNoZero(s[1..], k - 1);
    }
  }

  lemma {:induction false} NonZeroConcat(a: seq<bv32>, b: seq<bv32>)
    ensures NonZero(a + b) == NonZero(a) + NonZero(b)
    decreases |a|
  {
    if a == [] {
      assert a + b == b;
    } else {
      assert (a + b)[1..] == a[1..] + b;
      NonZeroConcat(a[1..], b);
    }
  }

  /** Filtering one more element of a prefix, and prefixes never keep more
      than the whole. */
  lemma NonZeroPrefix(s: seq<bv32>, i: nat)
    requires i < |s|
    ensures NonZero(s[..i + 1]) == NonZero(s[..i]) + (if s[i] != 0 then [s[i]] else [])
    ensures |NonZero(s[..i + 1])| <= |NonZero(s)|
  {
    NonZeroConcat(s[..i], [s[i]]);
    assert s[..i + 1] == s[..i] + [s[i]];
    NonZeroConcat(s[..i + 1], s[i + 1..]);
    assert s == s[..i + 1] + s[i + 1..];
  }

  /** The seeds are the nonzero identifiers of the marked sources: unmarked
      sources contribute only zeros, which the constructor skips. */
  lemma {:induction false} SeedsAreMarkedNonZero(table: Table)
    ensures NonZero(Candidates(table)) == NonZero(MarkedHashes(table))
    decreases |table|
  {
    if table != [] {
      SeedsAreMarkedNonZero(table[1..]);
      var c := Candidates(table);
      assert c == [c[0]] + Candidates(table[1..]);
      NonZeroConcat([c[0]], Candidates(table[1..]));
      var h := if table[0].src.Marked() then [table[0].src.hash] else [];
      NonZeroConcat(h, MarkedHashes(table[1..]));
    }
  }

  /** The constructor never writes past `current_state_`: there are at most
      as many seeds as regions. */
  lemma SeedsFit(table: Table)
    ensures |NonZero(Candidates(table))| <= RegionCount(table)
  {
    SeedsAreMarkedNonZero(table);
  }

  /** `current_state_` right after construction: the seeds in table order,
      then zeros up to the number of regions. */
  function InitialRegions(table: Table): seq<bv32> {
    var seeds := NonZero(Candidates(table));
    SeedsFit(table);
    seeds + Zeros(RegionCount(table) - |seeds|)
  }

  /** The zero-initialised tail of `current_state_`. */
  function Zeros(n: nat): seq<bv32> {
    seq(n, _ => 0)
  }

  /** Region r starts in the r-th nonzero marked source; a marked source
      whose identifier is 0 is skipped, so later ones move up and the last
      slots stay 0. */
  lemma InitialRegionsSeeded(table: Table)
    ensures |InitialRegions(table)| == RegionCount(table)
    ensures InitialRegions(table)[..|NonZero(MarkedHashes(table))|] == NonZero(MarkedHashes(table))
    ensures forall r :: |NonZero(MarkedHashes(table))| <= r < RegionCount(table) ==> InitialRegions(table)[r] == 0
    ensures forall r :: 0 <= r < |NonZero(MarkedHashes(table))| ==> InitialRegions(table)[r] != 0
  {
    SeedsAreMarkedNonZero(table);
    forall r | 0 <= r < |NonZero(MarkedHashes(table))|
      ensures InitialRegions(table)[r] != 0
    {
      NonZeroHasNoZero(MarkedHashes(table), r);
    }
  }

  /** Seeding loses no state: a skipped identifier is 0, and the slot it
      leaves at the end is 0 as well, so the regions start in exactly the
      marked sources' identifiers, each as often as it is marked. */
  lemma InitialRegionsPermuteMarks(table: Table)
    ensures multiset(InitialRegions(table)) == multiset(MarkedHashes(table))
  {
    SeedsAreMarkedNonZero(table);
    var marks := MarkedHashes(table);
    NonZeroPadded(marks);
    assert InitialRegions(table) == NonZero(marks) + Zeros(Skipped(marks));
  }

  /** How many entries of `s` the filter drops. */
  function Skipped(s: seq<bv32>): nat {
    |s| - |NonZero(s)|
  }

  /** The kept entries and as many zeros as were dropped make up `s` again. */
  lemma {:induction false} NonZeroPadded(s: seq<bv32>)
    ensures multiset(NonZero(s)) + multiset(Zeros(Skipped(s))) == multiset(s)
    decreases |s|
  {
    if s == [] {
      assert Zeros(0) == [];
    } else {
      var rest := s[1..];
      NonZeroPadded(rest);
      assert s == [s[0]] + rest;
      if s[0] == 0 {
        assert NonZero(s) == NonZero(rest);
        assert Zeros(Skipped(s)) == [0] + Zeros(Skipped(rest));
      } else {
        assert NonZero(s) == [s[0]] + NonZero(rest);
        assert Skipped(s) == Skipped(rest);
      }
    }
  }

  /** With no marked source named 0, region r starts in the r-th marked
      source of the table. */
  lemma InitialRegionsExact(table: Table)
    requires forall i :: 0 <= i < |table| && table[i].src.Marked() ==> table[i].src.hash != 0
    ensures InitialRegions(table) == MarkedHashes(table)
  {
    SeedsAreMarkedNonZero(table);
    MarkedHashesNonZero(table);
    NonZeroKeepsAll(MarkedHashes(table));
  }

  lemma {:induction false} MarkedHashesNonZero(table: Table)
    requires forall i :: 0 <= i < |table| && table[i].src.Marked() ==> table[i].src.hash != 0
    ensures forall k :: 0 <= k < |MarkedHashes(table)| ==> MarkedHashes(table)[k] != 0
    decreases |table|
  {
    if table != [] {
      assert forall i :: 1 <= i < |table| ==> table[i] == table[1..][i - 1];
      MarkedHashesNonZero(table[1..]);
    }
  }

  /** The transitions registered for one event type, as indices into the
      table in declaration order. */
  function EventGroup(table: Table, kind: EventKind): (g: seq<nat>)
    ensures forall j :: 0 <= j < |g| ==> g[j] < |table| && table[g[j]].event == kind
    decreases |table|
  {
    if table == [] then []
    else
      var n := |table| - 1;
      var g := EventGroup(table[..n], kind);
      if table[n].event == kind then g + [n] else g
  }

  /** A group lists every transition of its event type exactly once, in
      declaration order, and nothing else. */
  lemma {:induction false} EventGroupComplete(table: Table, kind: EventKind)
    ensures forall j, j' :: 0 <= j < j' < |EventGroup(table, kind)| ==>
      EventGroup(table, kind)[j] < EventGroup(table, kind)[j']
    ensures forall i :: 0 <= i < |table| && table[i].event == kind ==> i in EventGroup(table, kind)
    decreases |table|
  {
    if table != [] {
      var n := |table| - 1;
      EventGroupComplete(table[..n], kind);
      assert forall i :: 0 <= i < n ==> table[..n][i] == table[i];
    }
  }

  /** Every entry of `group` is a row of `table`. */
  predicate Indexes(table: Table, group: seq<nat>) {
    forall j :: 0 <= j < |group| ==> group[j] < |table|
  }

  /** `dispatch` for one region: the transitions of `group` are tried in
      order; one whose source is not the current state is skipped without
      invoking its guard, one whose guard fails is passed over, and the
      first one that fires ends the scan. */
  function Scan(table: Table, group: seq<nat>, e: Event, state: bv32): Fired
    requires Indexes(table, group)
    decreases |group|
  {
    if group == [] then Fired(false, state, [])
    else
      var t := table[group[0]];
      if t.src.hash != state then Scan(table, group[1..], e, state)
      else
        var f := Fire(t, e, state);
        if f.fired then f
        else
          var rest := Scan(table, group[1..], e, state);
          Fired(rest.fired, rest.state, f.effects + rest.effects)
  }

  /** A transition that fires when tried in `state`. */
  predicate Eligible(t: Transition, e: Event, state: bv32) {
    t.src.hash == state && Holds(t.guard, e)
  }

  /** The guard invocations of the transitions of `group` whose source is
      `state`, in order. */
  function GuardChecks(table: Table, group: seq<nat>, e: Event, state: bv32): seq<Effect>
    requires Indexes(table, group)
    decreases |group|
  {
    if group == [] then []
    else
      var t := table[group[0]];
      (if t.src.hash == state then EvalGuard(t.guard, e).effects else [])
        + GuardChecks(table, group[1..], e, state)
  }

  lemma {:induction false} GuardChecksRunNoAction(table: Table, group: seq<nat>, e: Event, state: bv32)
    requires Indexes(table, group)
    ensures ActionsOf(GuardChecks(table, group, e, state)) == []
    decreases |group|
  {
    if group != [] {
      var t := table[group[0]];
      var here := if t.src.hash == state then EvalGuard(t.guard, e).effects else [];
      GuardChecksRunNoAction(table, group[1..], e, state);
      ActionsOfConcat(here, GuardChecks(table, group[1..], e, state));
    }
  }

  /** When nothing in the group is eligible the region keeps its state, no
      action runs, and every guard of a transition leaving the current state
      has been invoked once, in order. */
  lemma {:induction false} ScanNoMatch(table: Table, group: seq<nat>, e: Event, state: bv32)
    requires Indexes(table, group)
    requires forall j :: 0 <= j < |group| ==> !Eligible(table[group[j]], e, state)
    ensures Scan(table, group, e, state) == Fired(false, state, GuardChecks(table, group, e, state))
    ensures ActionsOf(Scan(table, group, e, state).effects) == []
    decreases |group|
  {
    GuardChecksRunNoAction(table, group, e, state);
    if group != [] {
      ScanNoMatch(table, group[1..], e, state);
    }
  }

  /** A transition that is not eligible adds only its guard invocation
      (when its source is the current state) and passes the scan on. */
  lemma ScanPassesOver(table: Table, group: seq<nat>, e: Event, state: bv32)
    requires Indexes(table, group)
    requires group != [] && !Eligible(table[group[0]], e, state)
    ensures Scan(table, group, e, state)
      == Resumed(GuardChecks(table, group[..1], e, state), Scan(table, group[1..], e, state))
  {
    var t := table[group[0]];
    var here := if t.src.hash == state then EvalGuard(t.guard, e).effects else [];
    assert GuardChecks(table, group[..1], e, state) == here by {
      assert group[..1][1..] == [];
      assert group[..1][0] == group[0];
    }
    assert here + Scan(table, group[1..], e, state).effects == Scan(table, group, e, state).effects;
  }

  /** The effects of a transition that fires. */
  function Firing(t: Transition, e: Event): seq<Effect> {
    EvalGuard(t.guard, e).effects + RunAction(t.action, e)
  }

  /** An eligible first transition fires at once. */
  lemma ScanFiresHere(table: Table, group: seq<nat>, e: Event, state: bv32)
    requires Indexes(table, group)
    requires group != [] && Eligible(table[group[0]], e, state)
    ensures Scan(table, group, e, state)
      == Fired(true, Target(table[group[0]], state), Firing(table[group[0]], e))
  {
  }

  /** First match wins: if the p-th transition of the group is the first
      eligible one, it alone fires. Its destination (if any) becomes the
      state, and no transition after it is looked at. */
  lemma {:induction false} ScanFirstMatch(table: Table, group: seq<nat>, e: Event, state: bv32, p: nat)
    requires Indexes(table, group)
    requires p < |group| && Eligible(table[group[p]], e, state)
    requires forall j :: 0 <= j < p ==> !Eligible(table[group[j]], e, state)
    ensures Scan(table, group, e, state) == Resumed(
      GuardChecks(table, group[..p], e, state),
      Fired(true, Target(table[group[p]], state), Firing(table[group[p]], e)))
    decreases p
  {
    if p == 0 {
      ScanFiresHere(table, group, e, state);
      assert group[..0] == [];
      assert [] + Firing(table[group[p]], e) == Firing(table[group[p]], e);
    } else {
      var tail := group[1..];
      assert tail[p - 1] == group[p];
      assert forall j :: 0 <= j < p - 1 ==> tail[j] == group[j + 1];
      ScanFirstMatch(table, tail, e, state, p - 1);
      ScanFirstMatchStep(table, group, e, state, p);
    }
  }

  lemma ScanFirstMatchStep(table: Table, group: seq<nat>, e: Event, state: bv32, p: nat)
    requires Indexes(table, group)
    requires 0 < p < |group| && !Eligible(table[group[0]], e, state)
    requires Scan(table, group[1..], e, state) == Resumed(
      GuardChecks(table, group[1..][..p - 1], e, state),
      Fired(true, Target(table[group[p]], state), Firing(table[group[p]], e)))
    ensures Scan(table, group, e, state) == Resumed(
      GuardChecks(table, group[..p], e, state),
      Fired(true, Target(table[group[p]], state), Firing(table[group[p]], e)))
  {
    ScanPassesOver(table, group, e, state);
    GuardChecksHead(table, group, p, e, state);
    ResumedTwice(GuardChecks(table, group[..1], e, state), GuardChecks(table, group[1..][..p - 1], e, state),
      Fired(true, Target(table[group[p]], state), Firing(table[group[p]], e)));
  }

  lemma GuardChecksHead(table: Table, group: seq<nat>, p: nat, e: Event, state: bv32)
    requires Indexes(table, group) && 0 < p <= |group|
    ensures GuardChecks(table, group[..p], e, state)
      == GuardChecks(table, group[..1], e, state) + GuardChecks(table, group[1..][..p - 1], e, state)
  {
    GuardChecksConcat(table, group[..1], group[1..][..p - 1], e, state);
    assert group[..1] + group[1..][..p - 1] == group[..p];
  }

  lemma {:induction false} GuardChecksConcat(table: Table, a: seq<nat>, b: seq<nat>, e: Event, state: bv32)
    requires Indexes(table, a) && Indexes(table, b)
    ensures Indexes(table, a + b)
    ensures GuardChecks(table, a + b, e, state) == GuardChecks(table, a, e, state) + GuardChecks(table, b, e, state)
    decreases |a|
  {
    if a == [] {
      assert a + b == b;
    } else {
      var ab := a + b;
      assert ab[0] == a[0] && ab[1..] == a[1..] + b;
      GuardChecksConcat(table, a[1..], b, e, state);
      var t := table[a[0]];
      var here := if t.src.hash == state then EvalGuard(t.guard, e).effects else [];
      assert GuardChecks(table, ab, e, state) == here + GuardChecks(table, ab[1..], e, state);
      assert GuardChecks(table, a, e, state) == here + GuardChecks(table, a[1..], e, state);
    }
  }

  /** Of all the user code the scan runs, the actions are exactly the
      winner's action, once. */
  lemma ScanFirstMatchActions(table: Table, group: seq<nat>, e: Event, state: bv32, p: nat)
    requires Indexes(table, group)
    requires p < |group| && Eligible(table[group[p]], e, state)
    requires forall j :: 0 <= j < p ==> !Eligible(table[group[j]], e, state)
    ensures ActionsOf(Scan(table, group, e, state).effects) == RunAction(table[group[p]].action, e)
  {
    var winner := table[group[p]];
    var before := GuardChecks(table, group[..p], e, state);
    var checks := EvalGuard(winner.guard, e).effects;
    var acts := RunAction(winner.action, e);
    ScanFirstMatch(table, group, e, state, p);
    GuardChecksRunNoAction(table, group[..p], e, state);
    ActionsOfConcat(checks, acts);
    ActionsOfConcat(before, checks + acts);
  }

  /** Transitions after the first eligible one never influence the result. */
  lemma {:induction false} ScanStopsAtMatch(table: Table, group: seq<nat>, e: Event, state: bv32, p: nat)
    requires Indexes(table, group)
    requires p < |group| && Eligible(table[group[p]], e, state)
    requires forall j :: 0 <= j < p ==> !Eligible(table[group[j]], e, state)
    ensures Scan(table, group, e, state) == Scan(table, group[..p + 1], e, state)
  {
    ScanFirstMatch(table, group, e, state, p);
    ScanFirstMatch(table, group[..p + 1], e, state, p);
    assert group[..p + 1][..p] == group[..p];
  }

  /** A scan result with `effects` run before it. */
  function Resumed(effects: seq<Effect>, f: Fired): Fired {
    Fired(f.fired, f.state, effects + f.effects)
  }

  lemma ResumedTwice(a: seq<Effect>, b: seq<Effect>, f: Fired)
    ensures Resumed(a, Resumed(b, f)) == Resumed(a + b, f)
  {
    assert a + (b + f.effects) == (a + b) + f.effects;
  }

  /** One step of the scan from position i of the group. */
  lemma ScanUnfold(table: Table, group: seq<nat>, i: nat, e: Event, state: bv32)
    requires Indexes(table, group) && i < |group|
    ensures Indexes(table, group[i..]) && Indexes(table, group[i + 1..])
    ensures Scan(table, group[i..], e, state) ==
      var t := table[group[i]];
      if t.src.hash != state then Scan(table, group[i + 1..], e, state)
      else if Fire(t, e, state).fired then Fire(t, e, state)
      else Resumed(Fire(t, e, state).effects, Scan(table, group[i + 1..], e, state))
  {
    assert group[i..][1..] == group[i + 1..];
  }

  /** What one region does with an event: scan the event's group. */
  function Dispatched(table: Table, e: Event, state: bv32): Fired {
    Scan(table, EventGroup(table, e.kind), e, state)
  }

  /** First match wins, in table order: if row i is the first row of the
      event's type that is eligible in `state`, one region's dispatch fires
      exactly that row, moves to its destination and runs its action once. */
  lemma DispatchFirstEligibleRow(table: Table, e: Event, state: bv32, i: nat)
    requires i < |table| && table[i].event == e.kind && Eligible(table[i], e, state)
    requires forall k :: 0 <= k < i && table[k].event == e.kind ==> !Eligible(table[k], e, state)
    ensures Dispatched(table, e, state).fired
    ensures Dispatched(table, e, state).state == Target(table[i], state)
    ensures ActionsOf(Dispatched(table, e, state).effects) == RunAction(table[i].action, e)
  {
    var group := EventGroup(table, e.kind);
    EventGroupComplete(table, e.kind);
    assert i in group;
    var p :| 0 <= p < |group| && group[p] == i;
    forall j | 0 <= j < p
      ensures !Eligible(table[group[j]], e, state)
    {
      assert group[j] < group[p];
    }
    ScanFirstMatch(table, group, e, state, p);
    ScanFirstMatchActions(table, group, e, state, p);
  }

  /** And if no row of the event's type is eligible, the region keeps its
      state and no action runs: a missed event is silently absorbed. */
  lemma DispatchNoEligibleRow(table: Table, e: Event, state: bv32)
    requires forall k :: 0 <= k < |table| && table[k].event == e.kind ==> !Eligible(table[k], e, state)
    ensures !Dispatched(table, e, state).fired
    ensures Dispatched(table, e, state).state == state
    ensures ActionsOf(Dispatched(table, e, state).effects) == []
  {
    ScanNoMatch(table, EventGroup(table, e.kind), e, state);
  }

  /** The regions and the user code run by one `process_event`. */
  datatype Outcome = Outcome(regions: seq<bv32>, effects: seq<Effect>)

  /** The effects of dispatching regions 0 .. n-1, in region order. */
  function RegionEffects(table: Table, current: seq<bv32>, e: Event, n: nat): seq<Effect>
    requires n <= |current|
  {
    if n == 0 then [] else RegionEffects(table, current, e, n - 1) + Dispatched(table, e, current[n - 1]).effects
  }

  /** `process_event` over regions 0 .. n-1, one after the other, each
      dispatch writing back its own slot. Regions are independent: slot r
      ends as its own dispatch from its own old state says, and slots from
      n on are untouched. */
  function Process(table: Table, current: seq<bv32>, e: Event, n: nat): (o: Outcome)
    requires n <= |current|
    ensures |o.regions| == |current|
    ensures forall r :: 0 <= r < |current| ==>
      o.regions[r] == if r < n then Dispatched(table, e, current[r]).state else current[r]
    ensures o.effects == RegionEffects(table, current, e, n)
    decreases n
  {
    if n == 0 then Outcome(current, [])
    else
      var before := Process(table, current, e, n - 1);
      var f := Dispatched(table, e, before.regions[n - 1]);
      Outcome(before.regions[n - 1 := f.state], before.effects + f.effects)
  }

  lemma {:induction false} RegionEffectsRunNoAction(table: Table, current: seq<bv32>, e: Event, n: nat)
    requires n <= |current|
    requires forall r :: 0 <= r < n ==> !Dispatched(table, e, current[r]).fired
    requires forall r :: 0 <= r < n ==> ActionsOf(Dispatched(table, e, current[r]).effects) == []
    ensures ActionsOf(RegionEffects(table, current, e, n)) == []
    decreases n
  {
    if n > 0 {
      RegionEffectsRunNoAction(table, current, e, n - 1);
      ActionsOfConcat(RegionEffects(table, current, e, n - 1), Dispatched(table, e, current[n - 1]).effects);
    }
  }

  /** An event no region can take leaves every region where it was and
      runs no action; processing it again does exactly the same. */
  lemma UnmatchedEventIsNoOp(table: Table, current: seq<bv32>, e: Event)
    requires forall r, i :: 0 <= r < |current| && 0 <= i < |table| && table[i].event == e.kind ==>
      !Eligible(table[i], e, current[r])
    ensures Process(table, current, e, |current|).regions == current
    ensures ActionsOf(Process(table, current, e, |current|).effects) == []
    ensures Process(table, Process(table, current, e, |current|).regions, e, |current|)
      == Process(table, current, e, |current|)
  {
    var group := EventGroup(table, e.kind);
    forall r | 0 <= r < |current|
      ensures !Dispatched(table, e, current[r]).fired
      ensures Dispatched(table, e, current[r]).state == current[r]
      ensures ActionsOf(Dispatched(table, e, current[r]).effects) == []
    {
      ScanNoMatch(table, group, e, current[r]);
    }
    RegionEffectsRunNoAction(table, current, e, |current|);
    var o := Process(table, current, e, |current|);
    assert o.regions == current;
  }

  /** An event type that no transition mentions is a silent no-op. */
  lemma UndeclaredEventIsNoOp(table: Table, current: seq<bv32>, e: Event)
    requires forall i :: 0 <= i < |table| ==> table[i].event != e.kind
    ensures Process(table, current, e, |current|) == Outcome(current, [])
  {
    assert EventGroup(table, e.kind) == [];
    NoEffectsWithoutGroup(table, current, e, |current|);
    var o := Process(table, current, e, |current|);
    forall r | 0 <= r < |current|
      ensures o.regions[r] == current[r]
    {
      assert Dispatched(table, e, current[r]).state == current[r];
    }
    assert o.regions == current;
  }

  lemma {:induction false} NoEffectsWithoutGroup(table: Table, current: seq<bv32>, e: Event, n: nat)
    requires n <= |current|
    requires EventGroup(table, e.kind) == []
    ensures RegionEffects(table, current, e, n) == []
    decreases n
  {
    if n > 0 {
      NoEffectsWithoutGroup(table, current, e, n - 1);
    }
  }

  /** `back::sm`: the transition table and `current_state_`, one
      identifier per region. */
  class Machine {
    const table: Table
    const current: array<bv32>

    /** The constructor; a table without a marked source does not compile. */
    constructor (table: Table)
      requires RegionCount(table) > 0
      ensures this.table == table
      ensures current.Length == RegionCount(table)
      ensures current[..] == InitialRegions(table)
      ensures fresh(current)
    {
      var n := RegionCount(table);
      var states := Candidates(table);
      var slots := new bv32[n](_ => 0);
      SeedsFit(table);
      var p := 0;
      var i := 0;
      while i < |states|
        invariant 0 <= i <= |states|
        invariant p == |NonZero(states[..i])|
        invariant p <= |NonZero(states)|
        invariant slots[..p] == NonZero(states[..i])
        invariant forall k :: p <= k < n ==> slots[k] == 0
      {
        NonZeroPrefix(states, i);
        if states[i] != 0 {
          slots[p] := states[i];
          p := p + 1;
        }
        i := i + 1;
      }
      assert states[..i] == states;
      assert slots[..] == slots[..p] + slots[p..];
      this.table := table;
      current := slots;
    }

    /** `dispatch` for region r: the first eligible transition of the
      event's group fires and only `current_state_[r]` may change. */
    method Dispatch(e: Event, r: nat) returns (effects: seq<Effect>)
      requires r < current.Length
      modifies current
      ensures current[..] == old(current[..])[r := Dispatched(table, e, old(current[r])).state]
      ensures effects == Dispatched(table, e, old(current[r])).effects
    {
      var group := EventGroup(table, e.kind);
      ghost var state := current[r];
      ghost var goal := Scan(table, group, e, state);
      var i := 0;
      var done := false;
      effects := [];
      assert group[0..] == group;
      while i < |group| && !done
        invariant 0 <= i <= |group|
        invariant done ==> current[..] == old(current[..])[r := goal.state] && effects == goal.effects
        invariant !done ==> current[..] == old(current[..])
        invariant !done ==> goal == Resumed(effects, Scan(table, group[i..], e, state))
        decreases |group| - i
      {
        ScanUnfold(table, group, i, e, state);
        var t := table[group[i]];
        if t.src.hash == current[r] {
          var f := Fire(t, e, current[r]);
          ResumedTwice(effects, f.effects, Scan(table, group[i + 1..], e, state));
          effects := effects + f.effects;
          if f.fired {
            current[r] := f.state;
            done := true;
          }
        }
        i := i + 1;
      }
    }

    /** `process_event`: every region, in index order, is dispatched once. */
    method ProcessEvent(e: Event) returns (effects: seq<Effect>)
      modifies current
      ensures current[..] == Process(table, old(current[..]), e, current.Length).regions
      ensures effects == Process(table, old(current[..]), e, current.Length).effects
    {
      effects := [];
      var r := 0;
      while r < current.Length
        invariant 0 <= r <= current.Length
        invariant current[..] == Process(table, old(current[..]), e, r).regions
        invariant effects == Process(table, old(current[..]), e, r).effects
      {
        var more := Dispatch(e, r);
        effects := effects + more;
        r := r + 1;
      }
    }
  }
}
