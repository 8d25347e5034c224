/** Small transition tables worked through the model: the behaviour the
    library documents for a one-region machine, priority between
    competing transitions, internal transitions, two regions, and the
    zero-identifier corner of region seeding. */
module Scenarios {
  import opened Mp
  import opened Front
  import opened Back

  /** The names "s1", "s2", "s3" and "!B" as bytes. */
  const S1: seq<bv8> := [0x73, 0x31]
  const S2: seq<bv8> := [0x73, 0x32]
  const S3: seq<bv8> := [0x73, 0x33]
  const BangB: seq<bv8> := [0x21, 0x42]

  /** Two event types, each with one value. */
  const E: Event := Event(0, 0)
  const F: Event := Event(1, 0)

  lemma Identifiers()
    ensures Hash(S1) == 0x1AE && Hash(S2) == 0x1A8 && Hash(S3) == 0x1AA && Hash(BangB) == 0
  {
    assert Hash(S1) == Fold(0xE6, [0x31]);
    assert Hash(S2) == Fold(0xE6, [0x32]);
    assert Hash(S3) == Fold(0xE6, [0x33]);
    ZeroHashName();
  }

  /** `*"s1"_s + event<E> / act = "s2"_s`. */
  function Basic(): Table {
    [Transition(Starred(Literal(S1)), E.kind, Always, Act(1), Literal(S2))]
  }

  /** The machine starts in s1; E moves it to s2 running the action once;
      a second E finds nothing to do in s2. */
  lemma BasicStart()
    ensures RegionCount(Basic()) == 1
    ensures InitialRegions(Basic()) == [Hash(S1)]
  {
    Identifiers();
    InitialRegionsExact(Basic());
  }

  lemma BasicRun()
    ensures Process(Basic(), [Hash(S1)], E, 1) == Outcome([Hash(S2)], [Ran(1, E)])
  {
    Identifiers();
    var t := Basic();
    assert EventGroup(t, E.kind) == [0];
    assert [0][1..] == [];
  }

  lemma BasicIdle()
    ensures Process(Basic(), [Hash(S2)], E, 1) == Outcome([Hash(S2)], [])
  {
    Identifiers();
    var t := Basic();
    assert EventGroup(t, E.kind) == [0];
    assert [0][1..] == [];
  }

  /** Two transitions leave s1 on E and both guards hold: only the first,
      in declaration order, fires. */
  function Competing(): Table {
    [ Transition(Starred(Literal(S1)), E.kind, Always, Act(1), Literal(S2)),
      Transition(Literal(S1), E.kind, Check(7, _ => true), Act(2), Literal(S3)) ]
  }

  lemma CompetingGroup()
    ensures EventGroup(Competing(), E.kind) == [0, 1]
  {
    var t := Competing();
    assert t[..1] == [t[0]];
    assert EventGroup(t[..1], E.kind) == [0];
  }

  lemma CompetingRun()
    ensures Process(Competing(), [Hash(S1)], E, 1) == Outcome([Hash(S2)], [Ran(1, E)])
  {
    Identifiers();
    var t := Competing();
    CompetingGroup();
    assert Eligible(t[0], E, Hash(S1));
    ScanFirstMatch(t, [0, 1], E, Hash(S1), 0);
    assert [0, 1][..0] == [];
  }

  /** A transition without destination runs its action and stays put. */
  function Internal(): Table {
    [Transition(Starred(Literal(S1)), E.kind, Always, Act(3), Literal([]))]
  }

  lemma InternalRun()
    ensures Process(Internal(), [Hash(S1)], E, 1) == Outcome([Hash(S1)], [Ran(3, E)])
  {
    Identifiers();
    var t := Internal();
    assert EventGroup(t, E.kind) == [0];
    assert [0][1..] == [];
  }

  /** Two regions, one started in s1 and one in s3: E moves only the first,
      F only the second. */
  function TwoRegions(): Table {
    [ Transition(Starred(Literal(S1)), E.kind, Always, Act(1), Literal(S2)),
      Transition(Starred(Literal(S3)), F.kind, Always, Act(2), Literal(S1)) ]
  }

  lemma TwoRegionsGroups()
    ensures EventGroup(TwoRegions(), E.kind) == [0]
    ensures EventGroup(TwoRegions(), F.kind) == [1]
  {
    var t := TwoRegions();
    assert t[..1] == [t[0]];
    assert EventGroup(t[..1], E.kind) == [0];
    assert EventGroup(t[..1], F.kind) == [];
  }

  lemma TwoRegionsStart()
    ensures InitialRegions(TwoRegions()) == [Hash(S1), Hash(S3)]
  {
    Identifiers();
    InitialRegionsExact(TwoRegions());
  }

  lemma TwoRegionsOnE()
    ensures Process(TwoRegions(), [Hash(S1), Hash(S3)], E, 2).regions == [Hash(S2), Hash(S3)]
  {
    Identifiers();
    var t := TwoRegions();
    TwoRegionsGroups();
    assert [0][1..] == [];
    assert Dispatched(t, E, Hash(S1)).state == Hash(S2);
    assert Dispatched(t, E, Hash(S3)).state == Hash(S3);
  }

  lemma TwoRegionsOnF()
    ensures Process(TwoRegions(), [Hash(S1), Hash(S3)], F, 2).regions == [Hash(S1), Hash(S1)]
  {
    Identifiers();
    var t := TwoRegions();
    TwoRegionsGroups();
    assert [1][1..] == [];
    assert Dispatched(t, F, Hash(S1)).state == Hash(S1);
    assert Dispatched(t, F, Hash(S3)).state == Hash(S1);
  }

  /** The same source marked on two rows: every marked row counts as a
      region, so the machine has two regions that both start in s1, and E
      fires the same transition, and its action, in each of them. */
  function RepeatedMark(): Table {
    [ Transition(Starred(Literal(S1)), E.kind, Always, Act(1), Literal(S2)),
      Transition(Starred(Literal(S1)), F.kind, Always, Act(2), Literal(S3)) ]
  }

  lemma RepeatedMarkStart()
    ensures RegionCount(RepeatedMark()) == 2
    ensures InitialRegions(RepeatedMark()) == [Hash(S1), Hash(S1)]
  {
    Identifiers();
    InitialRegionsExact(RepeatedMark());
  }

  lemma RepeatedMarkFires()
    ensures Dispatched(RepeatedMark(), E, Hash(S1)) == Fired(true, Hash(S2), [Ran(1, E)])
  {
    Identifiers();
    var t := RepeatedMark();
    assert EventGroup(t, E.kind) == [0] by {
      assert t[..1] == [t[0]];
      assert EventGroup(t[..1], E.kind) == [0];
    }
    assert [0][1..] == [];
  }

  lemma RepeatedMarkRun()
    ensures Process(RepeatedMark(), [Hash(S1), Hash(S1)], E, 2)
      == Outcome([Hash(S2), Hash(S2)], [Ran(1, E), Ran(1, E)])
  {
    RepeatedMarkFires();
    var o := Process(RepeatedMark(), [Hash(S1), Hash(S1)], E, 2);
    assert o.regions == [Hash(S2), Hash(S2)];
    assert RegionEffects(RepeatedMark(), [Hash(S1), Hash(S1)], E, 1) == [Ran(1, E)];
  }

  /** `*"!B"` is marked but its identifier is 0: it seeds nothing, `*"s2"`
      takes region 0 and region 1 keeps 0. A source with the empty name
      (identifier 0) then fires in region 1. */
  function ZeroSeed(): Table {
    [ Transition(Starred(Literal(BangB)), E.kind, Always, NoAction, Literal(S1)),
      Transition(Starred(Literal(S2)), F.kind, Always, NoAction, Literal(S1)),
      Transition(Literal([]), F.kind, Always, Act(4), Literal(S3)) ]
  }

  lemma ZeroSeedGroup()
    ensures EventGroup(ZeroSeed(), F.kind) == [1, 2]
  {
    var t := ZeroSeed();
    assert t[..1] == [t[0]] && t[..2] == [t[0], t[1]];
    assert t[..2][..1] == t[..1];
    assert EventGroup(t[..1], F.kind) == [];
    assert EventGroup(t[..2], F.kind) == [1];
  }

  lemma ZeroSeedCandidates()
    ensures Candidates(ZeroSeed()) == [0, Hash(S2), 0]
  {
    Identifiers();
  }

  lemma ZeroSeedStart()
    ensures RegionCount(ZeroSeed()) == 2
    ensures InitialRegions(ZeroSeed()) == [Hash(S2), 0]
  {
    ZeroSeedCandidates();
    var h := Hash(S2);
    assert h != 0 by { Identifiers(); }
    assert NonZero([0]) == [];
    assert NonZero([h, 0]) == [h] + NonZero([0]);
    assert NonZero([0, h, 0]) == NonZero([h, 0]);
  }

  lemma ZeroSeedRun()
    ensures Process(ZeroSeed(), [Hash(S2), 0], F, 2) == Outcome([Hash(S1), Hash(S3)], [Ran(4, F)])
  {
    Identifiers();
    var t := ZeroSeed();
    ZeroSeedGroup();
    assert [1, 2][1..] == [2] && [2][1..] == [];
    assert Dispatched(t, F, Hash(S2)) == Fired(true, Hash(S1), []);
    assert Dispatched(t, F, 0) == Fired(true, Hash(S3), [Ran(4, F)]);
  }
}
