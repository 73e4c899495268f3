/** Format constants, enumerations and the stage table declared in
    RivalsReplayManager/src/ReplayRecord.hpp. */
module ReplayRecordDefs {
  import opened Failures

  /** Version::DIGITS: the number of version components. */
  const VERSION_DIGITS: nat := 4
  /** Name::MAX_LEN and Description::MAX_LEN, in codepoints. */
  const NAME_MAX_LEN: nat := 32
  const DESCRIPTION_MAX_LEN: nat := 140
  /** GameLength::MIN_LEN and GameLength::MAX_LEN, in frames. */
  const GAME_LENGTH_MIN: int := 0
  const GAME_LENGTH_MAX: int := 999_999

  // ----- MatchType::Type -----

  datatype MatchKind = Local | OnlineCasual | Friendly | Ranked

  /** The enumerator's value, which is also its wire digit. */
  function MatchKindValue(k: MatchKind): nat
  {
    match k
    case Local => 0
    case OnlineCasual => 1
    case Friendly => 2
    case Ranked => 3
  }

  /** The enumerator with value `v`, if `v` names one. */
  function MatchKindOf(v: int): Option<MatchKind>
  {
    if v == 0 then Some(Local)
    else if v == 1 then Some(OnlineCasual)
    else if v == 2 then Some(Friendly)
    else if v == 3 then Some(Ranked)
    else None
  }

  /** Exactly the values 0..3 name a match kind, and value and kind determine each other. */
  lemma MatchKindValues(v: int, k: MatchKind)
    ensures MatchKindOf(v).Some? <==> 0 <= v < 4
    ensures MatchKindValue(k) < 4 && MatchKindOf(MatchKindValue(k)) == Some(k)
    ensures MatchKindOf(v) == Some(k) <==> MatchKindValue(k) == v
  {
  }

  // ----- Stage -----

  datatype StageType = NoStageType | Aether | Basic

  /** Stage::Kind: every stage slot of the game, playable or not. */
  datatype StageKind =
    | TreetopLodge | FireCapital | AirArmada | TheRockWall | MerchantPort | BlazingHideout
    | TowerOfHeaven | TempestPeak | FrozenFortress | AetherialGates | TheCeoRing | TheSpiritTree
    | NeoFireCapital | TheSwampyEstuary | TheForestFloor | Julesvale | TroupplePond | AetherHigh
    | PridemoorKeep | FrozenGates | TheTutorialGrid | TheRoaRing | DiamondGrove | EndlessAbyss
    | TetherballCourt | UnavailablePracticeRoom | UnusedEmpty | UnusedTreetopLodge | UnusedGradient
    | UnusedTheTutorialGridX | UnusedGray | UnusedLocked | UnusedRandom | UnusedFireCapital
    | UnusedAirArmada | UnusedTheRockWall | UnusedMerchantPort | UnusedBlazingHideout
    | UnusedTowerOfHeaven | UnusedTempestPeak

  /** STAGE_TOTAL_COUNT: one past the largest Stage::Kind value. */
  const STAGE_TOTAL_COUNT: nat := 40

  /** The enumerator's value, which indexes the stage table. */
  function StageKindValue(k: StageKind): nat
  {
    match k
    case TreetopLodge => 1
    case FireCapital => 2
    case AirArmada => 3
    case TheRockWall => 4
    case MerchantPort => 5
    case BlazingHideout => 7
    case TowerOfHeaven => 8
    case TempestPeak => 9
    case FrozenFortress => 10
    case AetherialGates => 11
    case TheCeoRing => 14
    case TheSpiritTree => 15
    case NeoFireCapital => 17
    case TheSwampyEstuary => 18
    case TheForestFloor => 19
    case Julesvale => 20
    case TroupplePond => 21
    case AetherHigh => 23
    case PridemoorKeep => 24
    case FrozenGates => 25
    case TheTutorialGrid => 26
    case TheRoaRing => 27
    case DiamondGrove => 36
    case EndlessAbyss => 12
    case TetherballCourt => 29
    case UnavailablePracticeRoom => 22
    case UnusedEmpty => 0
    case UnusedTreetopLodge => 6
    case UnusedGradient => 13
    case UnusedTheTutorialGridX => 16
    case UnusedGray => 28
    case UnusedLocked => 30
    case UnusedRandom => 31
    case UnusedFireCapital => 32
    case UnusedAirArmada => 33
    case UnusedTheRockWall => 34
    case UnusedMerchantPort => 35
    case UnusedBlazingHideout => 37
    case UnusedTowerOfHeaven => 38
    case UnusedTempestPeak => 39
  }

  /** The enumerator with value `v`, if `v` names one; looked up ten values at a time. */
  function StageKindOf(v: int): Option<StageKind>
  {
    if v < 0 then None
    else if v < 10 then StageKindOf0(v)
    else if v < 20 then StageKindOf10(v)
    else if v < 30 then StageKindOf20(v)
    else if v < 40 then StageKindOf30(v)
    else None
  }

  function StageKindOf0(v: int): Option<StageKind>
  {
    if v == 0 then Some(UnusedEmpty)
    else if v == 1 then Some(TreetopLodge)
    else if v == 2 then Some(FireCapital)
    else if v == 3 then Some(AirArmada)
    else if v == 4 then Some(TheRockWall)
    else if v == 5 then Some(MerchantPort)
    else if v == 6 then Some(UnusedTreetopLodge)
    else if v == 7 then Some(BlazingHideout)
    else if v == 8 then Some(TowerOfHeaven)
    else if v == 9 then Some(TempestPeak)
    else None
  }

  function StageKindOf10(v: int): Option<StageKind>
  {
    if v == 10 then Some(FrozenFortress)
    else if v == 11 then Some(AetherialGates)
    else if v == 12 then Some(EndlessAbyss)
    else if v == 13 then Some(UnusedGradient)
    else if v == 14 then Some(TheCeoRing)
    else if v == 15 then Some(TheSpiritTree)
    else if v == 16 then Some(UnusedTheTutorialGridX)
    else if v == 17 then Some(NeoFireCapital)
    else if v == 18 then Some(TheSwampyEstuary)
    else if v == 19 then Some(TheForestFloor)
    else None
  }

  function StageKindOf20(v: int): Option<StageKind>
  {
    if v == 20 then Some(Julesvale)
    else if v == 21 then Some(TroupplePond)
    else if v == 22 then Some(UnavailablePracticeRoom)
    else if v == 23 then Some(AetherHigh)
    else if v == 24 then Some(PridemoorKeep)
    else if v == 25 then Some(FrozenGates)
    else if v == 26 then Some(TheTutorialGrid)
    else if v == 27 then Some(TheRoaRing)
    else if v == 28 then Some(UnusedGray)
    else if v == 29 then Some(TetherballCourt)
    else None
  }

  function StageKindOf30(v: int): Option<StageKind>
  {
    if v == 30 then Some(UnusedLocked)
    else if v == 31 then Some(UnusedRandom)
    else if v == 32 then Some(UnusedFireCapital)
    else if v == 33 then Some(UnusedAirArmada)
    else if v == 34 then Some(UnusedTheRockWall)
    else if v == 35 then Some(UnusedMerchantPort)
    else if v == 36 then Some(DiamondGrove)
    else if v == 37 then Some(UnusedBlazingHideout)
    else if v == 38 then Some(UnusedTowerOfHeaven)
    else if v == 39 then Some(UnusedTempestPeak)
    else None
  }

  /** The kinds the game does not offer: the UNUSED_* and UNAVAILABLE_* enumerators. */
  predicate IsPlaceholder(k: StageKind)
  {
    k.UnavailablePracticeRoom?
    || k.UnusedEmpty?
    || k.UnusedTreetopLodge?
    || k.UnusedGradient?
    || k.UnusedTheTutorialGridX?
    || k.UnusedGray?
    || k.UnusedLocked?
    || k.UnusedRandom?
    || k.UnusedFireCapital?
    || k.UnusedAirArmada?
    || k.UnusedTheRockWall?
    || k.UnusedMerchantPort?
    || k.UnusedBlazingHideout?
    || k.UnusedTowerOfHeaven?
    || k.UnusedTempestPeak?
  }

  /** A stage table entry, without its display name. */
  datatype StageProperty = StageProperty(isUsed: bool, isAetherAvailable: bool)

  /** LUT_STAGE_PROPERTY: the availability of each kind, indexed by value. The table is
      written column by column; entry `v` gathers the columns' entries `v`. */
  const LUT_STAGE_PROPERTY: seq<StageProperty> :=
    seq(STAGE_TOTAL_COUNT, v requires 0 <= v < STAGE_TOTAL_COUNT =>
      StageProperty(STAGE_IS_USED[v], STAGE_IS_AETHER_AVAILABLE[v]))

  /** The `isUsed` column of the stage table. */
  const STAGE_IS_USED: seq<bool> := [
    false, true, true, true, true, true, false, true, true, true,
    true, true, true, false, true, true, false, true, true, true,
    true, true, false, true, true, true, true, true, false, true,
    false, false, false, false, false, false, true, false, false, false
  ]

  /** The `isAetherAvailable` column of the stage table. */
  const STAGE_IS_AETHER_AVAILABLE: seq<bool> := [
    false, true, true, true, true, true, true, true, true, true,
    true, true, true, true, false, true, false, false, false, true,
    true, true, false, false, false, false, false, false, false, false,
    false, false, false, false, false, false, false, false, false, false
  ]

  /** Stage::Kind values run exactly over 0..STAGE_TOTAL_COUNT-1, one kind per value, so the
      table has exactly one entry per kind. */
  lemma StageKindValues(v: int, k: StageKind)
    ensures |LUT_STAGE_PROPERTY| == STAGE_TOTAL_COUNT
    ensures StageKindOf(v).Some? <==> 0 <= v < STAGE_TOTAL_COUNT
    ensures StageKindValue(k) < STAGE_TOTAL_COUNT && StageKindOf(StageKindValue(k)) == Some(k)
    ensures StageKindOf(v) == Some(k) <==> StageKindValue(k) == v
  {
    StageKindOfValue(k);
    if 0 <= v < STAGE_TOTAL_COUNT {
      StageValueOfKind(v);
    }
  }

  /** Looking up a kind's value gives the kind back. */
  lemma StageKindOfValue(k: StageKind)
    ensures StageKindValue(k) < STAGE_TOTAL_COUNT && StageKindOf(StageKindValue(k)) == Some(k)
  {
    match k
    case TreetopLodge => assert StageKindOf(1) == Some(TreetopLodge);
    case FireCapital => assert StageKindOf(2) == Some(FireCapital);
    case AirArmada => assert StageKindOf(3) == Some(AirArmada);
    case TheRockWall => assert StageKindOf(4) == Some(TheRockWall);
    case MerchantPort => assert StageKindOf(5) == Some(MerchantPort);
    case BlazingHideout => assert StageKindOf(7) == Some(BlazingHideout);
    case TowerOfHeaven => assert StageKindOf(8) == Some(TowerOfHeaven);
    case TempestPeak => assert StageKindOf(9) == Some(TempestPeak);
    case FrozenFortress => assert StageKindOf(10) == Some(FrozenFortress);
    case AetherialGates => assert StageKindOf(11) == Some(AetherialGates);
    case TheCeoRing => assert StageKindOf(14) == Some(TheCeoRing);
    case TheSpiritTree => assert StageKindOf(15) == Some(TheSpiritTree);
    case NeoFireCapital => assert StageKindOf(17) == Some(NeoFireCapital);
    case TheSwampyEstuary => assert StageKindOf(18) == Some(TheSwampyEstuary);
    case TheForestFloor => assert StageKindOf(19) == Some(TheForestFloor);
    case Julesvale => assert StageKindOf(20) == Some(Julesvale);
    case TroupplePond => assert StageKindOf(21) == Some(TroupplePond);
    case AetherHigh => assert StageKindOf(23) == Some(AetherHigh);
    case PridemoorKeep => assert StageKindOf(24) == Some(PridemoorKeep);
    case FrozenGates => assert StageKindOf(25) == Some(FrozenGates);
    case TheTutorialGrid => assert StageKindOf(26) == Some(TheTutorialGrid);
    case TheRoaRing => assert StageKindOf(27) == Some(TheRoaRing);
    case DiamondGrove => assert StageKindOf(36) == Some(DiamondGrove);
    case EndlessAbyss => assert StageKindOf(12) == Some(EndlessAbyss);
    case TetherballCourt => assert StageKindOf(29) == Some(TetherballCourt);
    case UnavailablePracticeRoom => assert StageKindOf(22) == Some(UnavailablePracticeRoom);
    case UnusedEmpty => assert StageKindOf(0) == Some(UnusedEmpty);
    case UnusedTreetopLodge => assert StageKindOf(6) == Some(UnusedTreetopLodge);
    case UnusedGradient => assert StageKindOf(13) == Some(UnusedGradient);
    case UnusedTheTutorialGridX => assert StageKindOf(16) == Some(UnusedTheTutorialGridX);
    case UnusedGray => assert StageKindOf(28) == Some(UnusedGray);
    case UnusedLocked => assert StageKindOf(30) == Some(UnusedLocked);
    case UnusedRandom => assert StageKindOf(31) == Some(UnusedRandom);
    case UnusedFireCapital => assert StageKindOf(32) == Some(UnusedFireCapital);
    case UnusedAirArmada => assert StageKindOf(33) == Some(UnusedAirArmada);
    case UnusedTheRockWall => assert StageKindOf(34) == Some(UnusedTheRockWall);
    case UnusedMerchantPort => assert StageKindOf(35) == Some(UnusedMerchantPort);
    case UnusedBlazingHideout => assert StageKindOf(37) == Some(UnusedBlazingHideout);
    case UnusedTowerOfHeaven => assert StageKindOf(38) == Some(UnusedTowerOfHeaven);
    case UnusedTempestPeak => assert StageKindOf(39) == Some(UnusedTempestPeak);
  }

  /** Every value in 0..STAGE_TOTAL_COUNT-1 names a kind, and it is that kind's value. */
  lemma StageValueOfKind(v: int)
    requires 0 <= v < STAGE_TOTAL_COUNT
    ensures StageKindOf(v).Some? && StageKindValue(StageKindOf(v).value) == v
  {
    if v < 10 {
      StageValuesFrom0(v);
    } else if v < 20 {
      StageValuesFrom10(v);
    } else if v < 30 {
      StageValuesFrom20(v);
    } else if v < 40 {
      StageValuesFrom30(v);
    }
  }

  lemma StageValuesFrom0(v: int)
    requires 0 <= v < 10
    ensures StageKindOf0(v).Some? && StageKindValue(StageKindOf0(v).value) == v
  {
    if v == 0 {
      assert StageKindOf0(0) == Some(UnusedEmpty);
    } else if v == 1 {
      assert StageKindOf0(1) == Some(TreetopLodge);
    } else if v == 2 {
      assert StageKindOf0(2) == Some(FireCapital);
    } else if v == 3 {
      assert StageKindOf0(3) == Some(AirArmada);
    } else if v == 4 {
      assert StageKindOf0(4) == Some(TheRockWall);
    } else if v == 5 {
      assert StageKindOf0(5) == Some(MerchantPort);
    } else if v == 6 {
      assert StageKindOf0(6) == Some(UnusedTreetopLodge);
    } else if v == 7 {
      assert StageKindOf0(7) == Some(BlazingHideout);
    } else if v == 8 {
      assert StageKindOf0(8) == Some(TowerOfHeaven);
    } else if v == 9 {
      assert StageKindOf0(9) == Some(TempestPeak);
    }
  }

  lemma StageValuesFrom10(v: int)
    requires 10 <= v < 20
    ensures StageKindOf10(v).Some? && StageKindValue(StageKindOf10(v).value) == v
  {
    if v == 10 {
      assert StageKindOf10(10) == Some(FrozenFortress);
    } else if v == 11 {
      assert StageKindOf10(11) == Some(AetherialGates);
    } else if v == 12 {
      assert StageKindOf10(12) == Some(EndlessAbyss);
    } else if v == 13 {
      assert StageKindOf10(13) == Some(UnusedGradient);
    } else if v == 14 {
      assert StageKindOf10(14) == Some(TheCeoRing);
    } else if v == 15 {
      assert StageKindOf10(15) == Some(TheSpiritTree);
    } else if v == 16 {
      assert StageKindOf10(16) == Some(UnusedTheTutorialGridX);
    } else if v == 17 {
      assert StageKindOf10(17) == Some(NeoFireCapital);
    } else if v == 18 {
      assert StageKindOf10(18) == Some(TheSwampyEstuary);
    } else if v == 19 {
      assert StageKindOf10(19) == Some(TheForestFloor);
    }
  }

  lemma StageValuesFrom20(v: int)
    requires 20 <= v < 30
    ensures StageKindOf20(v).Some? && StageKindValue(StageKindOf20(v).value) == v
  {
    if v == 20 {
      assert StageKindOf20(20) == Some(Julesvale);
    } else if v == 21 {
      assert StageKindOf20(21) == Some(TroupplePond);
    } else if v == 22 {
      assert StageKindOf20(22) == Some(UnavailablePracticeRoom);
    } else if v == 23 {
      assert StageKindOf20(23) == Some(AetherHigh);
    } else if v == 24 {
      assert StageKindOf20(24) == Some(PridemoorKeep);
    } else if v == 25 {
      assert StageKindOf20(25) == Some(FrozenGates);
    } else if v == 26 {
      assert StageKindOf20(26) == Some(TheTutorialGrid);
    } else if v == 27 {
      assert StageKindOf20(27) == Some(TheRoaRing);
    } else if v == 28 {
      assert StageKindOf20(28) == Some(UnusedGray);
    } else if v == 29 {
      assert StageKindOf20(29) == Some(TetherballCourt);
    }
  }

  lemma StageValuesFrom30(v: int)
    requires 30 <= v < 40
    ensures StageKindOf30(v).Some? && StageKindValue(StageKindOf30(v).value) == v
  {
    if v == 30 {
      assert StageKindOf30(30) == Some(UnusedLocked);
    } else if v == 31 {
      assert StageKindOf30(31) == Some(UnusedRandom);
    } else if v == 32 {
      assert StageKindOf30(32) == Some(UnusedFireCapital);
    } else if v == 33 {
      assert StageKindOf30(33) == Some(UnusedAirArmada);
    } else if v == 34 {
      assert StageKindOf30(34) == Some(UnusedTheRockWall);
    } else if v == 35 {
      assert StageKindOf30(35) == Some(UnusedMerchantPort);
    } else if v == 36 {
      assert StageKindOf30(36) == Some(DiamondGrove);
    } else if v == 37 {
      assert StageKindOf30(37) == Some(UnusedBlazingHideout);
    } else if v == 38 {
      assert StageKindOf30(38) == Some(UnusedTowerOfHeaven);
    } else if v == 39 {
      assert StageKindOf30(39) == Some(UnusedTempestPeak);
    }
  }

  /** The values 0, 6, 13, 16, 22, 28, 30-35 and 37-39. */
  predicate UnusedValue(v: int)
  {
    v == 0 || v == 6 || v == 13 || v == 16 || v == 22 || v == 28 || 30 <= v <= 35 || 37 <= v <= 39
  }

  /** The table marks an entry unused exactly at the values 0, 6, 13, 16, 22, 28, 30-35 and
      37-39. */
  lemma StageUnusedValues(v: int)
    requires 0 <= v < STAGE_TOTAL_COUNT
    ensures !LUT_STAGE_PROPERTY[v].isUsed <==> UnusedValue(v)
  {
    assert LUT_STAGE_PROPERTY[v].isUsed == STAGE_IS_USED[v];
  }

  /** The placeholder kinds are exactly the kinds with those values. */
  lemma PlaceholderValues(k: StageKind)
    ensures IsPlaceholder(k) <==> UnusedValue(StageKindValue(k))
  {
  }

  /** A kind's table entry is marked used exactly when the kind is not a placeholder. */
  lemma StageUsedUnlessPlaceholder(k: StageKind)
    ensures LUT_STAGE_PROPERTY[StageKindValue(k)].isUsed <==> !IsPlaceholder(k)
  {
    PlaceholderValues(k);
    StageUnusedValues(StageKindValue(k));
  }

  /** A stage selection: the Aether/basic variant and the stage kind. */
  datatype Stage = Stage(isAether: bool, kind: StageKind)

  // ----- Character -----

  /** Character::Kind: the built-in roster. */
  datatype CharacterKind =
    | Unused0 | Unused1 | Zetterburn | Orcane | Wrastor | Kragg | Forsburn | Maypul | Absa | Etalus
    | Ori | Ranno | Clairen | Sylvanos | Elliana | ShovelKnight

  /** CHAR_TOTAL_COUNT: one past the largest Character::Kind value. */
  const CHAR_TOTAL_COUNT: nat := 16

  function CharacterKindValue(k: CharacterKind): nat
  {
    match k
    case Unused0 => 0
    case Unused1 => 1
    case Zetterburn => 2
    case Orcane => 3
    case Wrastor => 4
    case Kragg => 5
    case Forsburn => 6
    case Maypul => 7
    case Absa => 8
    case Etalus => 9
    case Ori => 10
    case Ranno => 11
    case Clairen => 12
    case Sylvanos => 13
    case Elliana => 14
    case ShovelKnight => 15
  }

  function CharacterKindOf(v: int): Option<CharacterKind>
  {
    if v == 0 then Some(Unused0)
    else if v == 1 then Some(Unused1)
    else if v == 2 then Some(Zetterburn)
    else if v == 3 then Some(Orcane)
    else if v == 4 then Some(Wrastor)
    else if v == 5 then Some(Kragg)
    else if v == 6 then Some(Forsburn)
    else if v == 7 then Some(Maypul)
    else if v == 8 then Some(Absa)
    else if v == 9 then Some(Etalus)
    else if v == 10 then Some(Ori)
    else if v == 11 then Some(Ranno)
    else if v == 12 then Some(Clairen)
    else if v == 13 then Some(Sylvanos)
    else if v == 14 then Some(Elliana)
    else if v == 15 then Some(ShovelKnight)
    else None
  }

  /** Character::Kind values run exactly over 0..CHAR_TOTAL_COUNT-1, one kind per value. */
  lemma CharacterKindValues(v: int, k: CharacterKind)
    ensures CharacterKindOf(v).Some? <==> 0 <= v < CHAR_TOTAL_COUNT
    ensures CharacterKindValue(k) < CHAR_TOTAL_COUNT && CharacterKindOf(CharacterKindValue(k)) == Some(k)
    ensures CharacterKindOf(v) == Some(k) <==> CharacterKindValue(k) == v
  {
  }
}
