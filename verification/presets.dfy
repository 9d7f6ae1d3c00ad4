/**
  The editing presets: each fetches `playerData` from the record (an empty
  object when it is absent), overwrites a fixed list of its keys in order,
  and stores it back under `playerData`.
 */
module Presets {
  import opened Results
  import opened Json

  type Fields = map<string, Json>

  const PlayerData := "playerData"

  /** Why Python would raise before any assignment lands. */
  datatype PresetError =
    | NotAnObject          // the record has no `.get` (AttributeError)
    | PlayerDataNotObject  // `playerData` holds a value that rejects item assignment (TypeError)

  // ---------------------------------------------------------------- sequential assignment

  /**
    A preset's item assignments `player_data[key] = value` are grouped into
    blocks, each a map display written in source order (so a later entry for
    the same key wins, as a later assignment does), and the blocks are
    carried out from first to last.
   */
  function Assign(m: Fields, blocks: seq<Fields>): (r: Fields)
    ensures forall k :: k in r <==> k in m || exists i :: 0 <= i < |blocks| && k in blocks[i]
    ensures forall k :: k in r && (forall i :: 0 <= i < |blocks| ==> k !in blocks[i]) ==> r[k] == m[k]
    decreases |blocks|
  {
    if |blocks| == 0 then m
    else
      var r := Assign(m + blocks[0], blocks[1..]);
      assert forall i :: 1 <= i < |blocks| ==> blocks[i] == blocks[1..][i - 1];
      r
  }

  /** Two rounds of assignments are one round of their concatenation. */
  lemma {:induction false} AssignAppend(m: Fields, u: seq<Fields>, v: seq<Fields>)
    ensures Assign(Assign(m, u), v) == Assign(m, u + v)
    decreases |u|
  {
    if |u| == 0 {
      assert u + v == v;
    } else {
      assert (u + v)[0] == u[0];
      assert (u + v)[1..] == u[1..] + v;
      AssignAppend(m + u[0], u[1..], v);
    }
  }

  /** A single block overrides exactly its own keys. */
  lemma AssignOne(m: Fields, block: Fields)
    ensures Assign(m, [block]) == m + block
  {
    assert [block][1..] == [];
  }

  // ---------------------------------------------------------------- the shared shape of a preset

  /** Python can run the preset without raising. */
  predicate Editable(save: Json) {
    save.JObj? && (PlayerData in save.fields ==> save.fields[PlayerData].JObj?)
  }

  /** `save_data.get('playerData', {})` on an editable record. */
  function PlayerFields(save: Json): Fields
    requires Editable(save)
  {
    if PlayerData in save.fields then save.fields[PlayerData].fields else map[]
  }

  /**
    What every preset promises about the record as a whole: it raises exactly
    when Python would, with the matching error, and otherwise `playerData` is
    the only top-level key that is added or changed, and it holds an object.
   */
  predicate TopLevelOutcome(save: Json, r: Result<Json, PresetError>) {
    && (r.Success? <==> Editable(save))
    && (!save.JObj? ==> r == Failure(NotAnObject))
    && (save.JObj? && !Editable(save) ==> r == Failure(PlayerDataNotObject))
    && (r.Success? && save.JObj? ==>
          && Editable(r.value)
          && r.value.fields.Keys == save.fields.Keys + {PlayerData}
          && forall k :: k in save.fields && k != PlayerData ==> r.value.fields[k] == save.fields[k])
  }

  /**
    A preset that performs the assignments `u`: fails exactly when Python
    would raise; otherwise only `playerData` changes at the top level, and
    it becomes the old player fields (or an empty object) after `u`.
   */
  function ApplyPreset(save: Json, u: seq<Fields>): (r: Result<Json, PresetError>)
    ensures TopLevelOutcome(save, r)
    ensures r.Success? ==> Editable(r.value) && PlayerFields(r.value) == Assign(PlayerFields(save), u)
  {
    if !save.JObj? then Failure(NotAnObject)
    else if PlayerData in save.fields && !save.fields[PlayerData].JObj? then Failure(PlayerDataNotObject)
    else Success(JObj(save.fields[PlayerData := JObj(Assign(PlayerFields(save), u))]))
  }

  /** Running two presets in turn is one preset doing both lists of assignments. */
  lemma PresetsCompose(save: Json, u: seq<Fields>, v: seq<Fields>)
    ensures ApplyPreset(save, u).Success? ==>
      ApplyPreset(ApplyPreset(save, u).value, v) == ApplyPreset(save, u + v)
  {
    if ApplyPreset(save, u).Success? {
      var s1 := ApplyPreset(save, u).value;
      AssignAppend(PlayerFields(save), u, v);
      assert s1.fields[PlayerData := JObj(Assign(PlayerFields(s1), v))]
          == save.fields[PlayerData := JObj(Assign(PlayerFields(save), u + v))];
    }
  }

  // ---------------------------------------------------------------- the presets

  const HealthAndSoul: Fields := map[
    "health" := JNum(13), "maxHealth" := JNum(13), "maxHealthBase" := JNum(9),
    "heartPieces" := JNum(16), "heartPieceCollected" := JBool(true), "maxHealthCap" := JNum(13),
    "heartPieceMax" := JBool(true), "CurrentMaxHealth" := JNum(13),
    "maxMP" := JNum(99), "MPCharge" := JNum(99), "MPReserve" := JNum(99),
    "MPReserveMax" := JNum(99), "vesselFragments" := JNum(9), "vesselFragmentCollected" := JBool(true),
    "MPReserveCap" := JNum(99), "vesselFragmentMax" := JBool(true)]

  /** `maximize_health_and_soul`. */
  function MaximizeHealthAndSoul(save: Json): (r: Result<Json, PresetError>)
    ensures TopLevelOutcome(save, r)
  {
    ApplyPreset(save, [HealthAndSoul])
  }

  const GeoBlock: Fields := map["geo" := JNum(9999999)]

  /** `give_max_geo`. */
  function GiveMaxGeo(save: Json): (r: Result<Json, PresetError>)
    ensures TopLevelOutcome(save, r)
  {
    ApplyPreset(save, [GeoBlock])
  }

  /** The decimal digits of `n`, as Python's `f'{n}'` writes them. */
  function Decimal(n: nat): (s: string)
    decreases n
  {
    if n < 10 then [(48 + n) as char] else Decimal(n / 10) + [(48 + n % 10) as char]
  }

  function GotCharm(i: nat): string { "gotCharm_" + Decimal(i) }
  function NewCharm(i: nat): string { "newCharm_" + Decimal(i) }
  function EquippedCharm(i: nat): string { "equippedCharm_" + Decimal(i) }

  const CharmsBefore: Fields := map[
    "charmSlots" := JNum(11), "charmsOwned" := JNum(40), "charmBenchMsg" := JBool(true),
    "canOvercharm" := JBool(true), "overcharmed" := JBool(false)]

  /** Iteration `i` of the `for i in range(1, 41)` loop. */
  function CharmBlock(i: nat): Fields {
    map[GotCharm(i) := JBool(true), NewCharm(i) := JBool(false), EquippedCharm(i) := JBool(false)]
  }

  /** Iterations `i..40` of the loop. */
  function CharmLoop(i: nat): seq<Fields>
    requires 1 <= i <= 41
    decreases 41 - i
  {
    if i == 41 then [] else [CharmBlock(i)] + CharmLoop(i + 1)
  }

  const CharmsAfter: Fields := map[
    "equippedCharms" := JArr([]), "fragileHealth_unbreakable" := JBool(true),
    "fragileGreed_unbreakable" := JBool(true), "fragileStrength_unbreakable" := JBool(true)]

  const CharmBlocks: seq<Fields> := [CharmsBefore] + CharmLoop(1) + [CharmsAfter]

  /** `unlock_all_charms`. */
  function UnlockAllCharms(save: Json): (r: Result<Json, PresetError>)
    ensures TopLevelOutcome(save, r)
  {
    ApplyPreset(save, CharmBlocks)
  }

  const Abilities: Fields := map[
    "canDash" := JBool(true), "hasDash" := JBool(true), "canWallJump" := JBool(true),
    "hasWalljump" := JBool(true), "canSuperDash" := JBool(true), "hasSuperDash" := JBool(true),
    "canShadowDash" := JBool(true), "hasShadowDash" := JBool(true), "hasDoubleJump" := JBool(true),
    "hasAcidArmour" := JBool(true),
    "hasDreamNail" := JBool(true), "dreamNailUpgraded" := JBool(true), "hasDreamGate" := JBool(true),
    "hasKingsBrand" := JBool(true), "hasLantern" := JBool(true), "hasQuill" := JBool(true),
    "hasMap" := JBool(true), "mapAllRooms" := JBool(true),
    "hasSpell" := JBool(true), "hasNailArt" := JBool(true), "hasCyclone" := JBool(true),
    "hasDashSlash" := JBool(true), "hasUpwardSlash" := JBool(true), "hasAllNailArts" := JBool(true)]

  /** `unlock_all_abilities`. */
  function UnlockAllAbilities(save: Json): (r: Result<Json, PresetError>)
    ensures TopLevelOutcome(save, r)
  {
    ApplyPreset(save, [Abilities])
  }

  const NailAndSpells: Fields := map[
    "nailDamage" := JNum(4), "honedNail" := JBool(true), "nailSmithUpgrades" := JNum(4),
    "fireballLevel" := JNum(2), "quakeLevel" := JNum(2), "screamLevel" := JNum(2)]

  /** `upgrade_nail_and_spells`. */
  function UpgradeNailAndSpells(save: Json): (r: Result<Json, PresetError>)
    ensures TopLevelOutcome(save, r)
  {
    ApplyPreset(save, [NailAndSpells])
  }

  // ---------------------------------------------------------------- what each preset does

  /** A preset made of one block of assignments: that block overrides its keys, nothing else changes. */
  lemma OneBlockPreset(save: Json, block: Fields)
    requires Editable(save)
    ensures ApplyPreset(save, [block]).Success?
    ensures PlayerFields(ApplyPreset(save, [block]).value) == PlayerFields(save) + block
  {
    AssignOne(PlayerFields(save), block);
  }

  /** `give_max_geo` sets `geo` to 9999999, creating `playerData` if needed, and changes nothing else. */
  lemma GiveMaxGeoEffect(save: Json)
    requires Editable(save)
    ensures GiveMaxGeo(save).Success?
    ensures PlayerFields(GiveMaxGeo(save).value) == PlayerFields(save)["geo" := JNum(9999999)]
  {
    OneBlockPreset(save, GeoBlock);
    assert PlayerFields(save) + GeoBlock == PlayerFields(save)["geo" := JNum(9999999)];
  }

  /** `maximize_health_and_soul` overrides exactly the health and soul keys. */
  lemma MaximizeHealthAndSoulEffect(save: Json)
    requires Editable(save)
    ensures MaximizeHealthAndSoul(save).Success?
    ensures PlayerFields(MaximizeHealthAndSoul(save).value) == PlayerFields(save) + HealthAndSoul
  {
    OneBlockPreset(save, HealthAndSoul);
  }

  /** `unlock_all_abilities` overrides exactly the ability keys. */
  lemma UnlockAllAbilitiesEffect(save: Json)
    requires Editable(save)
    ensures UnlockAllAbilities(save).Success?
    ensures PlayerFields(UnlockAllAbilities(save).value) == PlayerFields(save) + Abilities
  {
    OneBlockPreset(save, Abilities);
  }

  /** `upgrade_nail_and_spells` overrides exactly the nail and spell keys. */
  lemma UpgradeNailAndSpellsEffect(save: Json)
    requires Editable(save)
    ensures UpgradeNailAndSpells(save).Success?
    ensures PlayerFields(UpgradeNailAndSpells(save).value) == PlayerFields(save) + NailAndSpells
  {
    OneBlockPreset(save, NailAndSpells);
  }

  /** `k` is one of the keys the loop writes in iterations `lo..40`. */
  ghost predicate CharmKeyFrom(k: string, lo: nat) {
    exists j :: lo <= j <= 40 && (k == GotCharm(j) || k == NewCharm(j) || k == EquippedCharm(j))
  }

  /** The three key families never meet: they differ in their first character. */
  lemma CharmKeyHeads(i: nat)
    ensures GotCharm(i)[0] == 'g' && NewCharm(i)[0] == 'n' && EquippedCharm(i)[0] == 'e'
    ensures |EquippedCharm(i)| > 13 && EquippedCharm(i)[13] == '_'
  {
  }

  /** One iteration writes its three keys and nothing else. */
  lemma CharmBlockEntries(i: nat)
    ensures CharmBlock(i).Keys == {GotCharm(i), NewCharm(i), EquippedCharm(i)}
    ensures CharmBlock(i)[GotCharm(i)] == JBool(true)
    ensures CharmBlock(i)[NewCharm(i)] == JBool(false)
    ensures CharmBlock(i)[EquippedCharm(i)] == JBool(false)
  {
    CharmKeyHeads(i);
  }

  lemma CharmBlockOnly(k: string, i: nat)
    requires k != GotCharm(i) && k != NewCharm(i) && k != EquippedCharm(i)
    ensures k !in CharmBlock(i)
  {
  }

  /** A key written by a later iteration is of the same family as an earlier one only if it is the same key. */
  lemma CharmKeyLater(k: string, i: nat)
    requires 1 <= i <= 40 && CharmKeyFrom(k, i + 1)
    ensures k == GotCharm(i) ==> exists j :: i + 1 <= j <= 40 && k == GotCharm(j)
    ensures k == NewCharm(i) ==> exists j :: i + 1 <= j <= 40 && k == NewCharm(j)
    ensures k == EquippedCharm(i) ==> exists j :: i + 1 <= j <= 40 && k == EquippedCharm(j)
  {
    var j :| i + 1 <= j <= 40 && (k == GotCharm(j) || k == NewCharm(j) || k == EquippedCharm(j));
    CharmKeyHeads(i);
    CharmKeyHeads(j);
  }

  lemma BeforeKeyShape(k: string)
    requires k in CharmsBefore
    ensures |k| > 0 && (k[0] == 'c' || k[0] == 'o')
  {
  }

  lemma EquippedListCleared()
    ensures "equippedCharms" in CharmsAfter && CharmsAfter["equippedCharms"] == JArr([])
  {
  }

  lemma AfterKeyShape(k: string)
    requires k in CharmsAfter
    ensures k == "equippedCharms" || (|k| > 0 && k[0] == 'f')
  {
  }

  /** The effect of iterations `i..40` on the fields `q`. */
  ghost predicate LoopDone(q: Fields, r: Fields, i: nat) {
    && (forall j :: i <= j <= 40 ==> GotCharm(j) in r && r[GotCharm(j)] == JBool(true))
    && (forall j :: i <= j <= 40 ==> NewCharm(j) in r && r[NewCharm(j)] == JBool(false))
    && (forall j :: i <= j <= 40 ==> EquippedCharm(j) in r && r[EquippedCharm(j)] == JBool(false))
    && (forall k :: !CharmKeyFrom(k, i) ==> (k in r <==> k in q) && (k in q ==> r[k] == q[k]))
  }

  /** Iteration `i` followed by iterations `i+1..40` is iterations `i..40`: the charm keys of `i`. */
  lemma CharmStepOwn(q: Fields, r: Fields, i: nat)
    requires 1 <= i <= 40 && LoopDone(q + CharmBlock(i), r, i + 1)
    ensures GotCharm(i) in r && r[GotCharm(i)] == JBool(true)
    ensures NewCharm(i) in r && r[NewCharm(i)] == JBool(false)
    ensures EquippedCharm(i) in r && r[EquippedCharm(i)] == JBool(false)
  {
    CharmBlockEntries(i);
    if CharmKeyFrom(GotCharm(i), i + 1) {
      CharmKeyLater(GotCharm(i), i);
    }
    if CharmKeyFrom(NewCharm(i), i + 1) {
      CharmKeyLater(NewCharm(i), i);
    }
    if CharmKeyFrom(EquippedCharm(i), i + 1) {
      CharmKeyLater(EquippedCharm(i), i);
    }
  }

  /** Iteration `i` followed by iterations `i+1..40`: the keys no iteration from `i` on writes. */
  lemma CharmStepOthers(q: Fields, r: Fields, i: nat)
    requires 1 <= i <= 40 && LoopDone(q + CharmBlock(i), r, i + 1)
    ensures forall k :: !CharmKeyFrom(k, i) ==> (k in r <==> k in q) && (k in q ==> r[k] == q[k])
  {
    forall k | !CharmKeyFrom(k, i)
      ensures (k in r <==> k in q) && (k in q ==> r[k] == q[k])
    {
      assert k != GotCharm(i) && k != NewCharm(i) && k != EquippedCharm(i);
      CharmBlockOnly(k, i);
    }
  }

  lemma CharmStep(q: Fields, r: Fields, i: nat)
    requires 1 <= i <= 40 && LoopDone(q + CharmBlock(i), r, i + 1)
    ensures LoopDone(q, r, i)
  {
    CharmStepOwn(q, r, i);
    CharmStepOthers(q, r, i);
  }

  /** Iterations `i..40` of the loop: each charm owned, not new, not equipped; other keys untouched. */
  lemma {:induction false} CharmLoopEffect(q: Fields, i: nat)
    requires 1 <= i <= 41
    ensures LoopDone(q, Assign(q, CharmLoop(i)), i)
    decreases 41 - i
  {
    if i == 41 {
      assert CharmLoop(i) == [];
      assert Assign(q, []) == q;
      forall k ensures !CharmKeyFrom(k, 41) { }
    } else {
      var b := CharmBlock(i);
      var rest := CharmLoop(i + 1);
      assert ([b] + rest)[0] == b;
      assert ([b] + rest)[1..] == rest;
      assert Assign(q, CharmLoop(i)) == Assign(q + b, rest);
      CharmLoopEffect(q + b, i + 1);
      CharmStep(q, Assign(q + b, rest), i);
    }
  }

  /** No key of the fixed blocks is a loop key, and the loop keys are not overwritten afterwards. */
  lemma CharmBlocksApart()
    ensures forall j :: 1 <= j <= 40 ==>
      GotCharm(j) !in CharmsAfter && NewCharm(j) !in CharmsAfter && EquippedCharm(j) !in CharmsAfter
    ensures forall k :: k in CharmsBefore ==> !CharmKeyFrom(k, 1) && k !in CharmsAfter
  {
    forall j | 1 <= j <= 40
      ensures GotCharm(j) !in CharmsAfter && NewCharm(j) !in CharmsAfter && EquippedCharm(j) !in CharmsAfter
    {
      CharmKeyHeads(j);
      if GotCharm(j) in CharmsAfter { AfterKeyShape(GotCharm(j)); }
      if NewCharm(j) in CharmsAfter { AfterKeyShape(NewCharm(j)); }
      if EquippedCharm(j) in CharmsAfter { AfterKeyShape(EquippedCharm(j)); }
    }
    forall k | k in CharmsBefore
      ensures !CharmKeyFrom(k, 1) && k !in CharmsAfter
    {
      BeforeKeyShape(k);
      if CharmKeyFrom(k, 1) {
        var j :| 1 <= j <= 40 && (k == GotCharm(j) || k == NewCharm(j) || k == EquippedCharm(j));
        CharmKeyHeads(j);
      }
      if k in CharmsAfter {
        AfterKeyShape(k);
      }
    }
  }

  /** The fields `unlock_all_charms` leaves: the fixed block, the loop, then the closing block. */
  lemma UnlockAllCharmsShape(save: Json)
    requires Editable(save)
    ensures UnlockAllCharms(save).Success?
    ensures PlayerFields(UnlockAllCharms(save).value)
         == Assign(PlayerFields(save) + CharmsBefore, CharmLoop(1)) + CharmsAfter
  {
    var p := PlayerFields(save);
    var loop := CharmLoop(1);
    assert CharmBlocks == [CharmsBefore] + loop + [CharmsAfter];
    AssignAppend(p, [CharmsBefore], loop);
    AssignAppend(p, [CharmsBefore] + loop, [CharmsAfter]);
    AssignOne(p, CharmsBefore);
    AssignOne(Assign(p + CharmsBefore, loop), CharmsAfter);
  }

  /**
    `unlock_all_charms`: for every charm 1..40 `gotCharm_i` is true and
    `newCharm_i`, `equippedCharm_i` are false; `equippedCharms` is the empty
    list; the fixed charm keys take their listed values; every other key of
    `playerData` is exactly as before.
   */
  lemma UnlockAllCharmsEffect(save: Json)
    requires Editable(save)
    ensures UnlockAllCharms(save).Success?
    ensures var p, p' := PlayerFields(save), PlayerFields(UnlockAllCharms(save).value);
      && (forall i :: 1 <= i <= 40 ==> GotCharm(i) in p' && p'[GotCharm(i)] == JBool(true))
      && (forall i :: 1 <= i <= 40 ==> NewCharm(i) in p' && p'[NewCharm(i)] == JBool(false))
      && (forall i :: 1 <= i <= 40 ==> EquippedCharm(i) in p' && p'[EquippedCharm(i)] == JBool(false))
      && "equippedCharms" in p' && p'["equippedCharms"] == JArr([])
      && (forall k :: k in CharmsBefore ==> k in p' && p'[k] == CharmsBefore[k])
      && (forall k :: k in CharmsAfter ==> k in p' && p'[k] == CharmsAfter[k])
      && (forall k :: k !in CharmsBefore && k !in CharmsAfter && !CharmKeyFrom(k, 1) ==>
            (k in p' <==> k in p) && (k in p ==> p'[k] == p[k]))
  {
    var p := PlayerFields(save);
    UnlockAllCharmsShape(save);
    var q := Assign(p + CharmsBefore, CharmLoop(1));
    var p' := q + CharmsAfter;
    CharmLoopEffect(p + CharmsBefore, 1);
    CharmBlocksApart();
    EquippedListCleared();
    assert forall i :: 1 <= i <= 40 ==> GotCharm(i) in p' && p'[GotCharm(i)] == JBool(true);
    assert forall i :: 1 <= i <= 40 ==> NewCharm(i) in p' && p'[NewCharm(i)] == JBool(false);
    assert forall i :: 1 <= i <= 40 ==> EquippedCharm(i) in p' && p'[EquippedCharm(i)] == JBool(false);
    assert forall k :: k in CharmsBefore ==> k in p' && p'[k] == CharmsBefore[k];
  }

  /** Menu option 6: the five presets in turn, stopping at the first that raises. */
  function ApplyAll(save: Json): Result<Json, PresetError> {
    var s1 :- MaximizeHealthAndSoul(save);
    var s2 :- GiveMaxGeo(s1);
    var s3 :- UnlockAllCharms(s2);
    var s4 :- UnlockAllAbilities(s3);
    UpgradeNailAndSpells(s4)
  }

  /** Applying all five presets is one preset doing all their assignments in menu order. */
  lemma ApplyAllIsOnePreset(save: Json)
    ensures ApplyAll(save) == ApplyPreset(save,
      [HealthAndSoul] + [GeoBlock] + CharmBlocks + [Abilities] + [NailAndSpells])
  {
    var a, b, c, d, e := [HealthAndSoul], [GeoBlock], CharmBlocks, [Abilities], [NailAndSpells];
    if Editable(save) {
      var s1 := ApplyPreset(save, a).value;
      PresetsCompose(save, a, b);
      var s2 := ApplyPreset(s1, b).value;
      assert s2 == ApplyPreset(save, a + b).value;
      PresetsCompose(save, a + b, c);
      var s3 := ApplyPreset(s2, c).value;
      assert s3 == ApplyPreset(save, a + b + c).value;
      PresetsCompose(save, a + b + c, d);
      var s4 := ApplyPreset(s3, d).value;
      assert s4 == ApplyPreset(save, a + b + c + d).value;
      PresetsCompose(save, a + b + c + d, e);
    }
  }

  /** Menu option 6 raises exactly when the first preset would, and otherwise changes only `playerData`. */
  lemma ApplyAllOutcome(save: Json)
    ensures TopLevelOutcome(save, ApplyAll(save))
  {
    ApplyAllIsOnePreset(save);
  }
}
