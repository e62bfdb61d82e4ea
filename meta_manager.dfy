/** The meta-progression record and its persistence
    (src/core/MetaManager.ts). Browser storage is a key-to-record map; a
    stored value either parses to a record or does not. */
module Meta {
  import opened Types

  /** What storage holds under a key: a record that parses, or text that is
      empty or does not parse. */
  datatype Stored = Parsed(record: MetaData) | Garbled

  const STORAGE_KEY: string := "sunflowers_vs_shadows_meta"

  /** The record a first run starts from. */
  const DEFAULT_META: MetaData := MetaData(PermanentStats(10, 2, 0, 0), map["meadow-1" := 0])

  /** The persistent key-value store. */
  class Storage {
    var items: map<string, Stored>

    constructor (items: map<string, Stored>)
      ensures this.items == items
    {
      this.items := items;
    }
  }

  /** `loadMetaData`: the saved record when one parses, the defaults otherwise. */
  function LoadFrom(items: map<string, Stored>): (m: MetaData)
    ensures STORAGE_KEY in items && items[STORAGE_KEY].Parsed? ==> m == items[STORAGE_KEY].record
    ensures STORAGE_KEY !in items || items[STORAGE_KEY].Garbled? ==> m == DEFAULT_META
  {
    if STORAGE_KEY in items && items[STORAGE_KEY].Parsed? then items[STORAGE_KEY].record
    else DEFAULT_META
  }

  /** Saving a record and loading again yields that record, whatever the
      store held before. */
  lemma SaveThenLoad(items: map<string, Stored>, m: MetaData)
    ensures LoadFrom(items[STORAGE_KEY := Parsed(m)]) == m
  {
  }

  /** The default record's contents. */
  lemma DefaultRecord()
    ensures LoadFrom(map[]) == DEFAULT_META
    ensures DEFAULT_META.permanentStats.baseHp == 10 && DEFAULT_META.permanentStats.baseAtk == 2
    ensures DEFAULT_META.permanentStats.baseArmor == 0 && DEFAULT_META.permanentStats.baseHealBonus == 0
    ensures DEFAULT_META.zones == map["meadow-1" := 0]
  {
  }

  /** The four permanent stats, by name. */
  datatype Stat = BaseHp | BaseAtk | BaseArmor | BaseHealBonus

  function StatValue(ps: PermanentStats, s: Stat): int
  {
    match s
    case BaseHp => ps.baseHp
    case BaseAtk => ps.baseAtk
    case BaseArmor => ps.baseArmor
    case BaseHealBonus => ps.baseHealBonus
  }

  /** The stats with `v` added to the named one. */
  function AddToStat(ps: PermanentStats, s: Stat, v: int): (r: PermanentStats)
    ensures StatValue(r, s) == StatValue(ps, s) + v
    ensures forall t :: t != s ==> StatValue(r, t) == StatValue(ps, t)
  {
    match s
    case BaseHp => ps.(baseHp := ps.baseHp + v)
    case BaseAtk => ps.(baseAtk := ps.baseAtk + v)
    case BaseArmor => ps.(baseArmor := ps.baseArmor + v)
    case BaseHealBonus => ps.(baseHealBonus := ps.baseHealBonus + v)
  }

  /** The progress stored for a zone, 0 when none is (`zones[z] || 0`). */
  function ZoneProgress(zones: map<string, int>, z: string): (r: int)
    ensures z in zones ==> r == zones[z]
    ensures z !in zones ==> r == 0
  {
    if z in zones then zones[z] else 0
  }

  /** Whether `setZoneProgress` stores the score: nothing (or 0) is stored
      for the zone, or the score beats what is. */
  predicate Improves(zones: map<string, int>, z: string, score: int): (r: bool)
    ensures r <==> ZoneProgress(zones, z) == 0 || score > ZoneProgress(zones, z)
  {
    z !in zones || zones[z] == 0 || score > zones[z]
  }

  /** The zone table after `setZoneProgress(z, score)`. */
  function WithZoneProgress(zones: map<string, int>, z: string, score: int): (r: map<string, int>)
    ensures z in r && r[z] == if Improves(zones, z, score) then score else zones[z]
    ensures forall y :: y != z ==> (y in r <==> y in zones)
    ensures forall y :: y != z && y in zones ==> r[y] == zones[y]
    ensures ZoneProgress(zones, z) > 0 ==> ZoneProgress(r, z) >= ZoneProgress(zones, z)
  {
    if Improves(zones, z, score) then zones[z := score] else zones
  }

  /** Repeating a progress update changes nothing more. */
  lemma ZoneProgressIdempotent(zones: map<string, int>, z: string, score: int)
    ensures WithZoneProgress(WithZoneProgress(zones, z, score), z, score) == WithZoneProgress(zones, z, score)
  {
    var once := WithZoneProgress(zones, z, score);
    if Improves(once, z, score) {
      assert once[z] == score;
      assert once[z := score] == once;
    }
  }

  /** The zone table after updating the zone with each score in turn. */
  function ApplyScores(zones: map<string, int>, z: string, scores: seq<int>): map<string, int>
  {
    if scores == [] then zones
    else WithZoneProgress(ApplyScores(zones, z, scores[..|scores| - 1]), z, scores[|scores| - 1])
  }

  /** A sequence of progress updates leaves the zone at the best positive
      score it saw, or higher. */
  lemma {:induction false} ZoneProgressKeepsBest(zones: map<string, int>, z: string, scores: seq<int>, k: nat)
    requires k < |scores| && scores[k] > 0
    ensures ZoneProgress(ApplyScores(zones, z, scores), z) >= scores[k]
  {
    if k < |scores| - 1 {
      ZoneProgressKeepsBest(zones, z, scores[..|scores| - 1], k);
    }
  }

  class MetaManager {
    const storage: Storage
    var metaData: MetaData

    /** Loads the record from storage. */
    constructor (storage: Storage)
      ensures this.storage == storage
      ensures metaData == LoadFrom(storage.items)
    {
      this.storage := storage;
      metaData := LoadFrom(storage.items);
    }

    /** `saveMetaData`: the record is written under STORAGE_KEY; a later
        load returns it. */
    method SaveMetaData()
      modifies storage`items
      ensures storage.items == old(storage.items)[STORAGE_KEY := Parsed(metaData)]
      ensures LoadFrom(storage.items) == metaData
    {
      storage.items := storage.items[STORAGE_KEY := Parsed(metaData)];
    }

    /** `getStats`: the permanent stats of the live record. */
    function GetStats(): (ps: PermanentStats)
      reads this
      ensures ps == metaData.permanentStats
    {
      metaData.permanentStats
    }

    /** `updateStat`: adds `value` to the named stat, then saves. */
    method UpdateStat(stat: Stat, value: int)
      modifies this`metaData, storage`items
      ensures StatValue(metaData.permanentStats, stat) == StatValue(old(metaData.permanentStats), stat) + value
      ensures forall t :: t != stat ==> StatValue(metaData.permanentStats, t) == StatValue(old(metaData.permanentStats), t)
      ensures metaData.zones == old(metaData.zones)
      ensures storage.items == old(storage.items)[STORAGE_KEY := Parsed(metaData)]
      ensures LoadFrom(storage.items) == metaData
    {
      metaData := metaData.(permanentStats := AddToStat(metaData.permanentStats, stat, value));
      SaveMetaData();
    }

    /** `getZoneProgress`. */
    function GetZoneProgress(zoneId: string): (r: int)
      reads this
      ensures zoneId in metaData.zones ==> r == metaData.zones[zoneId]
      ensures zoneId !in metaData.zones ==> r == 0
    {
      ZoneProgress(metaData.zones, zoneId)
    }

    /** `setZoneProgress`: stores and saves the score when it improves on
        the zone's progress; otherwise nothing changes. */
    method SetZoneProgress(zoneId: string, score: int)
      modifies this`metaData, storage`items
      ensures metaData == old(metaData).(zones := WithZoneProgress(old(metaData.zones), zoneId, score))
      ensures Improves(old(metaData.zones), zoneId, score) ==>
        storage.items == old(storage.items)[STORAGE_KEY := Parsed(metaData)]
      ensures !Improves(old(metaData.zones), zoneId, score) ==>
        metaData == old(metaData) && storage.items == old(storage.items)
    {
      if zoneId !in metaData.zones || metaData.zones[zoneId] == 0 || score > metaData.zones[zoneId] {
        metaData := metaData.(zones := metaData.zones[zoneId := score]);
        SaveMetaData();
      }
    }
  }
}
