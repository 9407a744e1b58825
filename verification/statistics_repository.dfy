/**
 * The statistics store: a table from parameter-set fingerprint to
 * `{parameters, count}`, kept in insertion order, read through a cache slot
 * that falls back to a durable file and written back to both after every
 * change.
 */
module StatisticsStore {

  import opened Wrappers
  import opened Parameters

  /** One row of the table: the parameters as first recorded, and how often they were seen. */
  datatype Entry = Entry(parameters: Params, count: nat)

  /** The statistics table, in the order its keys were first inserted. */
  type Table = seq<(Fingerprint, Entry)>

  /** No key occurs twice in the table. */
  predicate UniqueKeys(t: Table) {
    forall i, j :: 0 <= i < j < |t| ==> t[i].0 != t[j].0
  }

  /** Position of `key` in the table, if present (the `isset` test). */
  function IndexOf(t: Table, key: Fingerprint): (r: Option<nat>)
    ensures r.Some? ==> r.value < |t| && t[r.value].0 == key
    ensures r.None? <==> forall i :: 0 <= i < |t| ==> t[i].0 != key
  {
    if t == [] then None
    else if t[|t| - 1].0 == key then Some(|t| - 1)
    else IndexOf(t[..|t| - 1], key)
  }

  /** The entry stored under `key`, if any. */
  function Lookup(t: Table, key: Fingerprint): Option<Entry> {
    match IndexOf(t, key)
    case None => None
    case Some(i) => Some(t[i].1)
  }

  /** The table's keys in table order. */
  function KeyOrder(t: Table): seq<Fingerprint> {
    seq(|t|, i requires 0 <= i < |t| => t[i].0)
  }

  /**
   * Find-or-create followed by `count++`: an unseen key is appended with
   * the parameters as given and count 1; a known key has its count raised.
   */
  function Increment(t: Table, key: Fingerprint, parameters: Params): Table {
    match IndexOf(t, key)
    case None => t + [(key, Entry(parameters, 1))]
    case Some(i) => t[i := (key, t[i].1.(count := t[i].1.count + 1))]
  }

  lemma LookupUnique(t: Table, key: Fingerprint, i: nat)
    requires UniqueKeys(t) && i < |t| && t[i].0 == key
    ensures Lookup(t, key) == Some(t[i].1)
  {
  }

  /** Creating an entry with count 0 and then counting it is the increment of an unseen key. */
  lemma CreateThenCount(t: Table, key: Fingerprint, parameters: Params)
    requires IndexOf(t, key).None?
    ensures var created := t + [(key, Entry(parameters, 0))];
      created[|t| := (key, created[|t|].1.(count := created[|t|].1.count + 1))] == Increment(t, key, parameters)
  {
    var created := t + [(key, Entry(parameters, 0))];
    assert created[|t| := (key, Entry(parameters, 1))] == t + [(key, Entry(parameters, 1))];
  }

  /** Counting the entry already stored under `key` is the increment of a known key. */
  lemma CountExisting(t: Table, key: Fingerprint, parameters: Params, i: nat)
    requires IndexOf(t, key) == Some(i)
    ensures t[i := (key, t[i].1.(count := t[i].1.count + 1))] == Increment(t, key, parameters)
  {
  }

  /** An increment never introduces a second entry under one key. */
  lemma IncrementKeepsKeysUnique(t: Table, key: Fingerprint, parameters: Params)
    requires UniqueKeys(t)
    ensures UniqueKeys(Increment(t, key, parameters))
  {
  }

  /**
   * An increment changes exactly the entry under `key`: a new entry is
   * created with the parameters verbatim and count 1, an existing one keeps
   * its first-stored parameters and gains 1; every other key keeps its
   * entry, the key order only grows at the end, and keys stay unique.
   */
  lemma IncrementEffect(t: Table, key: Fingerprint, parameters: Params)
    requires UniqueKeys(t)
    ensures var r := Increment(t, key, parameters);
      && UniqueKeys(r)
      && Lookup(r, key) == Some(match Lookup(t, key)
                                case None => Entry(parameters, 1)
                                case Some(e) => Entry(e.parameters, e.count + 1))
      && (forall k :: k != key ==> Lookup(r, k) == Lookup(t, k))
      && KeyOrder(r) == KeyOrder(t) + (if Lookup(t, key).None? then [key] else [])
  {
    var r := Increment(t, key, parameters);
    IncrementKeepsKeysUnique(t, key, parameters);
    forall k | k != key
      ensures Lookup(r, k) == Lookup(t, k)
    {
      IncrementElsewhere(t, key, parameters, k);
    }
    match IndexOf(t, key)
    case None =>
      LookupUnique(r, key, |t|);
      assert KeyOrder(r) == KeyOrder(t) + [key];
    case Some(i) =>
      LookupUnique(r, key, i);
      assert KeyOrder(r) == KeyOrder(t);
  }

  /** An increment leaves the entry under any other key as it was. */
  lemma IncrementElsewhere(t: Table, key: Fingerprint, parameters: Params, k: Fingerprint)
    requires UniqueKeys(t) && k != key
    ensures Lookup(Increment(t, key, parameters), k) == Lookup(t, k)
  {
    var r := Increment(t, key, parameters);
    IncrementKeepsKeysUnique(t, key, parameters);
    if IndexOf(t, k).Some? {
      LookupUnique(r, k, IndexOf(t, k).value);
    } else {
      assert IndexOf(r, k).None?;
    }
  }

  /** `n` increments of one parameter set in a row. */
  function IncrementTimes(t: Table, key: Fingerprint, parameters: Params, n: nat): Table {
    if n == 0 then t else Increment(IncrementTimes(t, key, parameters, n - 1), key, parameters)
  }

  /** Starting from a table without the key, `n >= 1` increments append one entry with count `n`. */
  lemma {:induction false} RepeatedIncrements(t: Table, key: Fingerprint, parameters: Params, n: nat)
    requires IndexOf(t, key).None? && n >= 1
    ensures IncrementTimes(t, key, parameters, n) == t + [(key, Entry(parameters, n))]
  {
    if n > 1 {
      RepeatedIncrements(t, key, parameters, n - 1);
      var prev := t + [(key, Entry(parameters, n - 1))];
      assert IndexOf(prev, key) == Some(|t|);
      CountExisting(prev, key, parameters, |t|);
      assert prev[|t| := (key, Entry(parameters, n))] == t + [(key, Entry(parameters, n))];
    }
  }

  /** One fold step of `getMostFrequent`: the new entry wins only with a strictly larger count. */
  function Step(carry: Option<Entry>, stat: Entry): (r: Option<Entry>)
    ensures r == carry || r == Some(stat)
    ensures r.Some? && stat.count <= r.value.count
    ensures carry.Some? ==> carry.value.count <= r.value.count
  {
    if carry.None? || stat.count > carry.value.count then Some(stat) else carry
  }

  /** `array_reduce` over the entries, left to right, starting from null. */
  function Reduce(t: Table): (r: Option<Entry>)
    ensures r.None? <==> t == []
    ensures r.Some? ==> forall i :: 0 <= i < |t| ==> t[i].1.count <= r.value.count
  {
    if t == [] then None else Step(Reduce(t[..|t| - 1]), t[|t| - 1].1)
  }

  /** `getMostFrequent` on a loaded table: null when empty, the fold otherwise. */
  function MostFrequent(t: Table): (r: Option<Entry>)
    ensures r.None? <==> |t| == 0
    ensures r.Some? ==> forall i :: 0 <= i < |t| ==> t[i].1.count <= r.value.count
  {
    if |t| == 0 then None else Reduce(t)
  }

  /** Entry `i` has a count no entry exceeds, and every entry before it has a smaller count. */
  ghost predicate IsFirstMaximum(t: Table, i: int) {
    && 0 <= i < |t|
    && (forall j :: 0 <= j < |t| ==> t[j].1.count <= t[i].1.count)
    && (forall j :: 0 <= j < i ==> t[j].1.count < t[i].1.count)
  }

  lemma {:induction false} ReduceIsFirstMaximum(t: Table) returns (i: nat)
    requires t != []
    ensures IsFirstMaximum(t, i) && Reduce(t) == Some(t[i].1)
  {
    var init := t[..|t| - 1];
    if init == [] {
      i := 0;
    } else {
      var k := ReduceIsFirstMaximum(init);
      if t[|t| - 1].1.count > t[k].1.count {
        i := |t| - 1;
      } else {
        i := k;
      }
    }
  }

  /**
   * `getMostFrequent` returns none exactly on the empty table; otherwise it
   * returns an entry of maximal count, and among equal maxima the first one
   * in table order.
   */
  lemma MostFrequentSpec(t: Table)
    ensures MostFrequent(t).None? <==> t == []
    ensures t != [] ==> exists i :: IsFirstMaximum(t, i) && MostFrequent(t) == Some(t[i].1)
  {
    if t != [] {
      var i := ReduceIsFirstMaximum(t);
    }
  }

  /** The first maximum is unique, so the tie-break is deterministic. */
  lemma FirstMaximumUnique(t: Table, i: int, j: int)
    requires IsFirstMaximum(t, i) && IsFirstMaximum(t, j)
    ensures i == j
  {
    assert t[i].1.count == t[j].1.count;
  }

  lemma TwoEntryFold(first: (Fingerprint, Entry), second: (Fingerprint, Entry))
    ensures MostFrequent([first, second])
      == if second.1.count > first.1.count then Some(second.1) else Some(first.1)
  {
    assert [first, second][..1] == [first] && [first][..0] == [];
    assert Reduce([first]) == Some(first.1);
    assert Reduce([first, second]) == Step(Reduce([first]), second.1);
  }

  /**
   * Two different keys recorded `n1` and then `n2` times give two entries,
   * and the first is the most frequent whenever `n1 >= n2` (on a tie
   * because it was met first). Different parameter sets have different keys
   * by `HashIgnoresOnlyOrder`.
   */
  lemma FirstSetWinsUnlessOutcounted(k1: Fingerprint, p1: Params, k2: Fingerprint, p2: Params, n1: nat, n2: nat)
    requires k1 != k2
    requires n1 >= n2 >= 1
    ensures var t := IncrementTimes(IncrementTimes([], k1, p1, n1), k2, p2, n2);
      && |t| == 2
      && MostFrequent(t) == Some(Entry(p1, n1))
  {
    TwoSetsRecorded(k1, p1, k2, p2, n1, n2);
    TwoEntryFold((k1, Entry(p1, n1)), (k2, Entry(p2, n2)));
  }

  /** Two different keys recorded `n1` and then `n2` times give one entry each, in that order. */
  lemma TwoSetsRecorded(k1: Fingerprint, p1: Params, k2: Fingerprint, p2: Params, n1: nat, n2: nat)
    requires k1 != k2 && n1 >= 1 && n2 >= 1
    ensures IncrementTimes(IncrementTimes([], k1, p1, n1), k2, p2, n2)
      == [(k1, Entry(p1, n1)), (k2, Entry(p2, n2))]
  {
    var first := (k1, Entry(p1, n1));
    var second := (k2, Entry(p2, n2));
    RepeatedIncrements([], k1, p1, n1);
    assert IndexOf([first], k2).None?;
    RepeatedIncrements([first], k2, p2, n2);
    calc {
      IncrementTimes(IncrementTimes([], k1, p1, n1), k2, p2, n2);
      { assert [] + [first] == [first]; }
      IncrementTimes([first], k2, p2, n2);
      [first] + [second];
    }
    assert [first] + [second] == [first, second];
  }

  /** The cache pool's slot under the statistics cache key. */
  class Cache {
    var slot: Option<Table>

    constructor ()
      ensures slot == None
    {
      slot := None;
    }

    /** The slot's time to live runs out (or the pool is cleared). */
    method Expire()
      modifies this
      ensures slot == None
    {
      slot := None;
    }
  }

  /** The statistics file: absent, not valid JSON, or holding a table. */
  datatype FileState = Missing | Undecodable | Stored(table: Table)

  /** What the loader reads from the file: a missing or undecodable file is the empty table. */
  function Decode(f: FileState): (t: Table)
    ensures t != [] ==> f == Stored(t)
  {
    match f
    case Stored(t) => t
    case _ => []
  }

  class StatsFile {
    var state: FileState

    constructor (state: FileState)
      ensures this.state == state
    {
      this.state := state;
    }
  }

  /** `StatisticsRepository`: a cache and a file, both shared with whoever else holds them. */
  class StatisticsRepository {
    const cache: Cache
    const file: StatsFile

    constructor (cache: Cache, file: StatsFile)
      ensures this.cache == cache && this.file == file
    {
      this.cache := cache;
      this.file := file;
    }

    /** The table a load would return now: the cached one, else the file's. */
    ghost function View(): Table
      reads cache, file
    {
      match cache.slot
      case Some(t) => t
      case None => Decode(file.state)
    }

    /** Neither the file nor a filled cache repeats a key, as no PHP array does. */
    ghost predicate Valid()
      reads cache, file
      ensures Valid() ==> UniqueKeys(View())
    {
      && UniqueKeys(Decode(file.state))
      && (cache.slot.Some? ==> UniqueKeys(cache.slot.value))
    }

    /** The cache, when filled, holds what the file holds. */
    ghost predicate Coherent()
      reads cache, file
    {
      cache.slot.Some? ==> cache.slot.value == Decode(file.state)
    }

    /** `loadStats`: cache first; on a miss, read the file and fill the cache. */
    method LoadStats() returns (stats: Table)
      requires Valid()
      modifies cache
      ensures stats == old(View()) && UniqueKeys(stats) && Valid()
      ensures cache.slot == Some(stats) && View() == old(View())
      ensures old(Coherent()) ==> Coherent()
    {
      match cache.slot
      case Some(t) =>
        stats := t;
      case None =>
        stats := Decode(file.state);
        cache.slot := Some(stats);
    }

    /** `saveStats`: drop and refill the cache entry, then write the file. */
    method SaveStats(stats: Table)
      requires UniqueKeys(stats)
      modifies cache, file
      ensures cache.slot == Some(stats) && file.state == Stored(stats) && Valid()
      ensures Coherent() && View() == stats
    {
      cache.slot := None;
      cache.slot := Some(stats);
      file.state := Stored(stats);
    }

    /** `incrementRequestCount`: load, find or create the entry, add one, save. */
    method IncrementRequestCount(parameters: Params)
      requires Valid()
      modifies cache, file
      ensures View() == Increment(old(View()), HashParameters(parameters), parameters)
      ensures file.state == Stored(View()) && cache.slot == Some(View())
      ensures Coherent() && Valid()
    {
      var loaded := LoadStats();
      var stats := loaded;
      var key := HashParameters(parameters);
      var found := IndexOf(stats, key);
      var i: nat;
      if found.None? {
        stats := stats + [(key, Entry(parameters, 0))];
        i := |stats| - 1;
        CreateThenCount(loaded, key, parameters);
      } else {
        i := found.value;
        CountExisting(loaded, key, parameters, i);
      }
      stats := stats[i := (key, stats[i].1.(count := stats[i].1.count + 1))];
      assert stats == Increment(loaded, key, parameters);
      IncrementKeepsKeysUnique(loaded, key, parameters);
      SaveStats(stats);
    }

    /** `getMostFrequent`: load, then fold for the first entry of highest count. */
    method GetMostFrequent() returns (result: Option<Entry>)
      requires Valid()
      modifies cache
      ensures result == MostFrequent(old(View()))
      ensures cache.slot == Some(old(View()))
      ensures View() == old(View()) && Valid()
      ensures old(Coherent()) ==> Coherent()
    {
      var stats := LoadStats();
      if |stats| == 0 {
        return None;
      }
      result := Reduce(stats);
    }
  }

  /**
   * A repository opened again on the same file with an empty cache (an
   * application restart) sees the same table, provided the old one was
   * coherent, as it is after every save.
   */
  method Reopen(repository: StatisticsRepository) returns (reopened: StatisticsRepository)
    requires repository.Coherent() && repository.Valid()
    ensures reopened.file == repository.file && reopened.cache.slot == None
    ensures reopened.View() == repository.View() && reopened.Valid()
    ensures fresh(reopened) && fresh(reopened.cache)
  {
    var cache := new Cache();
    reopened := new StatisticsRepository(cache, repository.file);
  }

  /**
   * A restart: one request is counted through a repository on a fresh file,
   * then a new repository with an empty cache on that file reports it as the
   * most frequent, with count 1 and its parameters as given.
   */
  method RestartReloadsCounts(parameters: Params) returns (stats: Option<Entry>)
    ensures stats == Some(Entry(parameters, 1))
  {
    var cache := new Cache();
    var file := new StatsFile(Missing);
    var repository := new StatisticsRepository(cache, file);
    repository.IncrementRequestCount(parameters);
    var reopened := Reopen(repository);
    stats := reopened.GetMostFrequent();
    var recorded := [(HashParameters(parameters), Entry(parameters, 1))];
    assert reopened.View() == recorded;
    assert Reduce(recorded) == Step(Reduce(recorded[..0]), recorded[0].1);
  }

  /**
   * The cache entry's lifetime runs out: the next load goes back to the
   * file, which for a coherent repository holds the same table.
   */
  method ExpireCache(repository: StatisticsRepository)
    requires repository.Coherent() && repository.Valid()
    modifies repository.cache
    ensures repository.cache.slot == None
    ensures repository.View() == old(repository.View())
    ensures repository.Coherent() && repository.Valid()
  {
    repository.cache.Expire();
  }
}
