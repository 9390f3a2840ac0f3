// Choosing between the updates that several sources found, and adding up the
// sizes of what an update would download.

module Sources {
  import opened Common

  datatype Source = Main | Lan | Volume

  datatype Update = Update(checksum: string, timestamp: int)

  datatype FetchOutcome = Cancelled | Failed | NoUpdate | Fetched(update: Update)

  type Table = map<Source, Update>

  // --------------------------------------------------------- the latest update

  ghost predicate Newest(updates: Table, source: Source) {
    source in updates && forall other :: other in updates ==> updates[other].timestamp <= updates[source].timestamp
  }

  /** The k-th source is the first to have an update that no other exceeds. */
  ghost predicate FirstNewest(updates: Table, sources: seq<Source>, k: nat) {
    && k < |sources| && Newest(updates, sources[k])
    && forall j :: 0 <= j < k ==> !Newest(updates, sources[j])
  }

  /** latest holds those updates in done that have the latest date. */
  ghost predicate LatestOf(updates: Table, done: set<Source>, latest: Table, timestamp: Option<int>) {
    && done <= updates.Keys
    && (timestamp.None? ==> done == {} && latest == map[])
    && (timestamp.Some? ==>
          && latest != map[]
          && (forall s :: s in done ==> updates[s].timestamp <= timestamp.value)
          && (forall s :: s in latest <==> s in done && updates[s].timestamp == timestamp.value)
          && (forall s :: s in latest ==> latest[s] == updates[s]))
  }

  method AddToLatest(ghost updates: Table, ghost done: set<Source>, latest: Table, timestamp: Option<int>,
                     name: Source, candidate: Update)
    returns (latest': Table, timestamp': Option<int>)
    requires LatestOf(updates, done, latest, timestamp)
    requires name in updates && updates[name] == candidate && name !in done
    ensures LatestOf(updates, done + {name}, latest', timestamp')
    ensures timestamp'.Some?
  {
    latest', timestamp' := latest, timestamp;
    if timestamp.None? || candidate.timestamp > timestamp.value {
      timestamp' := Some(candidate.timestamp);
      latest' := map[name := candidate];
      assert name in latest';
    } else if candidate.timestamp == timestamp.value {
      latest' := latest[name := candidate];
      assert name in latest';
    }
  }

  lemma {:induction false} LatestAreNewest(updates: Table, latest: Table, timestamp: Option<int>, source: Source)
    requires LatestOf(updates, updates.Keys, latest, timestamp)
    ensures source in latest <==> Newest(updates, source)
  {
    if timestamp.Some? {
      var one :| one in latest;
      assert updates[one].timestamp == timestamp.value;
    }
  }

  /** Goes through the table in whatever order it comes. */
  method GetLatestUpdate(sources: seq<Source>, updates: Table) returns (update: Option<Update>)
    ensures update.Some? ==> exists k: nat :: FirstNewest(updates, sources, k) && update.value == updates[sources[k]]
    ensures update.None? ==> forall source :: source in sources ==> !Newest(updates, source)
  {
    var latest: Table := map[];
    var latestTimestamp: Option<int> := None;
    var todo := updates.Keys;
    ghost var done: set<Source> := {};
    while todo != {}
      invariant done !! todo && done + todo == updates.Keys
      invariant LatestOf(updates, done, latest, latestTimestamp)
      decreases todo
    {
      var name :| name in todo;
      latest, latestTimestamp := AddToLatest(updates, done, latest, latestTimestamp, name, updates[name]);
      todo, done := todo - {name}, done + {name};
    }
    assert done == updates.Keys;
    for i := 0 to |sources|
      invariant forall j :: 0 <= j < i ==> !Newest(updates, sources[j])
    {
      LatestAreNewest(updates, latest, latestTimestamp, sources[i]);
      if sources[i] in latest {
        assert FirstNewest(updates, sources, i);
        return Some(latest[sources[i]]);
      }
    }
    return None;
  }

  /** The table the fetchers fill in, in order. */
  function TableOf(sources: seq<Source>, outcomes: seq<FetchOutcome>): Table
    requires |sources| == |outcomes|
  {
    if outcomes == [] then map[] else
    var n := |outcomes| - 1;
    var before := TableOf(sources[..n], outcomes[..n]);
    if outcomes[n].Fetched? then before[sources[n] := outcomes[n].update] else before
  }

  method RunFetchers(sources: seq<Source>, outcomes: seq<FetchOutcome>) returns (ok: bool, update: Option<Update>)
    requires |sources| == |outcomes|
    ensures ok <==> Cancelled !in outcomes
    ensures ok && update.Some? ==>
              (var table := TableOf(sources, outcomes);
               exists k: nat :: FirstNewest(table, sources, k) && update.value == table[sources[k]])
    ensures ok && update.None? ==> forall source :: source in sources ==> !Newest(TableOf(sources, outcomes), source)
  {
    var table: Table := map[];
    for i := 0 to |outcomes|
      invariant table == TableOf(sources[..i], outcomes[..i])
      invariant Cancelled !in outcomes[..i]
    {
      assert sources[..i + 1][..i] == sources[..i] && outcomes[..i + 1][..i] == outcomes[..i];
      if outcomes[i].Cancelled? {
        return false, None;
      }
      if outcomes[i].Fetched? {
        table := table[sources[i] := outcomes[i].update];
      }
    }
    assert sources[..|sources|] == sources && outcomes[..|outcomes|] == outcomes;
    update := None;
    if table != map[] {
      update := GetLatestUpdate(sources, table);
    } else {
      assert TableOf(sources, outcomes) == map[];
    }
    return true, update;
  }

  ghost predicate DistinctSources(sources: seq<Source>) {
    forall i, j :: 0 <= i < j < |sources| ==> sources[i] != sources[j]
  }

  ghost predicate HoldsAt(table: Table, source: Source, outcome: FetchOutcome) {
    (outcome.Fetched? <==> source in table) && (outcome.Fetched? ==> table[source] == outcome.update)
  }

  lemma {:induction false} TableHolds(sources: seq<Source>, outcomes: seq<FetchOutcome>)
    requires |sources| == |outcomes| && DistinctSources(sources)
    ensures (var table := TableOf(sources, outcomes);
             && (forall i :: 0 <= i < |sources| ==> HoldsAt(table, sources[i], outcomes[i]))
             && (forall s :: s in table ==> s in sources))
  {
    if outcomes != [] {
      var n := |outcomes| - 1;
      var earlier, some := sources[..n], outcomes[..n];
      var before := TableOf(earlier, some);
      FrontDistinct(sources);
      TableHolds(earlier, some);
      forall i | 0 <= i < |sources| ensures HoldsAt(TableOf(sources, outcomes), sources[i], outcomes[i]) {
        if i < n {
          assert sources[i] == earlier[i] && outcomes[i] == some[i] && HoldsAt(before, earlier[i], some[i]);
          assert sources[i] in earlier;
        }
      }
      forall s | s in TableOf(sources, outcomes) ensures s in sources {
        assert s == sources[n] || s in before;
      }
    }
  }

  lemma {:induction false} FrontDistinct(sources: seq<Source>)
    requires DistinctSources(sources) && sources != []
    ensures DistinctSources(sources[..|sources|-1]) && sources[|sources|-1] !in sources[..|sources|-1]
  {
    var front := sources[..|sources|-1];
    forall i, j | 0 <= i < j < |front| ensures front[i] != front[j] {
      assert front[i] == sources[i] && front[j] == sources[j];
    }
  }

  lemma {:induction false} HasNewest(updates: Table) returns (source: Source)
    requires updates != map[]
    ensures Newest(updates, source)
  {
    var any :| any in updates;
    source := any;
    if Main in updates && updates[Main].timestamp > updates[source].timestamp { source := Main; }
    if Lan in updates && updates[Lan].timestamp > updates[source].timestamp { source := Lan; }
    if Volume in updates && updates[Volume].timestamp > updates[source].timestamp { source := Volume; }
    forall other | other in updates ensures updates[other].timestamp <= updates[source].timestamp {
      match other {
        case Main =>
        case Lan =>
        case Volume =>
      }
    }
  }

  /** Of the updates that were fetched, the chosen one is the earliest in source
      order among the latest in date; there is one if anything was fetched. */
  lemma {:induction false} ChosenIsLatest(sources: seq<Source>, outcomes: seq<FetchOutcome>, k: nat)
    requires |sources| == |outcomes| && DistinctSources(sources) && k < |sources|
    ensures FirstNewest(TableOf(sources, outcomes), sources, k) <==>
              && outcomes[k].Fetched?
              && (forall i :: 0 <= i < |outcomes| && outcomes[i].Fetched? ==>
                    outcomes[i].update.timestamp <= outcomes[k].update.timestamp)
              && (forall i :: 0 <= i < k && outcomes[i].Fetched? ==>
                    outcomes[i].update.timestamp < outcomes[k].update.timestamp)
  {
    TableHolds(sources, outcomes);
    var table := TableOf(sources, outcomes);
    forall i | 0 <= i < |sources|
      ensures Newest(table, sources[i]) <==>
                && outcomes[i].Fetched?
                && forall m :: 0 <= m < |outcomes| && outcomes[m].Fetched? ==>
                     outcomes[m].update.timestamp <= outcomes[i].update.timestamp
    {
      NewestOutcome(sources, outcomes, i);
    }
  }

  lemma {:induction false} NewestOutcome(sources: seq<Source>, outcomes: seq<FetchOutcome>, i: nat)
    requires |sources| == |outcomes| && DistinctSources(sources) && i < |sources|
    ensures Newest(TableOf(sources, outcomes), sources[i]) <==>
              && outcomes[i].Fetched?
              && forall m :: 0 <= m < |outcomes| && outcomes[m].Fetched? ==>
                   outcomes[m].update.timestamp <= outcomes[i].update.timestamp
  {
    TableHolds(sources, outcomes);
    var table := TableOf(sources, outcomes);
    if outcomes[i].Fetched? {
      forall s | s in table ensures exists m :: 0 <= m < |sources| && sources[m] == s && outcomes[m].Fetched? {
        var m :| 0 <= m < |sources| && sources[m] == s;
      }
    }
  }

  lemma {:induction false} SomethingIsChosen(sources: seq<Source>, outcomes: seq<FetchOutcome>, i: nat)
    requires |sources| == |outcomes| && DistinctSources(sources) && i < |sources| && outcomes[i].Fetched?
    ensures exists source :: source in sources && Newest(TableOf(sources, outcomes), source)
  {
    TableHolds(sources, outcomes);
    var source := HasNewest(TableOf(sources, outcomes));
  }

  // ------------------------------------------------------------------- sizes

  const MAX_INT64: Uint64 := 0x7FFF_FFFF_FFFF_FFFF

  /** An object of a commit; whether it is in the repository can fail to be
      known. */
  datatype Entry = Entry(archived: Uint64, unpacked: Uint64, present: Option<bool>)

  datatype Sizes = Sizes(archived: Uint64, unpacked: Uint64, newArchived: Uint64, newUnpacked: Uint64)

  function Min(a: int, b: int): (least: int)
    ensures least <= a && least <= b && (least == a || least == b)
  {
    if a < b then a else b
  }

  method SaturatedIncrement(a: Uint64, b: Uint64) returns (sum: Uint64)
    ensures sum == Min(a + b, MAX_UINT64)
  {
    if a < MAX_UINT64 - b {
      sum := a + b;
    } else {
      sum := MAX_UINT64;
    }
  }

  /** The sum of this size over all entries. */
  function Total(entries: seq<Entry>, size: Entry -> nat): nat {
    if entries == [] then 0 else Total(entries[..|entries|-1], size) + size(entries[|entries|-1])
  }

  /** What a sum is, whichever way the entries are split. */
  lemma {:induction false} TotalOfParts(a: seq<Entry>, b: seq<Entry>, size: Entry -> nat)
    ensures Total(a + b, size) == Total(a, size) + Total(b, size)
    ensures |b| == 1 ==> Total(b, size) == size(b[0])
  {
    if b == [] {
      assert a + b == a;
    } else {
      TotalOfParts(a, b[..|b|-1], size);
      assert (a + b)[..|a + b|-1] == a + b[..|b|-1];
    }
  }

  /** Each size is the true sum, cut off at most: over all entries, or over
      those that are not in the repository yet. */
  ghost predicate SizesUpTo(entries: seq<Entry>, sizes: Sizes, most: Uint64) {
    && sizes.archived == Min(Total(entries, (e: Entry) => e.archived), most)
    && sizes.unpacked == Min(Total(entries, (e: Entry) => e.unpacked), most)
    && sizes.newArchived == Min(Total(entries, (e: Entry) => if e.present == Some(true) then 0 else e.archived), most)
    && sizes.newUnpacked == Min(Total(entries, (e: Entry) => if e.present == Some(true) then 0 else e.unpacked), most)
  }

  method GetCommitSizes(entries: seq<Entry>) returns (ok: bool, sizes: Sizes)
    ensures ok <==> forall i :: 0 <= i < |entries| ==> entries[i].present.Some?
    ensures ok ==> SizesUpTo(entries, sizes, 0xFFFF_FFFF_FFFF_FFFF)
  {
    var archived, unpacked, newArchived, newUnpacked: Uint64 := 0, 0, 0, 0;
    for i := 0 to |entries|
      invariant forall j :: 0 <= j < i ==> entries[j].present.Some?
      invariant SizesUpTo(entries[..i], Sizes(archived, unpacked, newArchived, newUnpacked), MAX_UINT64)
    {
      var entry := entries[i];
      assert entries[..i + 1][..i] == entries[..i];
      archived := SaturatedIncrement(archived, entry.archived);
      unpacked := SaturatedIncrement(unpacked, entry.unpacked);
      if entry.present.None? {
        return false, Sizes(archived, unpacked, newArchived, newUnpacked);
      }
      if !entry.present.value {
        newArchived := SaturatedIncrement(newArchived, entry.archived);
        newUnpacked := SaturatedIncrement(newUnpacked, entry.unpacked);
      }
    }
    assert entries[..|entries|] == entries;
    return true, Sizes(archived, unpacked, newArchived, newUnpacked);
  }

  /** The sizes as they are published, in 63 bits, are the true sums cut off at
      the largest such number; what is left to download is never more than the
      whole. */
  method PublishedSizes(entries: seq<Entry>) returns (ok: bool, sizes: Sizes)
    ensures ok <==> forall i :: 0 <= i < |entries| ==> entries[i].present.Some?
    ensures ok ==> SizesUpTo(entries, sizes, 0x7FFF_FFFF_FFFF_FFFF)
    ensures ok ==> sizes.newArchived <= sizes.archived && sizes.newUnpacked <= sizes.unpacked
  {
    ok, sizes := GetCommitSizes(entries);
    if ok {
      TotalGrows(entries, (e: Entry) => if e.present == Some(true) then 0 else e.archived, (e: Entry) => e.archived);
      TotalGrows(entries, (e: Entry) => if e.present == Some(true) then 0 else e.unpacked, (e: Entry) => e.unpacked);
      sizes := Sizes(Min(sizes.archived, MAX_INT64), Min(sizes.unpacked, MAX_INT64),
                     Min(sizes.newArchived, MAX_INT64), Min(sizes.newUnpacked, MAX_INT64));
    }
  }

  lemma {:induction false} TotalGrows(entries: seq<Entry>, size: Entry -> nat, other: Entry -> nat)
    requires forall e :: size(e) <= other(e)
    ensures Total(entries, size) <= Total(entries, other)
  {
    if entries != [] {
      TotalGrows(entries[..|entries|-1], size, other);
    }
  }
}
