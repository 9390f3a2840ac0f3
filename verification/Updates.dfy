// Deciding what a poll offers: the booted branch first, a checkpoint's branch
// otherwise, offline sources before online ones, and never a step back.

module Updates {
  import opened Common
  import opened Redirects

  /** A commit the local repository can load: its date and the leading number
      of its version. */
  datatype Details = Details(timestamp: nat, major: Option<nat>)

  type Commits = map<string, Details>

  datatype Boot = Boot(refspec: Refspec, checksum: string)

  datatype Info = Info(checksum: string, refspec: Refspec, original: Refspec, version: Option<string>,
                       visible: bool, results: seq<string>, offline: bool)

  datatype Verdict = CheckFailed | NotAnUpdate | AnUpdate(visible: bool)

  datatype Search = SearchFailed | Nothing | Found(info: Info)

  /** What one search along redirections meets: what the refs lead to in each
      round, and which sources advertise each ref in the end. */
  datatype Trail = Trail(views: seq<Heads>, advertised: map<Refspec, seq<string>>)

  /** One set of places to look in, first for the booted branch and then for the
      checkpoint's. */
  datatype Places = Places(exist: bool, first: Trail, second: Trail)

  /** Everything one poll depends on. */
  datatype Poll = Poll(commits: Commits, checkpoint: Option<string>, offline: Places, online: Places,
                       main: Places, mainEnabled: bool, fallback: bool)

  // ------------------------------------------------------------ specification

  function MajorGrows(before: Option<nat>, after: Option<nat>): bool {
    before.Some? && after.Some? && before.value < after.value
  }

  /** A commit that cannot be loaded is taken to be older than any. */
  function Check(commits: Commits, booted: Boot, checksum: string, ref: string): Verdict {
    if checksum == booted.checksum then NotAnUpdate
    else if checksum !in commits then CheckFailed
    else if booted.checksum !in commits then AnUpdate(false)
    else if ref != booted.refspec.ref || commits[checksum].timestamp > commits[booted.checksum].timestamp then
      AnUpdate(MajorGrows(commits[booted.checksum].major, commits[checksum].major))
    else NotAnUpdate
  }

  function Advertised(trail: Trail, refspec: Refspec): seq<string> {
    if refspec in trail.advertised then trail.advertised[refspec] else []
  }

  function SearchBranch(poll: Poll, trail: Trail, booted: Boot, refspec: Refspec): Search {
    match FetchThrough(trail.views, refspec)
    case Failed => SearchFailed
    case Unfinished => SearchFailed
    case Latest(checksum, newRefspec, version, _) =>
      match Check(poll.commits, booted, checksum, newRefspec.ref)
      case CheckFailed => SearchFailed
      case NotAnUpdate => Nothing
      case AnUpdate(visible) =>
        Found(Info(checksum, newRefspec, booted.refspec, version, visible, Advertised(trail, newRefspec), false))
  }

  /** A checkpoint's branch is on the remote of the booted one. */
  function UpgradeRefspec(poll: Poll, booted: Boot): Refspec {
    if poll.checkpoint.Some? then Refspec(booted.refspec.remote, poll.checkpoint.value) else booted.refspec
  }

  function SearchPlaces(poll: Poll, places: Places, booted: Boot): Search {
    var first := SearchBranch(poll, places.first, booted, booted.refspec);
    if first.Nothing? then SearchBranch(poll, places.second, booted, UpgradeRefspec(poll, booted)) else first
  }

  predicate Usable(search: Search) {
    search.Found? && search.info.results != []
  }

  function SearchIfAny(poll: Poll, places: Places, booted: Boot): Search {
    if places.exist then SearchPlaces(poll, places, booted) else Nothing
  }

  function SearchNew(poll: Poll, booted: Boot): Search {
    if !poll.offline.exist && !poll.online.exist then SearchFailed else
    var offline := SearchIfAny(poll, poll.offline, booted);
    if offline.SearchFailed? then SearchFailed
    else if Usable(offline) then Found(offline.info.(offline := true)) else
    var online := SearchIfAny(poll, poll.online, booted);
    if online.SearchFailed? || Usable(online) then online else Nothing
  }

  /** A failure of the search is as good as finding nothing: what follows it is
      the search of the main place alone, whose failure is one too. */
  function Offered(poll: Poll, booted: Boot): Option<Info> {
    var search := SearchNew(poll, booted);
    if search.Found? then Some(search.info)
    else if poll.fallback && poll.mainEnabled then
      var main := SearchPlaces(poll, poll.main, booted);
      if main.Found? then Some(main.info.(results := [])) else None
    else None
  }

  // ---------------------------------------------------------- implementation

  /** Filled in by the check that finds an update, and cleared between checks. */
  class UpdateRefInfo {
    var commit: bool
    var refspec: Option<Refspec>
    var newRefspec: Option<Refspec>
    var checksum: string
    var version: Option<string>
    var isUserVisible: bool
    var results: seq<string>

    constructor ()
      ensures Cleared()
    {
      commit, isUserVisible := false, false;
      refspec, newRefspec, checksum, version, results := None, None, "", None, [];
    }

    ghost predicate Cleared()
      reads this
    {
      && !commit && !isUserVisible && results == []
      && checksum == "" && refspec == None && newRefspec == None && version == None
    }

    /** A record with a commit names both refspecs. */
    ghost predicate Valid()
      reads this
    {
      commit ==> refspec.Some? && newRefspec.Some?
    }

    /** What has been found so far. */
    ghost function Contents(): Search
      requires Valid()
      reads this
    {
      if commit then Found(Info(checksum, newRefspec.value, refspec.value, version, isUserVisible, results, false))
      else Nothing
    }

    method Clear()
      modifies this
      ensures Cleared()
    {
      commit, isUserVisible := false, false;
      refspec, newRefspec, checksum, version, results := None, None, "", None, [];
    }
  }

  method IsChecksumAnUpdate(commits: Commits, booted: Boot, checksum: string, ref: string)
    returns (ok: bool, isUpdate: bool, visible: bool)
    ensures ok <==> checksum == booted.checksum || checksum in commits
    ensures ok ==> (isUpdate <==>
                      && checksum != booted.checksum
                      && (|| ref != booted.refspec.ref
                          || booted.checksum !in commits
                          || commits[booted.checksum].timestamp < commits[checksum].timestamp))
    ensures visible <==>
              && ok && isUpdate && booted.checksum in commits
              && commits[booted.checksum].major.Some? && commits[checksum].major.Some?
              && commits[booted.checksum].major.value < commits[checksum].major.value
    ensures Check(commits, booted, checksum, ref)
         == if !ok then CheckFailed else if isUpdate then AnUpdate(visible) else NotAnUpdate
  {
    if booted.checksum == checksum {
      return true, false, false;
    }
    if checksum !in commits {
      return false, false, false;
    }
    if booted.checksum !in commits {
      return true, true, false;
    }
    var current, update := commits[booted.checksum], commits[checksum];
    var isNewer := booted.refspec.ref != ref || update.timestamp > current.timestamp;
    var isVisible := current.major.Some? && update.major.Some? && current.major.value < update.major.value;
    return true, isNewer, isNewer && isVisible;
  }

  /** One branch: the source has this once for the booted branch and once for
      the checkpoint's. */
  method CheckBranch(poll: Poll, trail: Trail, booted: Boot, refspec: Refspec, out: UpdateRefInfo)
    returns (ok: bool, isUpdate: bool)
    modifies out
    ensures ok ==> out.Valid()
    ensures SearchBranch(poll, trail, booted, refspec) == if !ok then SearchFailed else out.Contents()
    ensures ok ==> (isUpdate <==> out.Contents().Found?) && (!isUpdate ==> out.Cleared())
  {
    isUpdate := false;
    var latest := FetchLatestCommit(trail.views, refspec);
    if !latest.Latest? {
      return false, false;
    }
    var checked, visible;
    checked, isUpdate, visible := IsChecksumAnUpdate(poll.commits, booted, latest.checksum, latest.refspec.ref);
    if !checked {
      return false, false;
    }
    if isUpdate {
      out.refspec := Some(booted.refspec);
      out.newRefspec := Some(latest.refspec);
      out.checksum := latest.checksum;
      out.version := latest.version;
      out.isUserVisible := visible;
      out.results := Advertised(trail, latest.refspec);
      out.commit := true;
    } else {
      out.Clear();
    }
    return true, isUpdate;
  }

  method CheckFollowingCheckpointIfAllowed(poll: Poll, places: Places, booted: Boot, out: UpdateRefInfo)
    returns (ok: bool)
    modifies out
    ensures ok ==> out.Valid()
    ensures SearchPlaces(poll, places, booted) == if !ok then SearchFailed else out.Contents()
  {
    var hadUpdate;
    ok, hadUpdate := CheckBranch(poll, places.first, booted, booted.refspec, out);
    if ok && !hadUpdate {
      out.Clear();
      ok, hadUpdate := CheckBranch(poll, places.second, booted, UpgradeRefspec(poll, booted), out);
    }
  }

  method MetadataFetchNew(poll: Poll, booted: Boot) returns (found: Search)
    ensures found == SearchNew(poll, booted)
  {
    if !poll.offline.exist && !poll.online.exist {
      return SearchFailed;
    }
    var out := new UpdateRefInfo();
    var offlineResultsOnly := true;
    if poll.offline.exist {
      var ok := CheckFollowingCheckpointIfAllowed(poll, poll.offline, booted, out);
      if !ok {
        return SearchFailed;
      }
    }
    if !out.commit || out.results == [] {
      offlineResultsOnly := false;
      out.Clear();
      if poll.online.exist {
        var ok := CheckFollowingCheckpointIfAllowed(poll, poll.online, booted, out);
        if !ok {
          return SearchFailed;
        }
      }
    }
    if out.commit && out.results != [] {
      return Found(Info(out.checksum, out.newRefspec.value, out.refspec.value, out.version, out.isUserVisible,
                        out.results, offlineResultsOnly));
    }
    return Nothing;
  }

  method MetadataFetchFromMain(poll: Poll, booted: Boot) returns (found: Search)
    ensures found == (var main := SearchPlaces(poll, poll.main, booted);
                      if main.Found? then Found(main.info.(results := [])) else main)
  {
    var out := new UpdateRefInfo();
    var ok := CheckFollowingCheckpointIfAllowed(poll, poll.main, booted, out);
    if !ok {
      return SearchFailed;
    }
    if out.commit {
      return Found(Info(out.checksum, out.newRefspec.value, out.refspec.value, out.version, out.isUserVisible,
                        [], false));
    }
    return Nothing;
  }

  method MetadataFetchInternal(poll: Poll, booted: Boot) returns (info: Option<Info>)
    ensures info == Offered(poll, booted)
  {
    var found := MetadataFetchNew(poll, booted);
    if found.Found? {
      return Some(found.info);
    }
    if poll.fallback && poll.mainEnabled {
      var main := MetadataFetchFromMain(poll, booted);
      if main.Found? {
        return Some(main.info);
      }
    }
    return None;
  }

  // ------------------------------------------------------- one offered update

  /** What a poll may offer: another commit, a later one unless it is on another
      branch or the booted commit is lost, at the end of a chain of redirections
      from the booted branch or the checkpoint's. */
  ghost predicate Legitimate(poll: Poll, places: Places, booted: Boot, info: Info) {
    && info.checksum != booted.checksum && info.original == booted.refspec && info.checksum in poll.commits
    && (info.refspec.ref == booted.refspec.ref && booted.checksum in poll.commits ==>
          poll.commits[info.checksum].timestamp > poll.commits[booted.checksum].timestamp)
    && (info.visible ==>
          && booted.checksum in poll.commits
          && poll.commits[booted.checksum].major.Some? && poll.commits[info.checksum].major.Some?
          && poll.commits[booted.checksum].major.value < poll.commits[info.checksum].major.value)
    && info.refspec.remote == booted.refspec.remote
    && (|| LedTo(places.first, booted.refspec, info.checksum, info.refspec, info.version)
        || LedTo(places.second, UpgradeRefspec(poll, booted), info.checksum, info.refspec, info.version))
  }

  /** In some round the search from a ref comes to the ref of the update, which
      by then leads to the update and redirects nowhere. */
  ghost predicate LedTo(trail: Trail, from: Refspec, checksum: string, to: Refspec, version: Option<string>) {
    exists n: nat ::
      && EndsInRound(trail.views, from, n) && Asked(trail.views, from, n) == Some(to)
      && (var head := HeadOf(trail.views[n], to);
          head.Head? && head.checksum == checksum && version == VersionOf(head.commit))
  }

  lemma {:induction false} BranchOffers(poll: Poll, trail: Trail, booted: Boot, refspec: Refspec)
    requires refspec.remote == booted.refspec.remote && SearchBranch(poll, trail, booted, refspec).Found?
    ensures (var info := SearchBranch(poll, trail, booted, refspec).info;
             && LedTo(trail, refspec, info.checksum, info.refspec, info.version)
             && info.results == Advertised(trail, info.refspec)
             && info.refspec.remote == booted.refspec.remote)
  {
    var n := LatestDescribesTerminal(trail.views, refspec);
    assert EndsInRound(trail.views, refspec, n);
  }

  /** The search that found an update. */
  function TrailOf(poll: Poll, places: Places, booted: Boot): Trail {
    if SearchBranch(poll, places.first, booted, booted.refspec).Nothing? then places.second else places.first
  }

  lemma {:induction false} PlacesOffer(poll: Poll, places: Places, booted: Boot)
    requires SearchPlaces(poll, places, booted).Found?
    ensures Legitimate(poll, places, booted, SearchPlaces(poll, places, booted).info)
    ensures SearchPlaces(poll, places, booted).info.results
         == Advertised(TrailOf(poll, places, booted), SearchPlaces(poll, places, booted).info.refspec)
  {
    var first := SearchBranch(poll, places.first, booted, booted.refspec);
    BranchOffers(poll, TrailOf(poll, places, booted), booted,
                 if first.Nothing? then UpgradeRefspec(poll, booted) else booted.refspec);
  }

  /** Only what the update is counts for that, not how it is to be had. */
  lemma {:induction false} LegitimateAnyhow(poll: Poll, places: Places, booted: Boot, info: Info, results: seq<string>,
                                            offline: bool)
    requires Legitimate(poll, places, booted, info)
    ensures Legitimate(poll, places, booted, info.(results := results, offline := offline))
  {
    hide LedTo;
  }

  lemma {:induction false} FoundInSomePlaces(poll: Poll, places: Places, booted: Boot)
    requires SearchPlaces(poll, places, booted).Found?
    ensures (var info := SearchPlaces(poll, places, booted).info;
             && info.results == Advertised(TrailOf(poll, places, booted), info.refspec)
             && !info.offline
             && forall results, offline ::
                  Legitimate(poll, places, booted, info.(results := results, offline := offline)))
  {
    hide Legitimate;
    PlacesOffer(poll, places, booted);
    forall results, offline
      ensures Legitimate(poll, places, booted,
                         SearchPlaces(poll, places, booted).info.(results := results, offline := offline))
    {
      LegitimateAnyhow(poll, places, booted, SearchPlaces(poll, places, booted).info, results, offline);
    }
  }

  /** The offered update comes whole from one set of places; the offline ones
      whenever they have anything usable, and the flag and the list of sources
      tell which. */
  lemma {:induction false} OfferIsLegitimate(poll: Poll, booted: Boot)
    requires Offered(poll, booted).Some?
    ensures (var info := Offered(poll, booted).value;
             && (info.offline <==> poll.offline.exist && Usable(SearchPlaces(poll, poll.offline, booted)))
             && (info.offline ==> info.results != [])
             && (info.offline ==>
                   && Legitimate(poll, poll.offline, booted, info)
                   && info.results == Advertised(TrailOf(poll, poll.offline, booted), info.refspec))
             && (!info.offline && info.results != [] ==>
                   && Legitimate(poll, poll.online, booted, info)
                   && info.results == Advertised(TrailOf(poll, poll.online, booted), info.refspec))
             && (info.results == [] ==> poll.mainEnabled && poll.fallback && Legitimate(poll, poll.main, booted, info)))
  {
    if SearchPlaces(poll, poll.offline, booted).Found? {
      FoundInSomePlaces(poll, poll.offline, booted);
    }
    if SearchPlaces(poll, poll.online, booted).Found? {
      FoundInSomePlaces(poll, poll.online, booted);
    }
    if SearchPlaces(poll, poll.main, booted).Found? {
      FoundInSomePlaces(poll, poll.main, booted);
    }
    hide Legitimate, SearchPlaces, Advertised, TrailOf;
  }

  // ---------------------------------------------------------- whole histories

  /** Each update offered is the next one booted. */
  ghost predicate Updated(polls: seq<Poll>, boots: seq<Boot>) {
    && |boots| == |polls| + 1
    && forall i :: 0 <= i < |polls| ==>
         && Offered(polls[i], boots[i]).Some?
         && boots[i + 1].refspec == Offered(polls[i], boots[i]).value.refspec
         && boots[i + 1].checksum == Offered(polls[i], boots[i]).value.checksum
  }

  /** A checksum names one commit; polls differ in which they can load. */
  ghost predicate OneTruth(polls: seq<Poll>, truth: Commits) {
    forall i, c :: 0 <= i < |polls| && c in polls[i].commits ==> c in truth && truth[c] == polls[i].commits[c]
  }

  /** The booted commits from i to j could be loaded, and were all on one ref. */
  ghost predicate StayedOn(polls: seq<Poll>, boots: seq<Boot>, i: nat, j: nat)
    requires |boots| == |polls| + 1 && j < |boots|
  {
    && (forall k :: i <= k < j ==> boots[k].checksum in polls[k].commits)
    && (forall k :: i <= k <= j ==> boots[k].refspec.ref == boots[i].refspec.ref)
  }

  ghost predicate Later(truth: Commits, before: string, after: string) {
    before in truth && after in truth && truth[before].timestamp < truth[after].timestamp
  }

  lemma {:induction false} LaterAllAlong(truth: Commits, boots: seq<Boot>, i: nat, j: nat)
    requires i < j < |boots|
    requires forall k :: i <= k < j ==> Later(truth, boots[k].checksum, boots[k + 1].checksum)
    ensures Later(truth, boots[i].checksum, boots[j].checksum)
    decreases j
  {
    assert Later(truth, boots[j - 1].checksum, boots[j - 1 + 1].checksum);
    if i < j - 1 {
      LaterAllAlong(truth, boots, i, j - 1);
    }
  }

  lemma {:induction false} NextBootIsLater(polls: seq<Poll>, boots: seq<Boot>, truth: Commits, k: nat)
    requires Updated(polls, boots) && OneTruth(polls, truth) && k < |polls|
    requires boots[k].checksum in polls[k].commits && boots[k + 1].refspec.ref == boots[k].refspec.ref
    ensures Later(truth, boots[k].checksum, boots[k + 1].checksum)
  {
    OfferIsLegitimate(polls[k], boots[k]);
    var info := Offered(polls[k], boots[k]).value;
    assert info.checksum in polls[k].commits;
  }

  /** As long as the booted commit can be loaded and the ref stays the same,
      every boot is later than all before it; none comes back. */
  lemma {:induction false} NoDowngrade(polls: seq<Poll>, boots: seq<Boot>, truth: Commits, i: nat, j: nat)
    requires Updated(polls, boots) && OneTruth(polls, truth) && i < j < |boots| && StayedOn(polls, boots, i, j)
    ensures Later(truth, boots[i].checksum, boots[j].checksum) && boots[i].checksum != boots[j].checksum
  {
    forall k | i <= k < j ensures Later(truth, boots[k].checksum, boots[k + 1].checksum) {
      NextBootIsLater(polls, boots, truth, k);
    }
    LaterAllAlong(truth, boots, i, j);
  }

  // ------------------------------------------- what is offered, in full

  /** Where the search looks. */
  datatype Where = Offline | Online | Main

  function PlacesAt(poll: Poll, where: Where): Places {
    match where
    case Offline => poll.offline
    case Online => poll.online
    case Main => poll.main
  }

  function TrailAt(poll: Poll, where: Where, second: bool): Trail {
    if second then PlacesAt(poll, where).second else PlacesAt(poll, where).first
  }

  /** The search goes from the booted branch first, and then from the checkpoint's
      if there is one. */
  function StartAt(poll: Poll, booted: Boot, second: bool): Refspec {
    if second && poll.checkpoint.Some? then Refspec(booted.refspec.remote, poll.checkpoint.value) else booted.refspec
  }

  /** This commit differs from the booted one, and is later unless it is on
      another branch or the booted one is lost. */
  ghost predicate IsForward(poll: Poll, booted: Boot, latest: Outcome)
    requires latest.Latest? && latest.checksum in poll.commits
  {
    && latest.checksum != booted.checksum
    && (|| latest.refspec.ref != booted.refspec.ref
        || booted.checksum !in poll.commits
        || poll.commits[booted.checksum].timestamp < poll.commits[latest.checksum].timestamp)
  }

  /** The trail leads from there to a commit that is forward. */
  ghost predicate LeadsForward(poll: Poll, booted: Boot, trail: Trail, from: Refspec) {
    var latest := FetchThrough(trail.views, from);
    latest.Latest? && latest.checksum in poll.commits && IsForward(poll, booted, latest)
  }

  /** It leads to the booted commit, or to one that is not forward. */
  ghost predicate LeadsNowhere(poll: Poll, booted: Boot, trail: Trail, from: Refspec) {
    var latest := FetchThrough(trail.views, from);
    && latest.Latest?
    && (|| latest.checksum == booted.checksum
        || (latest.checksum in poll.commits && !IsForward(poll, booted, latest)))
  }

  ghost predicate HasSources(trail: Trail, refspec: Refspec) {
    refspec in trail.advertised && trail.advertised[refspec] != []
  }

  /** The search comes to this branch in those places. */
  ghost predicate Tried(poll: Poll, booted: Boot, where: Where, second: bool) {
    second ==> LeadsNowhere(poll, booted, TrailAt(poll, where, false), booted.refspec)
  }

  /** What these places have is offered, by this branch. */
  ghost predicate Taken(poll: Poll, booted: Boot, where: Where, second: bool) {
    && Tried(poll, booted, where, second)
    && LeadsForward(poll, booted, TrailAt(poll, where, second), StartAt(poll, booted, second))
    && (var latest := FetchThrough(TrailAt(poll, where, second).views, StartAt(poll, booted, second));
        latest.Latest? && (where == Main || HasSources(TrailAt(poll, where, second), latest.refspec)))
  }

  /** These places have nothing that can be offered, and the search does not fail
      there. */
  ghost predicate Exhausted(poll: Poll, booted: Boot, where: Where) {
    exists second :: Tried(poll, booted, where, second) && ExhaustedBy(poll, booted, where, second)
  }

  ghost predicate ExhaustedBy(poll: Poll, booted: Boot, where: Where, second: bool) {
    var trail, from := TrailAt(poll, where, second), StartAt(poll, booted, second);
    || (second && LeadsNowhere(poll, booted, trail, from))
    || (LeadsForward(poll, booted, trail, from) && FetchThrough(trail.views, from).Latest?
        && !HasSources(trail, FetchThrough(trail.views, from).refspec))
  }

  /** The search comes to these places: offline ones first, then online ones if
      the offline ones have nothing, and the main source if neither is taken. */
  ghost predicate ComesTo(poll: Poll, booted: Boot, where: Where) {
    match where
    case Offline => poll.offline.exist
    case Online => poll.online.exist && (poll.offline.exist ==> Exhausted(poll, booted, Offline))
    case Main =>
      && poll.fallback && poll.mainEnabled
      && !(poll.offline.exist && exists second :: Taken(poll, booted, Offline, second))
      && !(poll.online.exist && (poll.offline.exist ==> Exhausted(poll, booted, Offline))
           && exists second :: Taken(poll, booted, Online, second))
  }

  lemma {:induction false} BranchFinds(poll: Poll, trail: Trail, booted: Boot, from: Refspec)
    ensures (var latest := FetchThrough(trail.views, from);
             var search := SearchBranch(poll, trail, booted, from);
             && (search.Found? <==> LeadsForward(poll, booted, trail, from))
             && (search.Nothing? <==> LeadsNowhere(poll, booted, trail, from))
             && (search.Found? ==>
                   && latest.Latest? && search.info.checksum == latest.checksum && search.info.refspec == latest.refspec
                   && search.info.original == booted.refspec && search.info.version == latest.version
                   && search.info.visible == GrowsVisibly(poll, booted, latest.checksum) && !search.info.offline
                   && (search.info.results != [] <==> HasSources(trail, latest.refspec))
                   && (HasSources(trail, latest.refspec) ==> search.info.results == trail.advertised[latest.refspec])))
  {
  }

  /** Both major versions are known, and this commit's is the greater. */
  ghost predicate GrowsVisibly(poll: Poll, booted: Boot, checksum: string) {
    && booted.checksum in poll.commits && checksum in poll.commits
    && poll.commits[booted.checksum].major.Some? && poll.commits[checksum].major.Some?
    && poll.commits[booted.checksum].major.value < poll.commits[checksum].major.value
  }

  lemma {:induction false} PlacesFind(poll: Poll, booted: Boot, where: Where)
    ensures (var search := SearchPlaces(poll, PlacesAt(poll, where), booted);
             var one, two := SearchBranch(poll, TrailAt(poll, where, false), booted, StartAt(poll, booted, false)),
                             SearchBranch(poll, TrailAt(poll, where, true), booted, StartAt(poll, booted, true));
             && search == (if one.Nothing? then two else one)
             && (one.Nothing? <==> Tried(poll, booted, where, true)))
  {
    BranchFinds(poll, TrailAt(poll, where, false), booted, booted.refspec);
  }

  /** What is offered when the search takes what it finds there. */
  ghost predicate OffersThat(poll: Poll, booted: Boot, where: Where, second: bool, offer: Option<Info>) {
    var trail := TrailAt(poll, where, second);
    var latest := FetchThrough(trail.views, StartAt(poll, booted, second));
    && offer.Some? && latest.Latest?
    && offer.value.checksum == latest.checksum && offer.value.refspec == latest.refspec
    && offer.value.original == booted.refspec && offer.value.version == latest.version
    && (offer.value.visible <==> GrowsVisibly(poll, booted, latest.checksum))
    && (offer.value.offline <==> where == Offline)
    && (if where == Main then offer.value.results == []
        else HasSources(trail, latest.refspec) && offer.value.results == trail.advertised[latest.refspec])
  }

  lemma {:induction false} TakenFound(poll: Poll, booted: Boot, where: Where, second: bool)
    requires Taken(poll, booted, where, second)
    ensures (var search := SearchPlaces(poll, PlacesAt(poll, where), booted);
             && search == SearchBranch(poll, TrailAt(poll, where, second), booted, StartAt(poll, booted, second))
             && search.Found? && (where != Main ==> Usable(search)))
  {
    PlacesFind(poll, booted, where);
    BranchFinds(poll, TrailAt(poll, where, second), booted, StartAt(poll, booted, second));
    BranchFinds(poll, TrailAt(poll, where, false), booted, booted.refspec);
    hide LeadsForward, LeadsNowhere, SearchBranch;
  }

  lemma {:induction false} FoundTaken(poll: Poll, booted: Boot, where: Where) returns (second: bool)
    requires (var search := SearchPlaces(poll, PlacesAt(poll, where), booted);
              search.Found? && (where != Main ==> Usable(search)))
    ensures Taken(poll, booted, where, second)
  {
    PlacesFind(poll, booted, where);
    second := SearchBranch(poll, TrailAt(poll, where, false), booted, StartAt(poll, booted, false)).Nothing?;
    BranchFinds(poll, TrailAt(poll, where, second), booted, StartAt(poll, booted, second));
    hide LeadsForward, LeadsNowhere, SearchBranch;
  }

  lemma {:induction false} ExhaustedIff(poll: Poll, booted: Boot, where: Where)
    ensures (var search := SearchPlaces(poll, PlacesAt(poll, where), booted);
             !search.SearchFailed? && !Usable(search) <==> Exhausted(poll, booted, where))
  {
    PlacesFind(poll, booted, where);
    BranchFinds(poll, TrailAt(poll, where, false), booted, StartAt(poll, booted, false));
    BranchFinds(poll, TrailAt(poll, where, true), booted, StartAt(poll, booted, true));
    hide LeadsForward, LeadsNowhere, SearchBranch;
    var search := SearchPlaces(poll, PlacesAt(poll, where), booted);
    if !search.SearchFailed? && !Usable(search) {
      var second := SearchBranch(poll, TrailAt(poll, where, false), booted, StartAt(poll, booted, false)).Nothing?;
      assert Tried(poll, booted, where, second) && ExhaustedBy(poll, booted, where, second);
    }
  }

  lemma {:induction false} SearchesIff(poll: Poll, booted: Boot, where: Where)
    requires where != Main
    ensures (exists second :: Taken(poll, booted, where, second)) <==>
              Usable(SearchPlaces(poll, PlacesAt(poll, where), booted))
  {
    hide Taken, SearchPlaces;
    if Usable(SearchPlaces(poll, PlacesAt(poll, where), booted)) {
      var second := FoundTaken(poll, booted, where);
    }
    if second :| Taken(poll, booted, where, second) {
      TakenFound(poll, booted, where, second);
    }
  }

  lemma {:induction false} ComesToSearch(poll: Poll, booted: Boot)
    ensures (var offline, online := SearchPlaces(poll, poll.offline, booted), SearchPlaces(poll, poll.online, booted);
             && (ComesTo(poll, booted, Online) <==>
                   poll.online.exist && (poll.offline.exist ==> !offline.SearchFailed? && !Usable(offline)))
             && (ComesTo(poll, booted, Main) <==>
                   && poll.fallback && poll.mainEnabled
                   && !(poll.offline.exist && Usable(offline))
                   && !(ComesTo(poll, booted, Online) && Usable(online))))
  {
    hide Taken, Exhausted, SearchPlaces;
    ExhaustedIff(poll, booted, Offline);
    SearchesIff(poll, booted, Offline);
    SearchesIff(poll, booted, Online);
  }

  /** A poll offers an update exactly if the search comes to places that have one
      to take, and then offers just what it takes there: everything that is
      offered, and nothing else, follows from what the trails lead to, the dates
      and the majors of the commits, and who advertises them. */
  lemma {:induction false} OfferedExactly(poll: Poll, booted: Boot)
    ensures Offered(poll, booted).Some? <==>
              exists where, second :: ComesTo(poll, booted, where) && Taken(poll, booted, where, second)
    ensures forall where, second :: ComesTo(poll, booted, where) && Taken(poll, booted, where, second) ==>
                                      OffersThat(poll, booted, where, second, Offered(poll, booted))
  {
    hide Taken, ComesTo, SearchPlaces, OffersThat;
    forall where, second | ComesTo(poll, booted, where) && Taken(poll, booted, where, second)
      ensures OffersThat(poll, booted, where, second, Offered(poll, booted))
      ensures Offered(poll, booted).Some?
    {
      TakenIsOffered(poll, booted, where, second);
    }
    if Offered(poll, booted).Some? {
      var where := OfferedFrom(poll, booted);
      var second := FoundTaken(poll, booted, where);
    }
  }

  lemma {:induction false} OfferedFrom(poll: Poll, booted: Boot) returns (where: Where)
    requires Offered(poll, booted).Some?
    ensures ComesTo(poll, booted, where)
    ensures (var search := SearchPlaces(poll, PlacesAt(poll, where), booted);
             search.Found? && (where != Main ==> Usable(search)))
  {
    ComesToSearch(poll, booted);
    assert ComesTo(poll, booted, Offline) <==> poll.offline.exist;
    hide ComesTo, SearchPlaces;
    var offline, online := SearchIfAny(poll, poll.offline, booted), SearchIfAny(poll, poll.online, booted);
    where := if Usable(offline) then Offline else if !offline.SearchFailed? && Usable(online) then Online else Main;
  }

  lemma {:induction false} TakenIsOffered(poll: Poll, booted: Boot, where: Where, second: bool)
    requires ComesTo(poll, booted, where) && Taken(poll, booted, where, second)
    ensures OffersThat(poll, booted, where, second, Offered(poll, booted)) && Offered(poll, booted).Some?
  {
    TakenFound(poll, booted, where, second);
    BranchFinds(poll, TrailAt(poll, where, second), booted, StartAt(poll, booted, second));
    ComesToSearch(poll, booted);
    assert ComesTo(poll, booted, Offline) <==> poll.offline.exist;
    hide ComesTo, SearchPlaces, SearchBranch, LeadsForward, LeadsNowhere, GrowsVisibly;
  }

  /** The commit that the search comes to is offered exactly if it is on another
      branch than the booted one, or that one is lost, or it is later. */
  lemma {:induction false} CommitOfferedIff(poll: Poll, booted: Boot, where: Where, second: bool, latest: Outcome)
    requires ComesTo(poll, booted, where) && Tried(poll, booted, where, second)
    requires latest == FetchThrough(TrailAt(poll, where, second).views, StartAt(poll, booted, second))
    requires latest.Latest? && (where == Main || HasSources(TrailAt(poll, where, second), latest.refspec))
    requires latest.checksum in poll.commits && latest.checksum != booted.checksum
    ensures (var offer := Offered(poll, booted);
             offer.Some? && offer.value.checksum == latest.checksum && offer.value.refspec == latest.refspec)
       <==> (|| latest.refspec.ref != booted.refspec.ref
             || booted.checksum !in poll.commits
             || poll.commits[booted.checksum].timestamp < poll.commits[latest.checksum].timestamp)
    ensures (var offer := Offered(poll, booted);
             offer.Some? && offer.value.checksum == latest.checksum && offer.value.refspec == latest.refspec ==>
               (offer.value.visible <==>
                  && booted.checksum in poll.commits
                  && poll.commits[booted.checksum].major.Some? && poll.commits[latest.checksum].major.Some?
                  && poll.commits[booted.checksum].major.value < poll.commits[latest.checksum].major.value))
  {
    OfferedExactly(poll, booted);
    if IsForward(poll, booted, latest) {
      assert Taken(poll, booted, where, second);
    } else if Offered(poll, booted).Some? {
      OfferIsLegitimate(poll, booted);
    }
    if Offered(poll, booted).Some? {
      VisibleIff(poll, booted);
    }
  }

  lemma {:induction false} VisibleIff(poll: Poll, booted: Boot)
    requires Offered(poll, booted).Some?
    ensures Offered(poll, booted).value.visible <==> GrowsVisibly(poll, booted, Offered(poll, booted).value.checksum)
  {
    OfferedExactly(poll, booted);
    var where, second :| ComesTo(poll, booted, where) && Taken(poll, booted, where, second);
    assert OffersThat(poll, booted, where, second, Offered(poll, booted));
  }

  function OnePlace(heads: Heads, refspec: Refspec): Places {
    var trail := Trail(Steady(heads, 2), map[refspec := ["source"]]);
    Places(true, trail, trail)
  }

  function OnePoll(commits: Commits, heads: Heads, refspec: Refspec): Poll {
    var nothing := Trail([], map[]);
    var nowhere := Places(false, nothing, nothing);
    Poll(commits, None, OnePlace(heads, refspec), nowhere, nowhere, false, false)
  }

  /** Branch a, at commit r, redirects to branch b, at commit d. */
  function Redirecting(a: Refspec, b: Refspec, r: string, d: string): Heads {
    map[a := Head(r, Present(Some(b.ref), None, None)), b := Head(d, Present(None, None, None))]
  }

  lemma {:induction false} RedirectedOffer(commits: Commits, a: Refspec, b: Refspec, c: string, r: string, d: string)
    requires a.remote == b.remote && a.ref != b.ref && c != d && c in commits && d in commits
    ensures (var poll := OnePoll(commits, Redirecting(a, b, r, d), b);
             Offered(poll, Boot(a, c)).Some? && Offered(poll, Boot(a, c)).value.refspec == b
             && Offered(poll, Boot(a, c)).value.checksum == d)
  {
    var heads := Redirecting(a, b, r, d);
    var poll := OnePoll(commits, heads, b);
    assert Follow(heads, a, 0) == Some(a) && Follow(heads, a, 1) == Some(b);
    FetchIsLastOfChain(heads, a, 1, 2);
    assert SearchBranch(poll, poll.offline.first, Boot(a, c), a).Found?;
  }

  /** Every head that a search meets agrees with these contents. */
  ghost predicate TrailAgrees(trail: Trail, contents: map<string, Commit>) {
    forall i :: 0 <= i < |trail.views| ==> HeadsAgree(trail.views[i], contents)
  }

  ghost predicate HeadsAgree(heads: Heads, contents: map<string, Commit>) {
    forall refspec :: refspec in heads && heads[refspec].Head? && heads[refspec].commit.Present? ==>
                        heads[refspec].checksum in contents
                        && contents[heads[refspec].checksum] == heads[refspec].commit
  }

  /** A checksum names one commit object, with one redirection or none, wherever
      it is met. */
  ghost predicate OneContent(polls: seq<Poll>, contents: map<string, Commit>) {
    forall i, where, second :: 0 <= i < |polls| ==> TrailAgrees(TrailAt(polls[i], where, second), contents)
  }

  /** What the four commits of the example below contain: r and s redirect, c and
      d do not. */
  function FourCommits(a: Refspec, b: Refspec, c: string, d: string, r: string, s: string): map<string, Commit> {
    map[c := Present(None, None, None), d := Present(None, None, None),
        r := Present(Some(b.ref), None, None), s := Present(Some(a.ref), None, None)]
  }

  lemma {:induction false} OnePollAgrees(commits: Commits, a: Refspec, b: Refspec, r: string, d: string,
                                         contents: map<string, Commit>)
    requires r in contents && contents[r] == Present(Some(b.ref), None, None)
    requires d in contents && contents[d] == Present(None, None, None)
    ensures (var poll := OnePoll(commits, Redirecting(a, b, r, d), b);
             forall where, second :: TrailAgrees(TrailAt(poll, where, second), contents))
  {
    assert HeadsAgree(Redirecting(a, b, r, d), contents);
  }

  /** Branch a comes to redirect to b, and later b to a: the system returns to the
      commit it started from, though every commit could be loaded and each
      checksum names one commit throughout. */
  lemma {:induction false} BranchesCanLeadBack(a: Refspec, b: Refspec, c: string, d: string, r: string, s: string,
                                               truth: Commits)
    returns (polls: seq<Poll>, boots: seq<Boot>, contents: map<string, Commit>)
    requires a.remote == b.remote && a.ref != b.ref && c in truth && d in truth
    requires c != d && r != s && r != c && r != d && s != c && s != d
    ensures Updated(polls, boots) && OneTruth(polls, truth) && OneContent(polls, contents) && |boots| == 3
    ensures boots[0] == boots[2] == Boot(a, c) && boots[1] == Boot(b, d)
    ensures forall k :: 0 <= k < |polls| ==> boots[k].checksum in polls[k].commits
  {
    contents := FourCommits(a, b, c, d, r, s);
    RedirectedOffer(truth, a, b, c, r, d);
    RedirectedOffer(truth, b, a, d, s, c);
    OnePollAgrees(truth, a, b, r, d, contents);
    OnePollAgrees(truth, b, a, s, c, contents);
    var there, back := OnePoll(truth, Redirecting(a, b, r, d), b), OnePoll(truth, Redirecting(b, a, s, c), a);
    polls, boots := [there, back], [Boot(a, c), Boot(b, d), Boot(a, c)];
  }
}
