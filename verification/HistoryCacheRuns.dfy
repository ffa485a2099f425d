// Every interleaving of loads, refreshes and writers around the cache of
// native pages.
//
// A load looks at the file, takes the lock to look up its page, reads the
// transcript without the lock if it has to, and takes the lock again to store
// the page. Files change and refreshes invalidate at any point between.
module HistoryCacheRuns {
  import opened Options
  import opened TranscriptPaging
  import opened NativeHistoryCache

  datatype Version = Version(stamp: Stamp, messages: seq<Message>)

  datatype Stage = Looking | Missed | Got(page: Page)

  // A load that saw the file as version `since` of it.
  datatype Flight = Flight(key: Key, stamp: Stamp, since: nat, stage: Stage)

  // All versions of each file, the present one last.
  type Versions = map<Source, seq<Version>>
  type Flights = map<nat, Flight>

  datatype System = System(items: Items, versions: Versions, flights: Flights)

  datatype Event =
    | Change(source: Source, version: Version)
    | Begin(load: nat, source: Source, limit: nat)
    | LookUp(load: nat, now: int)
    | Read(load: nat)
    | Finish(load: nat, evicted: Key, now: int)
    | Refresh(path: string)

  // A load in the air is one of a file that is there.
  predicate Known(versions: Versions, f: Flight) {
    && f.key.source in versions && f.since < |versions[f.key.source]|
    && f.stamp == versions[f.key.source][f.since].stamp
  }

  ghost predicate Enabled(s: System, e: Event) {
    match e
    case Change(_, _) => true
    case Begin(load, source, limit) => load !in s.flights && source in s.versions && s.versions[source] != []
    case LookUp(load, _) => load in s.flights && s.flights[load].stage == Looking
    case Read(load) => load in s.flights && s.flights[load].stage == Missed && Present(s.versions, s.flights[load].key)
    case Finish(load, evicted, _) => load in s.flights && s.flights[load].stage.Got?
                                     && (|s.items| >= MAX_ENTRIES ==> IsOldest(s.items, evicted))
    case Refresh(_) => true
  }

  predicate Hit(s: System, load: nat) {
    && load in s.flights
    && s.flights[load].key in s.items
    && s.items[s.flights[load].key].stamp == s.flights[load].stamp
  }

  ghost function Next(s: System, e: Event): System
    requires Enabled(s, e)
  {
    match e
    case Change(source, version) =>
      var before := if source in s.versions then s.versions[source] else [];
      s.(versions := s.versions[source := before + [version]])
    case Begin(load, source, limit) =>
      var n := |s.versions[source]| - 1;
      s.(flights := s.flights[load := Flight(Key(source, limit), s.versions[source][n].stamp, n, Looking)])
    case LookUp(load, now) =>
      var f := s.flights[load];
      if Hit(s, load) then s.(items := s.items[f.key := s.items[f.key].(lastAccess := now)], flights := s.flights - {load})
      else s.(flights := s.flights[load := f.(stage := Missed)])
    case Read(load) =>
      var f := s.flights[load];
      s.(flights := s.flights[load := f.(stage := Got(PresentPage(s.versions, f.key)))])
    case Finish(load, evicted, now) =>
      var f := s.flights[load];
      s.(items := Stored(s.items, f.key, Cached(f.stamp, f.stage.page, now), evicted), flights := s.flights - {load})
    case Refresh(path) => s.(items := Invalidated(s.items, path))
  }

  predicate Present(versions: Versions, key: Key) {
    key.source in versions && versions[key.source] != []
  }

  function PageOf(versions: Versions, key: Key, v: nat): Page
    requires key.source in versions && v < |versions[key.source]|
  {
    FreshPage(versions[key.source][v].messages, "", key.limit)
  }

  function PresentPage(versions: Versions, key: Key): Page
    requires Present(versions, key)
  {
    PageOf(versions, key, |versions[key.source]| - 1)
  }

  // The page is what the file said at version `low` or at a later one.
  ghost predicate SaidSince(versions: Versions, key: Key, page: Page, low: nat) {
    && key.source in versions
    && exists v: nat :: low <= v < |versions[key.source]| && page == PageOf(versions, key, v)
  }

  // ----- pages are not older than their stamps -----

  // The page is no older than any version of the file, from `floor` on, that
  // looks like the stamp it is kept under.
  ghost predicate NotOlder(versions: Versions, key: Key, stamp: Stamp, page: Page, floor: nat) {
    key.source in versions ==>
      forall u: nat :: floor <= u < |versions[key.source]| && versions[key.source][u].stamp == stamp ==>
                         SaidSince(versions, key, page, u)
  }

  ghost predicate ItemsSound(versions: Versions, items: Items, source: Source, floor: nat) {
    forall k :: k in items && k.source == source ==> NotOlder(versions, k, items[k].stamp, items[k].page, floor)
  }

  ghost predicate FlightSound(versions: Versions, f: Flight, floor: nat) {
    && Known(versions, f)
    && (f.stage.Got? ==>
          && NotOlder(versions, f.key, f.stamp, f.stage.page, floor)
          && SaidSince(versions, f.key, f.stage.page, f.since))
  }

  ghost predicate FlightsSound(versions: Versions, flights: Flights, source: Source, floor: nat) {
    forall f :: f in flights && flights[f].key.source == source ==> FlightSound(versions, flights[f], floor)
  }

  ghost predicate Sound(s: System, source: Source, floor: nat) {
    && source in s.versions && s.versions[source] != []
    && ItemsSound(s.versions, s.items, source, floor)
    && FlightsSound(s.versions, s.flights, source, floor)
  }

  // A change of this file gives it a look it never had, that no page is kept
  // under.
  ghost predicate NewLook(s: System, e: Event, source: Source) {
    e.Change? && e.source == source ==>
      && (source in s.versions ==> forall v :: v in s.versions[source] ==> v.stamp != e.version.stamp)
      && (forall k :: k in s.items && k.source == source ==> s.items[k].stamp != e.version.stamp)
  }

  lemma {:induction false} MoreSaid(before: Versions, after: Versions, key: Key, page: Page, low: nat)
    requires SaidSince(before, key, page, low)
    requires key.source in after && before[key.source] <= after[key.source]
    ensures SaidSince(after, key, page, low)
  {
    hide FreshPage;
    var v: nat :| low <= v < |before[key.source]| && page == PageOf(before, key, v);
    assert page == PageOf(after, key, v);
  }

  // One more version with a new look takes nothing away.
  lemma {:induction false} MoreNotOlder(before: Versions, after: Versions, key: Key, stamp: Stamp, page: Page, floor: nat)
    requires key.source in before && NotOlder(before, key, stamp, page, floor)
    requires key.source in after && before[key.source] <= after[key.source]
    requires forall u :: |before[key.source]| <= u < |after[key.source]| ==> after[key.source][u].stamp != stamp
    ensures NotOlder(after, key, stamp, page, floor)
  {
    hide SaidSince;
    forall u: nat | floor <= u < |after[key.source]| && after[key.source][u].stamp == stamp
      ensures SaidSince(after, key, page, u)
    {
      assert before[key.source][u] == after[key.source][u];
      MoreSaid(before, after, key, page, u);
    }
  }

  lemma {:induction false} PresentIsNotOlder(versions: Versions, key: Key, stamp: Stamp, floor: nat, since: nat)
    requires Present(versions, key) && since < |versions[key.source]|
    ensures NotOlder(versions, key, stamp, PresentPage(versions, key), floor)
    ensures SaidSince(versions, key, PresentPage(versions, key), since)
  {
    hide FreshPage;
    var n := |versions[key.source]| - 1;
    assert PresentPage(versions, key) == PageOf(versions, key, n);
  }

  lemma {:induction false} StepKeepsSound(s: System, e: Event, source: Source, floor: nat)
    requires Sound(s, source, floor) && Enabled(s, e) && NewLook(s, e, source)
    ensures Sound(Next(s, e), source, floor)
  {
    hide Sound, NewLook, Enabled, Next;
    match e
    case Change(_, _) => ChangeKeepsSound(s, e, source, floor);
    case Begin(_, _, _) => BeginKeepsSound(s, e, source, floor);
    case LookUp(_, _) => LookUpKeepsSound(s, e, source, floor);
    case Read(_) => ReadKeepsSound(s, e, source, floor);
    case Finish(_, _, _) => FinishKeepsSound(s, e, source, floor);
    case Refresh(path) => RefreshKeepsSound(s, e, source, floor);
  }

  lemma {:induction false} BeginKeepsSound(s: System, e: Event, source: Source, floor: nat)
    requires Sound(s, source, floor) && Enabled(s, e) && e.Begin?
    ensures Sound(Next(s, e), source, floor)
  {
    hide NotOlder, SaidSince;
  }

  lemma {:induction false} LookUpKeepsSound(s: System, e: Event, source: Source, floor: nat)
    requires Sound(s, source, floor) && Enabled(s, e) && e.LookUp?
    ensures Sound(Next(s, e), source, floor)
  {
    hide NotOlder, SaidSince;
    var f := s.flights[e.load];
    assert f.key.source == source ==> FlightSound(s.versions, f, floor);
  }

  lemma {:induction false} ReadKeepsSound(s: System, e: Event, source: Source, floor: nat)
    requires Sound(s, source, floor) && Enabled(s, e) && e.Read?
    ensures Sound(Next(s, e), source, floor)
  {
    hide NotOlder, SaidSince, PresentPage;
    var f := s.flights[e.load];
    if f.key.source == source {
      assert FlightSound(s.versions, f, floor);
      PresentIsNotOlder(s.versions, f.key, f.stamp, floor, f.since);
    }
  }

  lemma {:induction false} FinishKeepsSound(s: System, e: Event, source: Source, floor: nat)
    requires Sound(s, source, floor) && Enabled(s, e) && e.Finish?
    ensures Sound(Next(s, e), source, floor)
  {
    hide NotOlder, SaidSince, Stored, IsOldest;
    var f := s.flights[e.load];
    assert f.key.source == source ==> FlightSound(s.versions, f, floor);
    StoredParts(s.items, f.key, Cached(f.stamp, f.stage.page, e.now), e.evicted);
  }

  lemma {:induction false} RefreshKeepsSound(s: System, e: Event, source: Source, floor: nat)
    requires Sound(s, source, floor) && e.Refresh?
    ensures Sound(Next(s, e), source, floor)
  {
    hide NotOlder, SaidSince, Invalidated;
    InvalidatedParts(s.items, e.path);
  }

  lemma {:induction false} ChangeKeepsSound(s: System, e: Event, source: Source, floor: nat)
    requires Sound(s, source, floor) && e.Change? && NewLook(s, e, source)
    ensures Sound(Next(s, e), source, floor)
  {
    hide NotOlder, SaidSince;
    var before, after := s.versions, Next(s, e).versions;
    assert before[source] <= after[source];
    forall k | k in s.items && k.source == source
      ensures NotOlder(after, k, s.items[k].stamp, s.items[k].page, floor)
    {
      MoreNotOlder(before, after, k, s.items[k].stamp, s.items[k].page, floor);
    }
    forall f | f in s.flights && s.flights[f].key.source == source ensures FlightSound(after, s.flights[f], floor) {
      var g := s.flights[f];
      assert FlightSound(before, g, floor) && before[source][g.since] in before[source];
      if g.stage.Got? {
        MoreNotOlder(before, after, g.key, g.stamp, g.stage.page, floor);
        MoreSaid(before, after, g.key, g.stage.page, g.since);
      }
    }
  }

  // ----- what loads are served -----

  // Whatever page a load is served, from the cache or by its own reading, is
  // what the file said at some point since the load began.
  ghost predicate ServedTimely(s: System, load: nat)
    requires load in s.flights
  {
    var f := s.flights[load];
    && (Hit(s, load) ==> SaidSince(s.versions, f.key, s.items[f.key].page, f.since))
    && (f.stage.Got? ==> SaidSince(s.versions, f.key, f.stage.page, f.since))
  }

  lemma {:induction false} SoundIsTimely(s: System, load: nat, floor: nat)
    requires load in s.flights && Sound(s, s.flights[load].key.source, floor) && s.flights[load].since >= floor
    ensures ServedTimely(s, load)
  {
    hide SaidSince;
    assert FlightSound(s.versions, s.flights[load], floor);
  }

  // The run leads from s to t, and the file never takes on an old look.
  ghost predicate Leads(s: System, run: seq<Event>, t: System, source: Source)
    decreases |run|
  {
    if run == [] then s == t
    else Enabled(s, run[0]) && NewLook(s, run[0], source) && Leads(Next(s, run[0]), run[1..], t, source)
  }

  lemma {:induction false} RunKeepsSound(s: System, run: seq<Event>, t: System, source: Source, floor: nat)
    requires Sound(s, source, floor) && Leads(s, run, t, source)
    ensures Sound(t, source, floor)
    decreases |run|
  {
    hide Sound, Next, Enabled, NewLook;
    if run != [] {
      StepKeepsSound(s, run[0], source, floor);
      RunKeepsSound(Next(s, run[0]), run[1..], t, source, floor);
    }
  }

  // Started empty, and as long as the file does not take on a look it had
  // before, every load of every interleaving is served what the file said
  // while the load ran.
  lemma {:induction false} AllServedTimely(versions: Versions, run: seq<Event>, t: System, load: nat)
    requires load in t.flights && Present(versions, t.flights[load].key)
    requires Leads(System(map[], versions, map[]), run, t, t.flights[load].key.source)
    ensures ServedTimely(t, load)
  {
    hide SaidSince, Leads, NotOlder, ServedTimely;
    var source := t.flights[load].key.source;
    RunKeepsSound(System(map[], versions, map[]), run, t, source, 0);
    SoundIsTimely(t, load, 0);
  }

  // ----- what a refresh achieves -----

  // A load has read its page before the refresh, while the file looked as it
  // does now but said something else.
  ghost predicate StaleInTheAir(s: System, source: Source, load: nat) {
    && load in s.flights && s.flights[load].key.source == source && s.flights[load].stage.Got?
    && Present(s.versions, s.flights[load].key)
    && s.flights[load].stamp == s.versions[source][|s.versions[source]| - 1].stamp
    && s.flights[load].stage.page != PresentPage(s.versions, s.flights[load].key)
  }

  // The loads in the air have read what the file said, whatever its looks.
  ghost predicate Honest(s: System) {
    forall f :: f in s.flights ==>
                  && Known(s.versions, s.flights[f])
                  && (s.flights[f].stage.Got? ==>
                        SaidSince(s.versions, s.flights[f].key, s.flights[f].stage.page, s.flights[f].since))
  }

  // Whatever happened before, changes that kept the look of the file included:
  // after a refresh the cache is sound from the present version on if and only
  // if no stale page is in the air.
  lemma {:induction false} RefreshIsSound(s: System, source: Source)
    requires Honest(s) && source in s.versions && s.versions[source] != []
    ensures Sound(Next(s, Refresh(source.path)), source, |s.versions[source]| - 1)
            <==> forall load :: !StaleInTheAir(s, source, load)
  {
    hide SaidSince, NotOlder, PresentPage, Invalidated;
    var last := |s.versions[source]| - 1;
    InvalidatedParts(s.items, source.path);
    forall f | f in s.flights && s.flights[f].key.source == source
      ensures FlightSound(s.versions, s.flights[f], last) <==> !StaleInTheAir(s, source, f)
    {
      var g := s.flights[f];
      if g.stage.Got? {
        LastNotOlder(s.versions, g.key, g.stamp, g.stage.page);
      }
    }
  }

  lemma {:induction false} LastNotOlder(versions: Versions, key: Key, stamp: Stamp, page: Page)
    requires Present(versions, key)
    ensures var last := |versions[key.source]| - 1;
            NotOlder(versions, key, stamp, page, last)
            <==> (versions[key.source][last].stamp == stamp ==> page == PresentPage(versions, key))
  {
    hide SaidSince, PresentPage;
    OnlyPresent(versions, key, page);
  }

  // Loads are honest in every run, so this is the condition after any of them.
  lemma {:induction false} StepKeepsHonest(s: System, e: Event)
    requires Honest(s) && Enabled(s, e)
    ensures Honest(Next(s, e))
  {
    hide SaidSince, PresentPage, Stored, Invalidated, IsOldest;
    var before, after := s.versions, Next(s, e).versions;
    match e
    case Change(_, _) =>
      forall f | f in s.flights && s.flights[f].stage.Got?
        ensures SaidSince(after, s.flights[f].key, s.flights[f].stage.page, s.flights[f].since)
      {
        assert Known(before, s.flights[f]);
        MoreSaid(before, after, s.flights[f].key, s.flights[f].stage.page, s.flights[f].since);
      }
    case Begin(_, _, _) =>
    case LookUp(_, _) =>
    case Read(load) =>
      var f := s.flights[load];
      PresentIsNotOlder(before, f.key, f.stamp, 0, f.since);
    case Finish(_, _, _) =>
    case Refresh(_) =>
  }

  // And a stale page in the air is served: the load stores it after the
  // refresh, and the next load of the unchanged file finds it.
  function RefreshInVain(source: Source, limit: nat, load: nat, evicted: Key, now: int, other: nat): seq<Event> {
    [Refresh(source.path), Finish(load, evicted, now), Begin(other, source, limit)]
  }

  lemma {:induction false} StaleIsServed(s: System, source: Source, load: nat, other: nat, evicted: Key, now: int)
    returns (t: System)
    requires StaleInTheAir(s, source, load) && other !in s.flights
    requires |Invalidated(s.items, source.path)| >= MAX_ENTRIES ==> IsOldest(Invalidated(s.items, source.path), evicted)
    ensures Leads(s, RefreshInVain(source, s.flights[load].key.limit, load, evicted, now, other), t, source)
    ensures t.versions == s.versions && Hit(t, other) && !ServedTimely(t, other)
  {
    hide FreshPage, Invalidated, Stored, IsOldest, PresentPage, Leads;
    var f := s.flights[load];
    var refresh, finish, begin := Refresh(source.path), Finish(load, evicted, now), Begin(other, source, f.key.limit);
    var r := Next(s, refresh);
    StoredParts(r.items, f.key, Cached(f.stamp, f.stage.page, now), evicted);
    var u := Next(r, finish);
    t := Next(u, begin);
    LeadsOne(u, begin, [], t, source);
    LeadsOne(r, finish, [begin], t, source);
    LeadsOne(s, refresh, [finish, begin], t, source);
    OnlyPresent(s.versions, f.key, f.stage.page);
  }

  lemma {:induction false} LeadsOne(s: System, e: Event, run: seq<Event>, t: System, source: Source)
    requires Enabled(s, e) && NewLook(s, e, source)
    requires if run == [] then t == Next(s, e) else Leads(Next(s, e), run, t, source)
    ensures Leads(s, [e] + run, t, source)
    ensures run == [] ==> [e] + run == [e]
    ensures forall d :: run == [d] ==> [e] + run == [e, d]
    ensures forall d, c :: run == [d, c] ==> [e] + run == [e, d, c]
  {
    hide Enabled, NewLook, Next;
    assert ([e] + run)[1..] == run;
  }

  lemma {:induction false} OnlyPresent(versions: Versions, key: Key, page: Page)
    requires Present(versions, key)
    ensures SaidSince(versions, key, page, |versions[key.source]| - 1) <==> page == PresentPage(versions, key)
  {
    hide FreshPage;
    var last := |versions[key.source]| - 1;
    assert SaidSince(versions, key, page, last) <==> page == PageOf(versions, key, last);
  }
}
