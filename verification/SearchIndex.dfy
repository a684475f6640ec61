/**
 * The search index of a Meilisearch server (rebuildSearchIndex and
 * syncSearchIndex in apps/cms/src/search/meili-index.ts). The server answers
 * a call by queueing a task and works the queue off in order, also after
 * the caller gave up waiting.
 */
module SearchIndex {
  import opened Common
  import opened SearchBatches

  const FULL_CHECK_MS: int := 60 * 60000
  const SEARCH_BATCH_BYTES: int := 10000000

  /** An index by document id. */
  type Index = map<string, Document>

  datatype Task = DropBuild | CreateBuild | SetSettings | AddDocuments(batch: seq<Document>) | CreateLive | Swap
  datatype Server = Server(live: Option<Index>, build: Option<Index>, queue: seq<Task>)

  /** Documents added to an index, a later one over an earlier one with its id. */
  function AddAll(index: Index, documents: seq<Document>): Index {
    if documents == [] then index
    else
      var last := documents[|documents| - 1];
      AddAll(index, documents[..|documents| - 1])[last.id := last]
  }

  function IndexOf(documents: seq<Document>): Index {
    AddAll(map[], documents)
  }

  /** An index has the ids of its documents, each with the last one of that id. */
  lemma {:induction false} IndexMeans(documents: seq<Document>, i: nat)
    requires i < |documents| && forall k :: i < k < |documents| ==> documents[k].id != documents[i].id
    ensures documents[i].id in IndexOf(documents) && IndexOf(documents)[documents[i].id] == documents[i]
    ensures forall id :: id in IndexOf(documents) ==> exists k :: 0 <= k < |documents| && documents[k].id == id
    decreases documents
  {
    var last := |documents| - 1;
    IdsAreOfDocuments(documents);
    if i < last { IndexMeans(documents[..last], i); }
  }

  lemma {:induction false} IdsAreOfDocuments(documents: seq<Document>)
    ensures forall id :: id in IndexOf(documents) ==> exists k :: 0 <= k < |documents| && documents[k].id == id
    decreases documents
  {
    if documents != [] {
      var last := |documents| - 1;
      IdsAreOfDocuments(documents[..last]);
      forall id | id in IndexOf(documents)
        ensures exists k :: 0 <= k < |documents| && documents[k].id == id
      {
        if id != documents[last].id {
          assert id in IndexOf(documents[..last]);
          var k :| 0 <= k < last && documents[..last][k].id == id;
          assert documents[k].id == id;
        }
      }
    }
  }

  // ---------------------------------------------------------------------
  // The server.

  predicate Applies(s: Server, task: Task) {
    match task
    case CreateBuild => s.build.None?
    case CreateLive => s.live.None?
    case Swap => s.live.Some? && s.build.Some?
    case _ => true
  }

  function Effect(s: Server, task: Task): Server {
    match task
    case DropBuild => s.(build := None)
    case CreateBuild => s.(build := Some(map[]))
    case SetSettings => s
    case AddDocuments(batch) => s.(build := Some(AddAll(if s.build.Some? then s.build.value else map[], batch)))
    case CreateLive => s.(live := Some(map[]))
    case Swap => s.(live := s.build, build := s.live)
  }

  /** The server works off the head of its queue; a task without its fate, or that does not apply, fails. */
  function Process(s: Server, fates: seq<bool>): Server
    decreases fates
  {
    if fates == [] || s.queue == [] then s
    else
      var rest := s.(queue := s.queue[1..]);
      Process(if fates[0] && Applies(rest, s.queue[0]) then Effect(rest, s.queue[0]) else rest, fates[1..])
  }

  /** One call: whether the server took it, and which tasks it worked off while the caller waited. */
  datatype Weather = Weather(accepted: bool, fates: seq<bool>)
  datatype Answer = Answer(server: Server, ok: bool)

  function Call(s: Server, task: Task, w: Weather): Answer {
    if !w.accepted then Answer(Process(s, w.fates), false)
    else if |w.fates| <= |s.queue| then Answer(Process(s.(queue := s.queue + [task]), w.fates), false)
    else
      var before := Process(s, w.fates[..|s.queue|]);
      if w.fates[|s.queue|] && Applies(before, task) then Answer(Effect(before, task), true) else Answer(before, false)
  }

  // ---------------------------------------------------------------------
  // A rebuild.

  function Upload(s: Server, batches: seq<seq<Document>>, weather: nat -> Weather, k: nat): Answer
    decreases batches
  {
    if batches == [] then Answer(s, true)
    else
      var a := Call(s, AddDocuments(batches[0]), weather(k));
      if a.ok then Upload(a.server, batches[1..], weather, k + 1) else a
  }

  /** The build index, anew, with the documents in it. */
  function Fill(s: Server, batches: seq<seq<Document>>, weather: nat -> Weather): Answer {
    var dropped := Call(s, DropBuild, weather(1));
    if !dropped.ok then dropped
    else
      var created := Call(dropped.server, CreateBuild, weather(2));
      if !created.ok then created
      else
        var configured := Call(created.server, SetSettings, weather(3));
        if !configured.ok then configured else Upload(configured.server, batches, weather, 8)
  }

  /** A live index to swap with: the first rebuild creates an empty one. */
  function EnsureLive(s: Server, weather: nat -> Weather): Answer {
    var found := Process(s, weather(4).fates);
    if !weather(4).accepted || found.live.Some? then Answer(found, weather(4).accepted)
    else Call(found, CreateLive, weather(5))
  }

  /** The swap, then the cleanup of what was live. */
  function SwapIn(s: Server, weather: nat -> Weather): Answer {
    var swapped := Call(s, Swap, weather(6));
    if !swapped.ok then swapped else Call(swapped.server, DropBuild, weather(7))
  }

  function Rebuild(s: Server, batches: seq<seq<Document>>, weather: nat -> Weather): Answer {
    var filled := Fill(s, batches, weather);
    if !filled.ok then filled
    else
      var ready := EnsureLive(filled.server, weather);
      if !ready.ok then ready else SwapIn(ready.server, weather)
  }

  // ---------------------------------------------------------------------
  // The live index is never a half-built one.

  /**
   * There is a live index if there was one at `first`, and it is that one or a
   * loaded one; if there was none, the empty one may be made. A swap still
   * queued comes first and brings a loaded one.
   */
  ghost predicate Sound(s: Server, loaded: iset<Index>, first: Option<Index>) {
    && (first.Some? ==> s.live.Some?)
    && (s.live.Some? ==> s.live.value in loaded || s.live.value == if first.Some? then first.value else map[])
    && (forall i :: 0 <= i < |s.queue| && s.queue[i].Swap? ==> i == 0 && s.build.Some? && s.build.value in loaded)
  }

  lemma {:induction false} ProcessSound(s: Server, fates: seq<bool>, loaded: iset<Index>, first: Option<Index>)
    requires Sound(s, loaded, first)
    ensures Sound(Process(s, fates), loaded, first)
    ensures |s.queue| <= |fates| ==> Process(s, fates).queue == []
    decreases fates
  {
    if fates != [] && s.queue != [] {
      var rest := s.(queue := s.queue[1..]);
      forall i | 0 <= i < |rest.queue|
        ensures !rest.queue[i].Swap?
      {
        assert rest.queue[i] == s.queue[i + 1];
      }
      var next := if fates[0] && Applies(rest, s.queue[0]) then Effect(rest, s.queue[0]) else rest;
      ProcessSound(next, fates[1..], loaded, first);
    }
  }

  lemma CallSound(s: Server, task: Task, w: Weather, loaded: iset<Index>, first: Option<Index>)
    requires Sound(s, loaded, first)
    requires task.Swap? ==> s.queue == [] && s.build.Some? && s.build.value in loaded
    ensures Sound(Call(s, task, w).server, loaded, first)
    ensures Call(s, task, w).ok ==> Call(s, task, w).server.queue == []
    ensures s.queue == [] && Call(s, task, w).ok ==> Applies(s, task) && Call(s, task, w).server == Effect(s, task)
  {
    ProcessSound(s, w.fates, loaded, first);
    if w.accepted && |w.fates| <= |s.queue| {
      ProcessSound(s.(queue := s.queue + [task]), w.fates, loaded, first);
    } else if w.accepted {
      ProcessSound(s, w.fates[..|s.queue|], loaded, first);
    }
  }

  lemma {:induction false} AddAllAppend(index: Index, a: seq<Document>, b: seq<Document>)
    ensures AddAll(AddAll(index, a), b) == AddAll(index, a + b)
  {
    if b == [] {
      assert a + b == a;
    } else {
      AddAllAppend(index, a, b[..|b| - 1]);
      assert (a + b)[..|a + b| - 1] == a + b[..|b| - 1];
    }
  }

  lemma {:induction false} FlattenFront(batches: seq<seq<Document>>)
    requires batches != []
    ensures Flatten(batches) == batches[0] + Flatten(batches[1..])
  {
    if |batches| > 1 {
      FlattenFront(batches[..|batches| - 1]);
      assert batches[1..][..|batches| - 2] == batches[..|batches| - 1][1..];
    } else {
      assert batches[..0] == [] && batches[1..] == [];
    }
  }

  lemma {:induction false} UploadSound(s: Server, batches: seq<seq<Document>>,
                                       weather: nat -> Weather, k: nat, loaded: iset<Index>, first: Option<Index>)
    requires Sound(s, loaded, first) && s.queue == [] && s.build.Some?
    ensures var a := Upload(s, batches, weather, k);
      && Sound(a.server, loaded, first)
      && (a.ok ==> a.server == Server(s.live, Some(AddAll(s.build.value, Flatten(batches))), []))
    decreases batches
  {
    if batches != [] {
      var a := Call(s, AddDocuments(batches[0]), weather(k));
      CallSound(s, AddDocuments(batches[0]), weather(k), loaded, first);
      if a.ok {
        UploadSound(a.server, batches[1..], weather, k + 1, loaded, first);
        AddAllAppend(s.build.value, batches[0], Flatten(batches[1..]));
        FlattenFront(batches);
      }
    }
  }

  /** A filled build index holds exactly the documents, whatever an earlier run left there. */
  lemma FillSound(s: Server, batches: seq<seq<Document>>,
                  weather: nat -> Weather, loaded: iset<Index>, first: Option<Index>)
    requires Sound(s, loaded, first)
    ensures var a := Fill(s, batches, weather);
      && Sound(a.server, loaded, first)
      && (a.ok ==> a.server.queue == [] && a.server.build == Some(IndexOf(Flatten(batches))))
  {
    hide Call, Sound, Process;
    CallSound(s, DropBuild, weather(1), loaded, first);
    var dropped := Call(s, DropBuild, weather(1));
    if dropped.ok {
      CallSound(dropped.server, CreateBuild, weather(2), loaded, first);
      var created := Call(dropped.server, CreateBuild, weather(2));
      if created.ok {
        CallSound(created.server, SetSettings, weather(3), loaded, first);
        var configured := Call(created.server, SetSettings, weather(3));
        if configured.ok {
          UploadSound(configured.server, batches, weather, 8, loaded, first);
        }
      }
    }
  }

  lemma EnsureLiveSound(s: Server, weather: nat -> Weather, loaded: iset<Index>, first: Option<Index>)
    requires Sound(s, loaded, first) && s.queue == []
    ensures var a := EnsureLive(s, weather);
      && Sound(a.server, loaded, first) &&
        (a.ok ==> a.server.queue == [] && a.server.build == s.build && a.server.live.Some?)
  {
    hide Call, Sound;
    CallSound(s, CreateLive, weather(5), loaded, first);
  }

  lemma SwapInSound(s: Server, weather: nat -> Weather, loaded: iset<Index>, first: Option<Index>)
    requires Sound(s, loaded, first) && s.queue == [] && s.build.Some? && s.build.value in loaded
    ensures var a := SwapIn(s, weather);
      && Sound(a.server, loaded, first) && (a.ok ==> a.server == Server(s.build, None, []))
  {
    hide Call, Sound;
    CallSound(s, Swap, weather(6), loaded, first);
    if Call(s, Swap, weather(6)).ok {
      CallSound(Call(s, Swap, weather(6)).server, DropBuild, weather(7), loaded, first);
    }
  }

  /**
   * Whatever goes wrong at whatever call, a live index stays one, and is
   * exactly the documents of some rebuild; the empty one is made only where
   * there was none. A rebuild that reports success has put its own there.
   */
  lemma RebuildIsSafe(s: Server, batches: seq<seq<Document>>,
                      weather: nat -> Weather, loaded: iset<Index>, first: Option<Index>)
    requires Sound(s, loaded, first) && IndexOf(Flatten(batches)) in loaded
    ensures var a := Rebuild(s, batches, weather);
      && Sound(a.server, loaded, first)
      && (a.ok ==> a.server == Server(Some(IndexOf(Flatten(batches))), None, []))
  {
    hide Fill, EnsureLive, SwapIn, Sound;
    FillSound(s, batches, weather, loaded, first);
    var filled := Fill(s, batches, weather);
    if filled.ok {
      EnsureLiveSound(filled.server, weather, loaded, first);
      if EnsureLive(filled.server, weather).ok {
        SwapInSound(EnsureLive(filled.server, weather).server, weather, loaded, first);
      }
    }
  }

  // ---------------------------------------------------------------------
  // A failed rebuild leaves the live index as it was.

  /** Nothing queued changes the live index. */
  predicate Quiet(queue: seq<Task>) {
    forall i :: 0 <= i < |queue| ==> !queue[i].Swap? && !queue[i].CreateLive?
  }

  lemma {:induction false} ProcessQuiet(s: Server, fates: seq<bool>)
    requires Quiet(s.queue)
    ensures Process(s, fates).live == s.live && Quiet(Process(s, fates).queue)
    ensures |s.queue| <= |fates| ==> Process(s, fates).queue == []
    decreases fates
  {
    if fates != [] && s.queue != [] {
      var rest := s.(queue := s.queue[1..]);
      ProcessQuiet(if fates[0] && Applies(rest, s.queue[0]) then Effect(rest, s.queue[0]) else rest, fates[1..]);
    }
  }

  lemma CallQuiet(s: Server, task: Task, w: Weather)
    requires Quiet(s.queue) && (task.Swap? || task.CreateLive? ==> !w.accepted)
    ensures Call(s, task, w).server.live == s.live && Quiet(Call(s, task, w).server.queue)
    ensures Call(s, task, w).ok ==> Call(s, task, w).server.queue == []
  {
    ProcessQuiet(s, w.fates);
    if w.accepted && |w.fates| <= |s.queue| {
      ProcessQuiet(s.(queue := s.queue + [task]), w.fates);
    } else if w.accepted {
      ProcessQuiet(s, w.fates[..|s.queue|]);
    }
  }

  lemma {:induction false} UploadQuiet(s: Server, batches: seq<seq<Document>>, weather: nat -> Weather, k: nat)
    requires Quiet(s.queue)
    ensures Upload(s, batches, weather, k).server.live == s.live && Quiet(Upload(s, batches, weather, k).server.queue)
    decreases batches
  {
    if batches != [] {
      CallQuiet(s, AddDocuments(batches[0]), weather(k));
      if Call(s, AddDocuments(batches[0]), weather(k)).ok {
        UploadQuiet(Call(s, AddDocuments(batches[0]), weather(k)).server, batches[1..], weather, k + 1);
      }
    }
  }

  lemma FillQuiet(s: Server, batches: seq<seq<Document>>, weather: nat -> Weather)
    requires Quiet(s.queue)
    ensures Fill(s, batches, weather).server.live == s.live && Quiet(Fill(s, batches, weather).server.queue)
  {
    hide Call, Upload, Quiet;
    CallQuiet(s, DropBuild, weather(1));
    var dropped := Call(s, DropBuild, weather(1));
    if dropped.ok {
      CallQuiet(dropped.server, CreateBuild, weather(2));
      var created := Call(dropped.server, CreateBuild, weather(2));
      if created.ok {
        CallQuiet(created.server, SetSettings, weather(3));
        var configured := Call(created.server, SetSettings, weather(3));
        if configured.ok { UploadQuiet(configured.server, batches, weather, 8); }
      }
    }
  }

  /** Whether a rebuild gets as far as a swap that the server takes. */
  predicate SwapSent(s: Server, batches: seq<seq<Document>>, weather: nat -> Weather) {
    Fill(s, batches, weather).ok && EnsureLive(Fill(s, batches, weather).server, weather).ok && weather(6).accepted
  }

  /** With a live index there, a rebuild whose swap the server never took leaves it untouched. */
  lemma NoSwapNoChange(s: Server, batches: seq<seq<Document>>, weather: nat -> Weather)
    requires Quiet(s.queue) && s.live.Some? && !SwapSent(s, batches, weather)
    ensures var a := Rebuild(s, batches, weather); !a.ok && a.server.live == s.live && Quiet(a.server.queue)
  {
    hide Fill, Call, Quiet;
    FillQuiet(s, batches, weather);
    var filled := Fill(s, batches, weather);
    if filled.ok {
      ProcessQuiet(filled.server, weather(4).fates);
      if weather(4).accepted {
        CallQuiet(Process(filled.server, weather(4).fates), Swap, weather(6));
        NotAccepted(Process(filled.server, weather(4).fates), Swap, weather(6));
      }
    }
  }

  lemma NotAccepted(s: Server, task: Task, w: Weather)
    ensures !w.accepted ==> !Call(s, task, w).ok
  {}

  // ---------------------------------------------------------------------
  // The cron task.

  /** What a process remembers of its last full check; the content stands for its fingerprint. */
  datatype SyncState = SyncState(content: Option<seq<Document>>, probe: Option<string>, checkedAt: int)
  datatype Synced = Synced(server: Server, state: SyncState, ok: bool)

  /** Whether a minute skips the full check. */
  predicate Skips(live: Option<Index>, state: SyncState, probe: string, now: int) {
    live.Some? && state.content.Some? && state.probe == Some(probe) && now - state.checkedAt < FULL_CHECK_MS
  }

  /** Whether a full check rebuilds. */
  predicate Rebuilds(live: Option<Index>, state: SyncState, documents: seq<Document>) {
    live.None? || state.content != Some(documents)
  }

  /** One minute; `batches` are the documents cut for upload, none when one is too large. */
  function Sync(s: Server, state: SyncState, probe: string, documents: seq<Document>,
                batches: Option<seq<seq<Document>>>,
                now: int, weather: nat -> Weather): Synced {
    var found := Process(s, weather(0).fates);
    if !weather(0).accepted then Synced(found, state, false)
    else if Skips(found.live, state, probe, now) then Synced(found, state, true)
    else if !Rebuilds(found.live, state, documents) then Synced(found, SyncState(Some(documents), Some(probe), now),
      true)
    else if batches.None? then Synced(found, state, false)
    else
      var rebuilt := Rebuild(found, batches.value, weather);
      if rebuilt.ok then Synced(rebuilt.server, SyncState(Some(documents), Some(probe), now), true)
      else Synced(rebuilt.server, state, false)
  }

  /** What the process believes of the live index is true, unless the index is gone. */
  ghost predicate Agrees(s: Server, state: SyncState) {
    Quiet(s.queue) && (state.content.Some? && s.live.Some? ==> s.live.value == IndexOf(state.content.value))
  }

  /** Equal probes mean unchanged content. */
  predicate ProbeTells(state: SyncState, probe: string, documents: seq<Document>) {
    state.probe == Some(probe) && state.content.Some? ==> state.content == Some(documents)
  }

  /**
   * A successful minute leaves exactly the published documents live if and
   * only if, with the queued tasks it finds worked off, it has a reason to
   * rebuild or they are live already.
   */
  lemma SuccessfulSync(s: Server, state: SyncState, probe: string, documents: seq<Document>,
                       batches: seq<seq<Document>>, now: int, weather: nat -> Weather, loaded: iset<Index>,
                         first: Option<Index>)
    requires Sound(s, loaded, first) && IndexOf(documents) in loaded && Flatten(batches) == documents
    requires ProbeTells(state, probe, documents)
    requires Sync(s, state, probe, documents, Some(batches), now, weather).ok
    ensures var after := Sync(s, state, probe, documents, Some(batches), now, weather);
      var found := Process(s, weather(0).fates);
      && (after.server.live == Some(IndexOf(documents)) <==>
        found.live.None? || state.content != Some(documents) || found.live == Some(IndexOf(documents)))
      && Sound(after.server, loaded, first)
  {
    hide Rebuild, IndexOf, Sound, Process;
    ProcessSound(s, weather(0).fates, loaded, first);
    RebuildIsSafe(Process(s, weather(0).fates), batches, weather, loaded, first);
  }

  /**
   * A successful minute checks the content, and remembers it, exactly when
   * the live index is gone, nothing is remembered, the probe moved or the
   * last check is an hour ago; any other minute leaves all as it is.
   */
  lemma ChecksExactlyWhen(s: Server, state: SyncState, probe: string, documents: seq<Document>,
                          batches: Option<seq<seq<Document>>>, now: int, weather: nat -> Weather)
    requires Sync(s, state, probe, documents, batches, now, weather).ok
    ensures var after, found := Sync(s, state, probe, documents, batches, now, weather), Process(s, weather(0).fates);
      var checks := found.live.None? || state.content.None? || state.probe != Some(probe) ||
        60 * 60 * 1000 <= now - state.checkedAt;
      && after.state == (if checks then SyncState(Some(documents), Some(probe), now) else state)
      && (!checks || (found.live.Some? && state.content == Some(documents)) ==> after.server == found)
  {
    hide Process, Rebuild;
  }

  /** So while the process agrees with the index, every successful minute leaves the published documents live. */
  lemma AgreementIsKept(s: Server, state: SyncState, probe: string, documents: seq<Document>,
                        batches: seq<seq<Document>>, now: int, weather: nat -> Weather, loaded: iset<Index>,
                          first: Option<Index>)
    requires Sound(s, loaded, first) && IndexOf(documents) in loaded && Flatten(batches) == documents
    requires ProbeTells(state, probe, documents) && Agrees(s, state)
    ensures var after := Sync(s, state, probe, documents, Some(batches), now, weather);
      && (after.ok ==> after.server.live == Some(IndexOf(documents)) && Agrees(after.server, after.state))
      && (!after.ok && s.live.Some? && !SwapSent(Process(s, weather(0).fates), batches, weather) ==>
        after.server.live == s.live && after.state == state && Agrees(after.server, after.state))
  {
    hide Rebuild, IndexOf, Sound;
    ProcessQuiet(s, weather(0).fates);
    ProcessSound(s, weather(0).fates, loaded, first);
    var found := Process(s, weather(0).fates);
    RebuildIsSafe(found, batches, weather, loaded, first);
    if s.live.Some? && !SwapSent(found, batches, weather) {
      NoSwapNoChange(found, batches, weather);
    }
  }

  /** A minute of a run: what it reads, how its documents are cut, and the server's weather. */
  datatype Minute = Minute(probe: string, documents: seq<Document>, batches: seq<seq<Document>>, now: int,
    weather: nat -> Weather)

  /** After the first `n` minutes. */
  function At(s: Server, state: SyncState, run: seq<Minute>, n: nat): Synced
    requires n <= |run|
  {
    if n == 0 then Synced(s, state, true)
    else
      var before := At(s, state, run, n - 1);
      var m := run[n - 1];
      Sync(before.server, before.state, m.probe, m.documents, Some(m.batches), m.now, m.weather)
  }

  /** What the minutes before `n` loaded. */
  ghost function LoadedBy(run: seq<Minute>, n: nat): iset<Index>
    requires n <= |run|
  {
    iset index: Index | IsLoaded(run, n, index)
  }

  ghost predicate IsLoaded(run: seq<Minute>, n: nat, index: Index)
    requires n <= |run|
  {
    exists i :: 0 <= i < n && index == IndexOf(run[i].documents)
  }

  ghost predicate CutRight(run: seq<Minute>) {
    forall i :: 0 <= i < |run| ==> Flatten(run[i].batches) == run[i].documents
  }

  lemma SoundWithMore(s: Server, few: iset<Index>, many: iset<Index>, first: Option<Index>)
    requires Sound(s, few, first) && few <= many
    ensures Sound(s, many, first)
  {}

  lemma MinuteIsSound(s: Server, state: SyncState, m: Minute, loaded: iset<Index>, first: Option<Index>)
    requires Sound(s, loaded, first) && IndexOf(m.documents) in loaded && Flatten(m.batches) == m.documents
    ensures Sound(Sync(s, state, m.probe, m.documents, Some(m.batches), m.now, m.weather).server, loaded, first)
  {
    hide Rebuild, IndexOf, Process, Flatten, Sound;
    ProcessSound(s, m.weather(0).fates, loaded, first);
    RebuildIsSafe(Process(s, m.weather(0).fates), m.batches, m.weather, loaded, first);
  }

  lemma {:induction false} SoundFrom(s: Server, state: SyncState, run: seq<Minute>, m: nat, n: nat,
                                     first: Option<Index>)
    requires m <= n <= |run| && CutRight(run) && Sound(At(s, state, run, m).server, LoadedBy(run, m), first)
    ensures Sound(At(s, state, run, n).server, LoadedBy(run, n), first)
  {
    hide Sync, IndexOf, Flatten, Sound;
    if m < n {
      SoundFrom(s, state, run, m, n - 1, first);
      var before, loaded := At(s, state, run, n - 1), LoadedBy(run, n);
      SoundWithMore(before.server, LoadedBy(run, n - 1), loaded, first);
      assert IndexOf(run[n - 1].documents) in loaded;
      MinuteIsSound(before.server, before.state, run[n - 1], loaded, first);
    }
  }

  lemma FromItsLive(s: Server, loaded: iset<Index>, first: Option<Index>)
    requires Sound(s, loaded, first) && s.live.Some?
    ensures Sound(s, loaded, s.live)
  {}

  /**
   * Over every run of minutes, with any fault at any call: once there is a
   * live index there always is one, and it keeps its content until it holds
   * exactly the documents one of the minutes loaded. Until then there is
   * none, or the empty one the first rebuild makes.
   */
  lemma LiveIndexIsAlwaysWhole(s: Server, state: SyncState, run: seq<Minute>, m: nat, n: nat)
    requires s.queue == [] && m <= n <= |run| && CutRight(run)
    ensures var before, after := At(s, state, run, m).server.live, At(s, state, run, n).server.live;
      && (before.Some? ==> after.Some? && (after == before || after.value in LoadedBy(run, n)))
      && (s.live.None? && after.Some? ==> after.value == map[] || after.value in LoadedBy(run, n))
  {
    hide Sync, IndexOf, CutRight, LoadedBy;
    assert At(s, state, run, 0).server == s;
    SoundFrom(s, state, run, 0, m, s.live);
    SoundFrom(s, state, run, 0, n, s.live);
    if At(s, state, run, m).server.live.Some? {
      FromItsLive(At(s, state, run, m).server, LoadedBy(run, m), s.live);
      SoundFrom(s, state, run, m, n, At(s, state, run, m).server.live);
    }
  }

  // ---------------------------------------------------------------------
  // How old the live index may be.

  /** Minute `i` was less than an hour before the last of `n`, and no probe has moved since. */
  ghost predicate WithinTheHour(run: seq<Minute>, i: nat, n: nat)
    requires i < n <= |run|
  {
    run[n - 1].now - run[i].now < 60 * 60 * 1000 && forall k :: i < k < n ==> run[k].probe == run[i].probe
  }

  /** The process remembers minute `i`, and what it read there is live. */
  ghost predicate ShowsMinute(after: Synced, m: Minute) {
    && after.state == SyncState(Some(m.documents), Some(m.probe), m.now)
    && after.server.live == Some(IndexOf(m.documents)) && Quiet(after.server.queue)
  }

  lemma OneMoreMinute(before: Synced, m: Minute)
    requires Quiet(before.server.queue) && Flatten(m.batches) == m.documents
    requires before.state.content.Some? && before.server.live.Some? ==>
      before.server.live == Some(IndexOf(before.state.content.value))
    requires Sync(before.server, before.state, m.probe, m.documents, Some(m.batches), m.now, m.weather).ok
    ensures var after := Sync(before.server, before.state, m.probe, m.documents, Some(m.batches), m.now, m.weather);
      ShowsMinute(after, m) ||
        (&& after.state == before.state && after.server.live == before.server.live && Quiet(after.server.queue)
         && before.state.content.Some? && before.state.probe == Some(m.probe)
         && m.now - before.state.checkedAt < 60 * 60 * 1000)
  {
    hide Rebuild, IndexOf, Process, Flatten, Quiet;
    var found := Process(before.server, m.weather(0).fates);
    ProcessQuiet(before.server, m.weather(0).fates);
    ChecksExactlyWhen(before.server, before.state, m.probe, m.documents, Some(m.batches), m.now, m.weather);
    var loaded := iset{IndexOf(m.documents)};
    QuietIsSound(found, loaded);
    RebuildIsSafe(found, m.batches, m.weather, loaded, found.live);
    EmptyIsQuiet();
  }

  lemma QuietIsSound(s: Server, loaded: iset<Index>)
    requires Quiet(s.queue)
    ensures Sound(s, loaded, s.live)
  {}

  lemma EmptyIsQuiet()
    ensures Quiet([])
  {}

  /**
   * From a new process on, as long as the minutes succeed, the live index is
   * exactly the content that one of them read less than an hour ago, and no
   * probe has moved since, whatever the probes tell of the content.
   */
  lemma {:induction false} LiveIsWithinTheHour(s: Server, state: SyncState, run: seq<Minute>, n: nat)
    requires Quiet(s.queue) && state.content.None? && 0 < n <= |run| && CutRight(run)
    requires forall i :: 0 <= i <= n ==> At(s, state, run, i).ok
    ensures exists i: nat :: i < n && WithinTheHour(run, i, n) && ShowsMinute(At(s, state, run, n), run[i])
  {
    hide Sync, IndexOf, Flatten, Quiet;
    var last := n - 1;
    var before := At(s, state, run, last);
    assert At(s, state, run, n).ok;
    if last == 0 {
      OneMoreMinute(before, run[0]);
      assert WithinTheHour(run, 0, n);
    } else {
      LiveIsWithinTheHour(s, state, run, last);
      var i: nat :| i < last && WithinTheHour(run, i, last) && ShowsMinute(before, run[i]);
      OneMoreMinute(before, run[last]);
      if ShowsMinute(At(s, state, run, n), run[last]) {
        assert WithinTheHour(run, last, n);
      } else {
        assert WithinTheHour(run, i, n);
      }
    }
  }

  // ---------------------------------------------------------------------
  // When a process falls behind its index.

  /** Whether a minute gets as far as a rebuild. */
  predicate Tries(before: Synced, m: Minute) {
    var found := Process(before.server, m.weather(0).fates);
    m.weather(0).accepted && !Skips(found.live, before.state, m.probe, m.now) &&
      Rebuilds(found.live, before.state, m.documents)
  }

  /** Minute `i` of a run rebuilds the index and succeeds. */
  predicate RebuildsWell(s: Server, state: SyncState, run: seq<Minute>, i: nat)
    requires i < |run|
  {
    Tries(At(s, state, run, i), run[i]) && At(s, state, run, i + 1).ok
  }

  /** Minute `i` fails in a rebuild whose swap the server has taken. */
  predicate FailsAfterItsSwap(s: Server, state: SyncState, run: seq<Minute>, i: nat)
    requires i < |run|
  {
    var before := At(s, state, run, i);
    && Tries(before, run[i]) && !At(s, state, run, i + 1).ok
    && SwapSent(Process(before.server, run[i].weather(0).fates), run[i].batches, run[i].weather)
  }

  ghost predicate NoGoodRebuild(s: Server, state: SyncState, run: seq<Minute>, m: nat, n: nat)
    requires m <= n <= |run|
  {
    forall i :: m <= i < n ==> !RebuildsWell(s, state, run, i)
  }

  /** A minute from `m` on failed after the swap of this index. */
  ghost predicate IsLeftBy(s: Server, state: SyncState, run: seq<Minute>, m: nat, n: nat, index: Index)
    requires m <= n <= |run|
  {
    exists i :: m <= i < n && FailsAfterItsSwap(s, state, run, i) && index == IndexOf(run[i].documents)
  }

  ghost function LeftBy(s: Server, state: SyncState, run: seq<Minute>, m: nat, n: nat): iset<Index>
    requires m <= n <= |run|
  {
    iset index: Index | IsLeftBy(s, state, run, m, n, index)
  }

  /** A rebuild that never gets to its swap loads nothing. */
  lemma UnsentIsSound(s: Server, batches: seq<seq<Document>>,
                      weather: nat -> Weather, loaded: iset<Index>, first: Option<Index>)
    requires Sound(s, loaded, first) && !SwapSent(s, batches, weather)
    ensures Sound(Rebuild(s, batches, weather).server, loaded, first)
  {
    hide Fill, Process, Sound, Call;
    FillSound(s, batches, weather, loaded, first);
    var filled := Fill(s, batches, weather).server;
    if Fill(s, batches, weather).ok {
      EnsureLiveSound(filled, weather, loaded, first);
      var ready := EnsureLive(filled, weather);
      if ready.ok {
        NotAccepted(ready.server, Swap, weather(6));
        RefusedIsSound(ready.server, weather(6), loaded, first);
      }
    }
  }

  lemma RefusedIsSound(s: Server, w: Weather, loaded: iset<Index>, first: Option<Index>)
    requires Sound(s, loaded, first) && !w.accepted
    ensures Sound(Call(s, Swap, w).server, loaded, first)
  {
    ProcessSound(s, w.fates, loaded, first);
  }

  /** What a minute that is no good rebuild leaves behind. */
  lemma LeavesItsSwap(before: Synced, m: Minute, loaded: iset<Index>, first: Option<Index>)
    requires Sound(before.server, loaded, first) && Flatten(m.batches) == m.documents
    requires var after := Sync(before.server, before.state, m.probe, m.documents, Some(m.batches), m.now, m.weather);
      Tries(before, m) ==> !after.ok
    requires SwapSent(Process(before.server, m.weather(0).fates), m.batches, m.weather) && Tries(before, m) ==>
      IndexOf(m.documents) in loaded
    ensures var after := Sync(before.server, before.state, m.probe, m.documents, Some(m.batches), m.now, m.weather);
      && Sound(after.server, loaded, first)
      && (before.state.content.Some? ==> after.state.content == before.state.content || before.server.live.None?)
      && (before.state.content.None? ==> after.state.content.None?)
  {
    hide Rebuild, IndexOf, Process, Flatten, Sound, SwapSent;
    var found := Process(before.server, m.weather(0).fates);
    ProcessSound(before.server, m.weather(0).fates, loaded, first);
    if SwapSent(found, m.batches, m.weather) {
      if Tries(before, m) { RebuildIsSafe(found, m.batches, m.weather, loaded, first); }
    } else {
      UnsentIsSound(found, m.batches, m.weather, loaded, first);
    }
  }

  /**
   * Since the last good rebuild the memory is the same, and the live index that
   * one or what a failed minute's swap left.
   */
  lemma {:induction false} SinceTheLastRebuild(s: Server, state: SyncState, run: seq<Minute>, m: nat, n: nat)
    requires m <= n <= |run| && CutRight(run) && NoGoodRebuild(s, state, run, m, n)
    requires At(s, state, run, m).server.queue == [] && At(s, state, run, m).server.live.Some?
    ensures At(s, state, run, n).state.content == At(s, state, run, m).state.content
    ensures Sound(At(s, state, run, n).server, LeftBy(s, state, run, m, n), At(s, state, run, m).server.live)
  {
    hide Sync, IndexOf, Flatten, Sound, Tries, SwapSent;
    var first := At(s, state, run, m).server.live;
    if m < n {
      SinceTheLastRebuild(s, state, run, m, n - 1);
      var before, left := At(s, state, run, n - 1), LeftBy(s, state, run, m, n);
      SoundWithMore(before.server, LeftBy(s, state, run, m, n - 1), left, first);
      assert !RebuildsWell(s, state, run, n - 1);
      assert FailsAfterItsSwap(s, state, run, n - 1) ==> IndexOf(run[n - 1].documents) in left;
      LeavesItsSwap(before, run[n - 1], left, first);
      SoundMeansLive(before.server, left, first);
    } else {
      StartIsSound(At(s, state, run, m).server, LeftBy(s, state, run, m, n));
    }
  }

  lemma SoundMeansLive(s: Server, loaded: iset<Index>, first: Option<Index>)
    requires Sound(s, loaded, first) && first.Some?
    ensures s.live.Some? && (s.live == first || s.live.value in loaded)
  {}

  lemma StartIsSound(s: Server, loaded: iset<Index>)
    requires s.queue == []
    ensures Sound(s, loaded, s.live)
  {}

  /**
   * In minute `j` the live index moves to the documents of a minute from `m`
   * on that failed after its swap, other ones than `index`, and stays.
   */
  ghost predicate FallsAt(s: Server, state: SyncState, run: seq<Minute>, m: nat, j: nat, n: nat, index: Index)
    requires m <= j < n <= |run|
  {
    var live := At(s, state, run, j + 1).server.live;
    && live.Some? && live != Some(index) && live != At(s, state, run, j).server.live
    && IsLeftBy(s, state, run, m, j + 1, live.value)
    && forall k :: j < k <= n ==> At(s, state, run, k).server.live == live
  }

  /**
   * While no rebuild succeeds, a process that agrees with its index remembers
   * the same content; and it falls behind exactly when in some minute the
   * index moves to what a failed minute's swap brings, and stays there.
   */
  lemma {:induction false} FallsBehindExactlyWhen(s: Server, state: SyncState, run: seq<Minute>, m: nat, n: nat,
                                                  index: Index)
    requires m <= n <= |run| && CutRight(run) && NoGoodRebuild(s, state, run, m, n)
    requires At(s, state, run, m).server.queue == [] && At(s, state, run, m).server.live == Some(index)
    ensures At(s, state, run, n).state.content == At(s, state, run, m).state.content
    ensures At(s, state, run, n).server.live.Some?
    ensures At(s, state, run, n).server.live != Some(index) <==>
      exists j :: m <= j < n && FallsAt(s, state, run, m, j, n, index)
  {
    hide At, IndexOf, Flatten, Sound, FailsAfterItsSwap, RebuildsWell;
    SinceTheLastRebuild(s, state, run, m, n);
    SoundMeansLive(At(s, state, run, n).server, LeftBy(s, state, run, m, n), Some(index));
    if m < n {
      FallsBehindExactlyWhen(s, state, run, m, n - 1, index);
      var before, after := At(s, state, run, n - 1).server.live, At(s, state, run, n).server.live;
      if after != Some(index) {
        if before == after {
          var last := n - 1;
          var j :| m <= j < last && FallsAt(s, state, run, m, j, last, index);
          assert FallsAt(s, state, run, m, j, n, index);
        } else {
          assert FallsAt(s, state, run, m, n - 1, n, index);
        }
      }
    }
  }

  /** A good rebuild puts its documents there and remembers them. */
  lemma RebuiltWell(s: Server, state: SyncState, run: seq<Minute>, i: nat)
    requires i < |run| && s.queue == [] && CutRight(run) && RebuildsWell(s, state, run, i)
    ensures var after := At(s, state, run, i + 1);
      && after.server == Server(Some(IndexOf(run[i].documents)), None, [])
      && after.state.content == Some(run[i].documents)
  {
    hide Rebuild, IndexOf, Process, Flatten, Sound, LoadedBy;
    StartIsSound(s, LoadedBy(run, 0));
    assert At(s, state, run, 0).server == s;
    SoundFrom(s, state, run, 0, i, s.live);
    var before, m := At(s, state, run, i), run[i];
    var all := LoadedBy(run, i + 1);
    assert IndexOf(m.documents) in all by { MinuteLoads(run, i); }
    MoreLoaded(run, i);
    SoundWithMore(before.server, LoadedBy(run, i), all, s.live);
    ProcessSound(before.server, m.weather(0).fates, all, s.live);
    RebuildIsSafe(Process(before.server, m.weather(0).fates), m.batches, m.weather, all, s.live);
  }

  lemma MinuteLoads(run: seq<Minute>, i: nat)
    requires i < |run|
    ensures IndexOf(run[i].documents) in LoadedBy(run, i + 1)
  {}

  lemma MoreLoaded(run: seq<Minute>, i: nat)
    requires i < |run|
    ensures LoadedBy(run, i) <= LoadedBy(run, i + 1)
  {}

  lemma NoMemoryNoGoodRebuild(before: Synced, m: Minute)
    requires before.state.content.None?
    ensures var after := Sync(before.server, before.state, m.probe, m.documents, Some(m.batches), m.now, m.weather);
      after.state.content.Some? ==> Tries(before, m) && after.ok
  {
    hide Rebuild, Process;
  }

  /** What a process remembers is what its last good rebuild loaded. */
  lemma {:induction false} RemembersItsLastRebuild(s: Server, state: SyncState, run: seq<Minute>, n: nat)
    returns (r: nat)
    requires s.queue == [] && state.content.None? && n <= |run| && CutRight(run)
    requires At(s, state, run, n).state.content.Some?
    ensures r < n && RebuildsWell(s, state, run, r) && NoGoodRebuild(s, state, run, r + 1, n)
  {
    hide Sync, IndexOf, Flatten, Tries;
    assert n > 0;
    if RebuildsWell(s, state, run, n - 1) {
      r := n - 1;
    } else {
      if At(s, state, run, n - 1).state.content.None? {
        NoMemoryNoGoodRebuild(At(s, state, run, n - 1), run[n - 1]);
        assert false;
      }
      r := RemembersItsLastRebuild(s, state, run, n - 1);
    }
  }

  /**
   * From a new process on: it remembers the content of its last good rebuild,
   * and the live index is another one exactly when, in a minute since, it
   * moved to what a minute since then that failed after its swap had loaded,
   * and has stayed there.
   */
  lemma ProcessesFallBehindExactlyWhen(s: Server, state: SyncState, run: seq<Minute>, n: nat) returns (r: nat)
    requires s.queue == [] && state.content.None? && n <= |run| && CutRight(run)
    requires At(s, state, run, n).state.content.Some?
    ensures r < n && RebuildsWell(s, state, run, r) && NoGoodRebuild(s, state, run, r + 1, n)
    ensures var after, m := At(s, state, run, n), r + 1;
      && after.state.content == Some(run[r].documents)
      && (after.server.live != Some(IndexOf(after.state.content.value)) <==>
        exists j :: m <= j < n && FallsAt(s, state, run, m, j, n, IndexOf(run[r].documents)))
  {
    r := RemembersItsLastRebuild(s, state, run, n);
    RebuiltWell(s, state, run, r);
    hide At, IndexOf, CutRight, RebuildsWell, FallsAt;
    FallsBehindExactlyWhen(s, state, run, r + 1, n, IndexOf(run[r].documents));
  }

  /** Every call taken and worked off at once, but for one call that the server does not take. */
  function FairBut(call: nat): nat -> Weather {
    k => if k == call then Weather(false, []) else Weather(true, [true])
  }

  lemma FairCall(s: Server, task: Task, call: nat, k: nat)
    requires s.queue == []
    ensures Call(s, task, FairBut(call)(k)) ==
      if k == call || !Applies(s, task) then Answer(s, false) else Answer(Effect(s, task), true)
  {
    assert Process(s, []) == s;
  }

  lemma FairUpload(s: Server, documents: seq<Document>, call: nat)
    requires s.queue == [] && s.build == Some(map[]) && call < 8
    ensures Flatten([documents]) == documents
    ensures Upload(s, [documents], FairBut(call), 8) == Answer(s.(build := Some(IndexOf(documents))), true)
  {
    FairCall(s, AddDocuments(documents), call, 8);
    FlattenFront([documents]);
    var rest := [documents][1..];
    assert rest == [];
    var a := Call(s, AddDocuments(documents), FairBut(call)(8));
    assert Upload(a.server, rest, FairBut(call), 9) == Answer(a.server, true);
  }

  lemma FairFill(s: Server, documents: seq<Document>, call: nat)
    requires s.queue == [] && 4 <= call < 8
    ensures Fill(s, [documents], FairBut(call)) == Answer(s.(build := Some(IndexOf(documents))), true)
  {
    hide Call, Upload;
    FairCall(s, DropBuild, call, 1);
    FairCall(s.(build := None), CreateBuild, call, 2);
    FairCall(s.(build := Some(map[])), SetSettings, call, 3);
    FairUpload(s.(build := Some(map[])), documents, call);
  }

  /** A run of minutes that all load the same documents. */
  predicate Unchanged(run: seq<Minute>, documents: seq<Document>) {
    forall i :: 0 <= i < |run| ==> run[i].documents == documents
  }

  /**
   * A process that takes a live index for the one of its content, while
   * nothing queued changes that index, leaves it there for any number of
   * minutes, whatever their probes, clocks and weather, as long as the
   * content stays as remembered.
   */
  lemma {:induction false} RememberedIndexStays(s: Server, state: SyncState, run: seq<Minute>, n: nat,
                                                documents: seq<Document>)
    requires n <= |run| && Unchanged(run, documents) && state.content == Some(documents)
    requires s.live.Some? && Quiet(s.queue)
    ensures var after := At(s, state, run, n);
      after.server.live == s.live && Quiet(after.server.queue) && after.state.content == Some(documents)
  {
    hide Process, Rebuild, Quiet;
    if n > 0 {
      RememberedIndexStays(s, state, run, n - 1, documents);
      ProcessQuiet(At(s, state, run, n - 1).server, run[n - 1].weather(0).fates);
    }
  }

  /** A server and a process that remembers `a`, after a minute that found `b` and in which one call failed. */
  function AfterFault(live: Option<Index>, a: seq<Document>, b: seq<Document>, now: int,
                      weather: nat -> Weather): Synced {
    Sync(Server(live, None, []), SyncState(Some(a), Some("before"), 0), "changed", b, Some([b]), now, weather)
  }

  lemma OneBatch(documents: seq<Document>)
    ensures Flatten([documents]) == documents
  {
    FlattenFront([documents]);
    assert [documents][1..] == [];
  }

  /**
   * When the swap succeeds and the cleanup after it fails, the process does
   * not remember that the new content went live: content that then returns
   * to what it was stays out of the index, for any number of minutes.
   */
  lemma FailedCleanupLeavesTheStateBehind(a: seq<Document>, b: seq<Document>, now: int, run: seq<Minute>, n: nat)
    requires IndexOf(a) != IndexOf(b) && Unchanged(run, a) && n <= |run|
    ensures var changed := AfterFault(Some(IndexOf(a)), a, b, now, FairBut(7));
      var later := At(changed.server, changed.state, run, n);
      && Flatten([b]) == b && !changed.ok
      && later.server.live == Some(IndexOf(b)) && later.server.live != Some(IndexOf(a))
  {
    hide IndexOf, Call, Fill;
    var s := Server(Some(IndexOf(a)), None, []);
    FairFill(s, b, 7);
    var filled := s.(build := Some(IndexOf(b)));
    assert Process(s, [true]) == s && Process(filled, [true]) == filled;
    FairCall(filled, Swap, 7, 6);
    FairCall(Server(Some(IndexOf(b)), Some(IndexOf(a)), []), DropBuild, 7, 7);
    OneBatch(b);
    assert b != a;
    var changed := AfterFault(Some(IndexOf(a)), a, b, now, FairBut(7));
    assert changed.server.queue == [];
    RememberedIndexStays(changed.server, changed.state, run, n, a);
  }

  /** As fair as can be, but the caller gives up waiting for the swap, which the server has taken. */
  function SwapTimesOut(): nat -> Weather {
    k => if k == 6 then Weather(true, []) else Weather(true, [true])
  }

  lemma SameUpToTheSwap(s: Server, documents: seq<Document>)
    requires s.queue == []
    ensures Fill(s, [documents], SwapTimesOut()) == Answer(s.(build := Some(IndexOf(documents))), true)
  {
    hide Call, Upload;
    FairFill(s, documents, 6);
    assert Fill(s, [documents], SwapTimesOut()) == Fill(s, [documents], FairBut(6)) by {
      forall k: nat | k != 6
        ensures SwapTimesOut()(k) == FairBut(6)(k)
      {}
      SameUpload(Call(Call(Call(s, DropBuild, FairBut(6)(1)).server, CreateBuild, FairBut(6)(2)).server, SetSettings,
        FairBut(6)(3)).server, documents);
    }
  }

  lemma SameUpload(s: Server, documents: seq<Document>)
    ensures Upload(s, [documents], SwapTimesOut(), 8) == Upload(s, [documents], FairBut(6), 8)
  {
    hide Call;
    assert [documents][1..] == [];
  }

  /**
   * The second way to fall behind: the wait for the swap times out, the minute
   * fails, and the server swaps later. The first later minute that lets the
   * server work finds the content back as remembered and the new index live.
   */
  lemma LateSwapLeavesTheStateBehind(a: seq<Document>, b: seq<Document>, now: int, run: seq<Minute>, n: nat)
    requires IndexOf(a) != IndexOf(b) && Unchanged(run, a) && 0 < n <= |run|
    requires run[0].weather(0).fates == [true]
    ensures var changed := AfterFault(Some(IndexOf(a)), a, b, now, SwapTimesOut());
      var later := At(changed.server, changed.state, run, n);
      && !changed.ok && changed.server == Server(Some(IndexOf(a)), Some(IndexOf(b)), [Swap])
      && later.server.live == Some(IndexOf(b)) && later.server.live != Some(IndexOf(a))
  {
    hide IndexOf, Fill, Rebuild, At;
    var s := Server(Some(IndexOf(a)), None, []);
    SameUpToTheSwap(s, b);
    var filled := s.(build := Some(IndexOf(b)));
    SwapStaysQueued(a, b, now);
    var changed := AfterFault(Some(IndexOf(a)), a, b, now, SwapTimesOut());
    SwapsLate(changed.server);
    FirstMinute(changed.server, changed.state, run);
    var first := At(changed.server, changed.state, run, 1);
    RememberedIndexStays(first.server, first.state, run[1..], n - 1, a);
    LaterMinutes(changed.server, changed.state, run, n - 1);
  }

  lemma SwapStaysQueued(a: seq<Document>, b: seq<Document>, now: int)
    requires a != b
    ensures var changed := AfterFault(Some(IndexOf(a)), a, b, now, SwapTimesOut());
      && !changed.ok && changed.state == SyncState(Some(a), Some("before"), 0)
      && changed.server == Server(Some(IndexOf(a)), Some(IndexOf(b)), [Swap])
  {
    hide IndexOf, Fill;
    var s := Server(Some(IndexOf(a)), None, []);
    SameUpToTheSwap(s, b);
    var filled := s.(build := Some(IndexOf(b)));
    assert Process(s, [true]) == s && Process(filled, [true]) == filled;
    assert Call(filled, Swap, SwapTimesOut()(6)) == Answer(filled.(queue := [Swap]), false);
  }

  lemma SwapsLate(s: Server)
    requires s.queue == [Swap] && s.live.Some? && s.build.Some?
    ensures Process(s, [true]) == Server(s.build, s.live, [])
  {
    assert s.queue[1..] == [];
  }

  /** The first minute of a run, and the rest as a run of its own. */
  lemma FirstMinute(s: Server, state: SyncState, run: seq<Minute>)
    requires 0 < |run|
    ensures var m := run[0];
      At(s, state, run, 1) == Sync(s, state, m.probe, m.documents, Some(m.batches), m.now, m.weather)
  {
    hide Sync;
    assert At(s, state, run, 0) == Synced(s, state, true);
  }

  lemma {:induction false} LaterMinutes(s: Server, state: SyncState, run: seq<Minute>, n: nat)
    requires n + 1 <= |run|
    ensures var first := At(s, state, run, 1);
      var one, all := At(first.server, first.state, run[1..], n), At(s, state, run, n + 1);
      one.server == all.server && one.state == all.state
  {
    hide Sync;
    if n > 0 { LaterMinutes(s, state, run, n - 1); }
  }

  /**
   * A missing index whose replacement fails after the empty one is made is
   * taken for the old one: it stays empty through every later minute in
   * which the content is unchanged.
   */
  lemma MissingIndexStaysEmpty(a: seq<Document>, now: int, run: seq<Minute>, n: nat)
    requires IndexOf(a) != map[] && Unchanged(run, a) && n <= |run|
    ensures var failed := AfterFault(None, a, a, now, FairBut(6));
      var later := At(failed.server, failed.state, run, n);
      && Flatten([a]) == a && !failed.ok
      && later.server.live == Some(map[]) && later.server.live != Some(IndexOf(a))
  {
    hide IndexOf, Call, Fill;
    var s := Server(None, None, []);
    FairFill(s, a, 6);
    var filled := s.(build := Some(IndexOf(a)));
    assert Process(s, [true]) == s && Process(filled, [true]) == filled;
    FairCall(filled, CreateLive, 6, 5);
    FairCall(filled.(live := Some(map[])), Swap, 6, 6);
    OneBatch(a);
    var failed := AfterFault(None, a, a, now, FairBut(6));
    RememberedIndexStays(failed.server, failed.state, run, n, a);
  }

  // ---------------------------------------------------------------------
  // The indexer as it runs.

  class Indexer {
    var server: Server
    var state: SyncState

    /** A new process in front of a server it knows nothing about. */
    constructor (found: Server)
      ensures server == found && state == SyncState(None, None, 0)
    {
      server, state := found, SyncState(None, None, 0);
    }

    method Ask(task: Task, w: Weather) returns (ok: bool)
      modifies this`server
      ensures Answer(server, ok) == Call(old(server), task, w)
    {
      var answer := Call(server, task, w);
      server := answer.server;
      ok := answer.ok;
    }

    method UploadAll(batches: seq<seq<Document>>, weather: nat -> Weather) returns (ok: bool)
      modifies this`server
      ensures Answer(server, ok) == Upload(old(server), batches, weather, 8)
    {
      hide Call;
      for i := 0 to |batches|
        invariant Upload(old(server), batches, weather, 8) == Upload(server, batches[i..], weather, 8 + i)
      {
        var rest := batches[i..];
        assert rest[1..] == batches[i + 1..];
        ok := Ask(AddDocuments(batches[i]), weather(8 + i));
        if !ok { return; }
      }
      ok := true;
    }

    /** Cuts, fills, swaps; a document over the bound throws before anything is sent. */
    method RebuildSearchIndex(documents: seq<Document>, batchBytes: int, weather: nat -> Weather)
      returns (ok: bool, ghost batches: Option<seq<seq<Document>>>)
      modifies this`server
      ensures batches.Some? <==> forall i :: 0 <= i < |documents| ==> SearchBatches.Fits([documents[i]], batchBytes)
      ensures batches.Some? ==>
        Flatten(batches.value) == documents && Answer(server, ok) == Rebuild(old(server), batches.value, weather)
      ensures batches.None? ==> !ok && server == old(server)
    {
      hide Call, Process, Upload, Flatten, SearchBatches.Fits;
      var cut := SearchBatches.Cut(documents, batchBytes);
      if cut.Err? { return false, None; }
      batches := Some(cut.value);
      ok := Ask(DropBuild, weather(1));
      if !ok { return; }
      ok := Ask(CreateBuild, weather(2));
      if !ok { return; }
      ok := Ask(SetSettings, weather(3));
      if !ok { return; }
      ok := UploadAll(cut.value, weather);
      if !ok { return; }
      server := Process(server, weather(4).fates);
      if !weather(4).accepted { return false, batches; }
      if server.live.None? {
        ok := Ask(CreateLive, weather(5));
        if !ok { return; }
      }
      ok := Ask(Swap, weather(6));
      if !ok { return; }
      ok := Ask(DropBuild, weather(7));
    }

    /** One minute of the cron task. */
    method SyncSearchIndex(probe: string, documents: seq<Document>, now: int, weather: nat -> Weather)
      returns (ok: bool, ghost batches: Option<seq<seq<Document>>>)
      modifies this
      ensures batches.Some? ==> Flatten(batches.value) == documents
      ensures var found := Process(old(server), weather(0).fates);
        batches.None? <==>
          && weather(0).accepted && !Skips(found.live, old(state), probe, now) &&
            Rebuilds(found.live, old(state), documents)
          && exists i :: 0 <= i < |documents| && !SearchBatches.Fits([documents[i]], 10_000_000)
      ensures Synced(server, state, ok) == Sync(old(server), old(state), probe, documents, batches, now, weather)
    {
      hide Rebuild, Process;
      batches := Some([documents]);
      FlattenFront([documents]);
      assert [documents][1..] == [];
      server := Process(server, weather(0).fates);
      if !weather(0).accepted { return false, batches; }
      if Skips(server.live, state, probe, now) { return true, batches; }
      if Rebuilds(server.live, state, documents) {
        ok, batches := RebuildSearchIndex(documents, SEARCH_BATCH_BYTES, weather);
        if !ok { return; }
      }
      state := SyncState(Some(documents), Some(probe), now);
      ok := true;
    }
  }
}
