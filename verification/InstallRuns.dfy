/** Any sequence of installations and deletions of one model, with anything failing in each of them. */
module InstallRuns {
  import opened Options
  import opened Downloads
  import opened DownloadRuns
  import opened Installs

  /** The batch behind an attempt, if it needs one, did run; it delivered what it says it did. */
  ghost predicate Happened(model: Model, a: Attempt, hash: Hash)
    requires Suits(model, a)
  {
    a.FromFolder? && a.landed.Some? ==>
      exists start, downloaded, events ::
        Delivered(model.digests, a.files, a.landed.value, hash, start, downloaded, events)
  }

  ghost predicate Delivered(digests: Pins, files: seq<(string, Option<Digest>)>, landed: Tree, hash: Hash,
                            start: Batch, downloaded: nat, events: seq<DownloadRuns.Event>) {
    && Fresh(start, downloaded) && Runs(start, events, hash) && start.disk == map[]
    && Orders(start.workers) == OrdersFor(digests, files)
    && var b := After(start, events, hash);
       && (forall w :: 0 <= w < |b.workers| ==> Settled(b.workers[w]))
       && OutcomeOf(b.workers) == DownloadRuns.Complete && b.disk == landed
  }

  lemma BatchBehind(model: Model, a: Attempt, hash: Hash)
    requires Suits(model, a) && Happened(model, a, hash) && a.FromFolder?
    ensures BatchArrives(a.landed, model.digests, a.files, hash)
  {
    if a.landed.Some? {
      var start, downloaded, events :|
        Delivered(model.digests, a.files, a.landed.value, hash, start, downloaded, events);
      CompletedBatchArrives(model.digests, a.files, hash, start, downloaded, events, After(start, events, hash));
    }
  }

  /** What passes the checks of a pipeline is complete and verified. */
  lemma StagedIsGood(model: Model, a: Attempt, hash: Hash)
    requires Suits(model, a) && Happened(model, a, hash) && Staged(model, a, hash).Some?
    ensures Good(model, Staged(model, a, hash).value, hash)
  {
    match a
    case FromArchive(responses, metadata, _) =>
      ArchiveIsGood(model, FetchedFrom(responses, model.pin, hash).value, metadata, hash);
    case FromFolder(files, landed, marker, _) =>
      BatchBehind(model, a, hash);
      LandedIsGood(model, files, landed.value, marker, hash);
    case FromFile(_, _) =>
  }

  /** Every value the final path takes, from the start on. */
  function Seen(model: Model, start: Option<Tree>, attempts: seq<Attempt>, hash: Hash): (seen: seq<Option<Tree>>)
    requires forall a <- attempts :: Suits(model, a)
    ensures seen != []
  {
    if attempts == [] then [start]
    else
      var last := |attempts| - 1;
      Seen(model, start, attempts[..last], hash) + Trail(model, attempts[last], hash)
  }

  ghost predicate AllGood(model: Model, seen: seq<Option<Tree>>, hash: Hash) {
    forall k :: 0 <= k < |seen| && seen[k].Some? ==> Good(model, seen[k].value, hash)
  }

  lemma TrailIsGood(model: Model, a: Attempt, hash: Hash)
    requires Suits(model, a) && Happened(model, a, hash)
    ensures AllGood(model, Trail(model, a, hash), hash)
  {
    if Staged(model, a, hash).Some? {
      StagedIsGood(model, a, hash);
    }
  }

  /** Starting from nothing, and through any number of installations and deletions with anything failing in
      each, at no moment does the final path hold a tree that is not complete and verified against every pin
      of the model, so `installed_path` never reports a partial download. */
  lemma {:induction false} NeverReportsPartial(model: Model, attempts: seq<Attempt>, hash: Hash)
    requires forall a <- attempts :: Suits(model, a) && Happened(model, a, hash)
    ensures AllGood(model, Seen(model, None, attempts, hash), hash)
    ensures forall k, markerFile: Option<string> ::
      0 <= k < |Seen(model, None, attempts, hash)| &&
      ReportsInstalled(Seen(model, None, attempts, hash)[k], markerFile) ==>
        Good(model, Seen(model, None, attempts, hash)[k].value, hash)
    decreases |attempts|
  {
    if attempts != [] {
      var last := |attempts| - 1;
      assert forall a <- attempts[..last] :: a in attempts;
      NeverReportsPartial(model, attempts[..last], hash);
      assert attempts[last] in attempts;
      TrailIsGood(model, attempts[last], hash);
    }
  }

  predicate Untroubled(a: Attempt) {
    match a
    case FromArchive(_, _, fault) => !Strikes(fault, 8)
    case FromFolder(_, _, _, fault) => !Strikes(fault, 4)
    case FromFile(_, fault) => !Strikes(fault, 1)
    case Removal => true
  }

  /** An attempt that nothing strikes leaves what passed its checks, whatever came before it, and leaves
      everything as it was when something did not pass. */
  lemma UntroubledInstalls(model: Model, start: Option<Tree>, attempts: seq<Attempt>, a: Attempt, hash: Hash)
    requires (forall b <- attempts :: Suits(model, b)) && Suits(model, a) && Untroubled(a) && !a.Removal?
    ensures forall b <- attempts + [a] :: Suits(model, b)
    ensures var before, after := Seen(model, start, attempts, hash), Seen(model, start, attempts + [a], hash);
      if Staged(model, a, hash).Some? then after[|after| - 1] == Staged(model, a, hash) else after == before
  {
    assert (attempts + [a])[..|attempts|] == attempts;
  }

  /** A finished install is reported as one: an attempt that nothing strikes, and whose archive, folder or file
      passes, leaves exactly what was fetched at the final path, with its marker if it has one. */
  lemma FinishedInstallsAreReported(model: Model, start: Option<Tree>, attempts: seq<Attempt>, a: Attempt, hash: Hash)
    requires (forall b <- attempts :: Suits(model, b)) && Suits(model, a)
    ensures forall b <- attempts + [a] :: Suits(model, b)
    ensures var seen := Seen(model, start, attempts + [a], hash); var final := seen[|seen| - 1];
      match a
      case FromArchive(responses, metadata, fault) =>
        !(0 <= fault <= 7) ==> forall root :: ArchivePasses(model, responses, root, hash) ==>
          Holding(final, root, Some(metadata))
      case FromFolder(_, landed, marker, fault) =>
        !(0 <= fault <= 4) && FolderPasses(model, landed) ==> Holding(final, landed.value, marker)
      case FromFile(responses, fault) =>
        !(0 <= fault <= 1) ==> forall bytes :: FetchedFrom(responses, model.pin, hash) == Some(bytes) ==>
          Holding(final, map[model.name := bytes], None)
      case Removal => final == None
  {
    assert (attempts + [a])[..|attempts|] == attempts;
    match a
    case FromArchive(responses, metadata, _) => MarkedHolds(FetchedRoot(model, responses, hash), Some(metadata));
    case FromFolder(_, landed, marker, _) =>
      if landed.Some? {
        MarkedHolds(landed.value, marker);
      }
    case FromFile(_, _) =>
    case Removal =>
  }
}
