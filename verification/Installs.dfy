/** Verify, then rename: how app/model_manager.py turns downloads into an installed model.

    A directory is a map from relative path to content; a model that is one file is a map with one entry.
    Removal and rename are single steps. `fault` numbers the step of a pipeline at which an exception or a
    cancellation strikes, counting from zero; any other number means that none does. Each failing check of
    the source is a step of its own. */
module Installs {
  import opened Options
  import opened Downloads
  import opened DownloadRuns

  type Tree = map<string, Bytes>

  type Pins = seq<(string, Digest)>

  const MARKER := ".vocagateway-model.json"

  /** What an archive holds: the folder with the model, if it is there, and everything else. */
  datatype Unpacked = Unpacked(root: Option<Tree>, rest: Tree)

  /** The catalog's facts about one model, for each of the ways to fetch one. `extract` is the tar parser. */
  datatype Model =
    | Archive(required: seq<string>, digests: Pins, pin: Option<Digest>, extract: Bytes -> Option<Unpacked>)
    | Folder(required: seq<string>, digests: Pins)
    | SingleFile(name: string, pin: Option<Digest>)

  /** `_expected_digest`: the first catalog pin for the file, else what the listing says. */
  function ExpectedDigest(digests: Pins, name: string, listed: Option<Digest>): Option<Digest> {
    if digests == [] then listed
    else if digests[0].0 == name then Some(digests[0].1)
    else ExpectedDigest(digests[1..], name, listed)
  }

  predicate Holds(tree: Tree, names: seq<string>) {
    forall k :: 0 <= k < |names| ==> names[k] in tree
  }

  /** Every required file is there, and every file the catalog pins is what it is pinned to. The marker is
      the installer's own. */
  ghost predicate Complete(required: seq<string>, digests: Pins, tree: Tree, hash: Hash) {
    && Holds(tree, required)
    && forall name <- tree :: name != MARKER ==>
         DigestAccepted(ExpectedDigest(digests, name, None), hash(tree[name]))
  }

  /** The tree is the model folder of an archive that matched its own pin, plus the marker. */
  ghost predicate ComesFrom(model: Model, bytes: Bytes, tree: Tree, hash: Hash)
    requires model.Archive?
  {
    && DigestAccepted(model.pin, hash(bytes))
    && model.extract(bytes).Some? && model.extract(bytes).value.root.Some?
    && tree - {MARKER} == model.extract(bytes).value.root.value - {MARKER}
  }

  /** Complete and verified against every pin the catalog has for the model. */
  ghost predicate Good(model: Model, tree: Tree, hash: Hash) {
    match model
    case Archive(required, digests, _, _) =>
      Complete(required, digests, tree, hash) && exists bytes :: ComesFrom(model, bytes, tree, hash)
    case Folder(required, digests) => Complete(required, digests, tree, hash)
    case SingleFile(name, pin) => tree.Keys == {name} && DigestAccepted(pin, hash(tree[name]))
  }

  /** `_verify_extracted_files`: every pin whose file is present must match. */
  predicate PinsMatch(digests: Pins, tree: Tree, hash: Hash) {
    forall k :: 0 <= k < |digests| && digests[k].0 in tree ==> hash(tree[digests[k].0]) == digests[k].1
  }

  method VerifyExtractedFiles(digests: Pins, tree: Tree, hash: Hash) returns (verified: bool)
    ensures verified <==> PinsMatch(digests, tree, hash)
  {
    for k := 0 to |digests|
      invariant forall j :: 0 <= j < k && digests[j].0 in tree ==> hash(tree[digests[j].0]) == digests[j].1
    {
      if digests[k].0 in tree && hash(tree[digests[k].0]) != digests[k].1 {
        return false;
      }
    }
    return true;
  }

  lemma {:induction false} PinsCover(digests: Pins, tree: Tree, hash: Hash, name: string)
    requires PinsMatch(digests, tree, hash) && name in tree
    ensures DigestAccepted(ExpectedDigest(digests, name, None), hash(tree[name]))
    decreases |digests|
  {
    if digests != [] {
      assert digests[0].0 in tree ==> hash(tree[digests[0].0]) == digests[0].1;
      var rest := digests[1..];
      assert forall k :: 0 <= k < |rest| ==> rest[k] == digests[k + 1];
      PinsCover(rest, tree, hash, name);
    }
  }

  lemma {:induction false} ListedKeepsPin(digests: Pins, name: string, listed: Option<Digest>, actual: Digest)
    requires DigestAccepted(ExpectedDigest(digests, name, listed), actual)
    ensures DigestAccepted(ExpectedDigest(digests, name, None), actual)
    decreases |digests|
  {
    if digests != [] && digests[0].0 != name {
      ListedKeepsPin(digests[1..], name, listed, actual);
    }
  }

  predicate Unpinned(digests: Pins, name: string) {
    forall k :: 0 <= k < |digests| ==> digests[k].0 != name
  }

  predicate FirstPin(digests: Pins, name: string, k: int) {
    0 <= k < |digests| && digests[k].0 == name && forall j :: 0 <= j < k ==> digests[j].0 != name
  }

  /** The first catalog pin for a file is enforced, whatever the listing says; without one, the listing is. */
  lemma {:induction false} EnforcedDigestIs(digests: Pins, name: string, listed: Option<Digest>)
    ensures Unpinned(digests, name) ==> ExpectedDigest(digests, name, listed) == listed
    ensures forall k :: FirstPin(digests, name, k) ==> ExpectedDigest(digests, name, listed) == Some(digests[k].1)
    decreases |digests|
  {
    if digests != [] && digests[0].0 != name {
      var rest := digests[1..];
      EnforcedDigestIs(rest, name, listed);
      assert forall k :: 0 <= k < |rest| ==> rest[k] == digests[k + 1];
      forall k | FirstPin(digests, name, k)
        ensures ExpectedDigest(digests, name, listed) == Some(digests[k].1)
      {
        assert rest[k - 1] == digests[k] && FirstPin(rest, name, k - 1);
      }
    }
  }

  // ---------------------------------------------------------------- one attempt, on values

  /** One run of a pipeline, with all that the network, the batch and the faults do to it; or a deletion. */
  datatype Attempt =
    | FromArchive(responses: seq<Response>, metadata: Bytes, fault: int)
    | FromFolder(files: seq<(string, Option<Digest>)>, landed: Option<Tree>, marker: Option<Bytes>, fault: int)
    | FromFile(responses: seq<Response>, fault: int)
    | Removal

  predicate Suits(model: Model, a: Attempt) {
    match a
    case FromArchive(responses, _, _) => model.Archive? && |responses| == ATTEMPTS
    case FromFolder(_, _, _, _) => model.Folder?
    case FromFile(responses, _) => model.SingleFile? && |responses| == ATTEMPTS
    case Removal => true
  }

  predicate Strikes(fault: int, last: int) {
    0 <= fault <= last
  }

  /** The model folder of an archive, if it passes the checks made on it. */
  function Checked(model: Model, bytes: Bytes, hash: Hash): Option<Tree>
    requires model.Archive?
  {
    var unpacked := model.extract(bytes);
    if unpacked.None? || unpacked.value.root.None? then None
    else if !Holds(unpacked.value.root.value, model.required) then None
    else if !PinsMatch(model.digests, unpacked.value.root.value, hash) then None
    else unpacked.value.root
  }

  function WithMarker(tree: Tree, marker: Option<Bytes>): Tree {
    if marker.Some? then tree[MARKER := marker.value] else tree
  }

  /** What an attempt has to promote, once all its checks have passed. */
  function Staged(model: Model, a: Attempt, hash: Hash): Option<Tree>
    requires Suits(model, a)
  {
    match a
    case FromArchive(responses, metadata, _) =>
      var fetched := FetchedFrom(responses, model.pin, hash);
      var checked := if fetched.Some? then Checked(model, fetched.value, hash) else None;
      if checked.Some? then Some(WithMarker(checked.value, Some(metadata))) else None
    case FromFolder(_, landed, marker, _) =>
      if landed.Some? && Holds(landed.value, model.required) then Some(WithMarker(landed.value, marker)) else None
    case FromFile(responses, _) =>
      var fetched := FetchedFrom(responses, model.pin, hash);
      if fetched.Some? then Some(map[model.name := fetched.value]) else None
    case Removal => None
  }

  /** The values the final path takes during the removal and the rename that end a directory pipeline. */
  function SwapTrail(ready: Option<Tree>, fault: int): seq<Option<Tree>> {
    if fault == 0 then [] else if fault == 1 then [None] else [None, ready]
  }

  /** The values the final path takes during an attempt, in order. */
  function Trail(model: Model, a: Attempt, hash: Hash): seq<Option<Tree>>
    requires Suits(model, a)
  {
    var ready := Staged(model, a, hash);
    match a
    case FromArchive(_, _, fault) => if ready.None? || Strikes(fault, 5) then [] else SwapTrail(ready, fault - 6)
    case FromFolder(_, _, _, fault) => if ready.None? || Strikes(fault, 2) then [] else SwapTrail(ready, fault - 3)
    case FromFile(_, fault) => if ready.None? || Strikes(fault, 1) then [] else [ready]
    case Removal => [None]
  }

  /** `installed_path`: the marker file when the model has one, else the mere presence of its path. */
  predicate ReportsInstalled(final: Option<Tree>, markerFile: Option<string>) {
    final.Some? && (markerFile.Some? ==> markerFile.value in final.value)
  }

  /** What lies at the final path after an install: exactly what was fetched, and the marker if there is one; a
      model whose marker was written reads as installed. */
  ghost predicate Holding(final: Option<Tree>, fetched: Tree, marker: Option<Bytes>) {
    && final.Some? && ReportsInstalled(final, None)
    && (marker.None? ==> final.value == fetched)
    && (marker.Some? ==>
          && ReportsInstalled(final, Some(MARKER)) && MARKER in final.value && final.value[MARKER] == marker.value
          && final.value - {MARKER} == fetched - {MARKER})
  }

  lemma MarkedHolds(fetched: Tree, marker: Option<Bytes>)
    ensures Holding(Some(WithMarker(fetched, marker)), fetched, marker)
  {
    if marker.Some? {
      assert fetched[MARKER := marker.value] - {MARKER} == fetched - {MARKER};
    }
  }

  /** The archive brought a model folder with every required file and no wrong one. */
  predicate ArchivePasses(model: Model, responses: seq<Response>, root: Tree, hash: Hash)
    requires model.Archive?
  {
    var fetched := FetchedFrom(responses, model.pin, hash);
    && fetched.Some? && model.extract(fetched.value).Some?
    && model.extract(fetched.value).value.root == Some(root)
    && (forall k :: 0 <= k < |model.required| ==> model.required[k] in root)
    && (forall k :: 0 <= k < |model.digests| && model.digests[k].0 in root ==>
          hash(root[model.digests[k].0]) == model.digests[k].1)
  }

  predicate FolderPasses(model: Model, landed: Option<Tree>)
    requires model.Folder?
  {
    landed.Some? && forall k :: 0 <= k < |model.required| ==> model.required[k] in landed.value
  }

  // ---------------------------------------------------------------- the pipelines

  datatype Progress = Raised | Installed

  /** The places one model's pipeline writes to. `seen` lists every value `final` ever had. */
  class Site {
    var final: Option<Tree>
    var partial: Option<Tree>
    var extracting: Option<Tree>
    var archive: Option<Bytes>
    ghost var seen: seq<Option<Tree>>

    ghost predicate Valid()
      reads this
    {
      seen != [] && seen[|seen| - 1] == final
    }

    constructor (final: Option<Tree>)
      ensures Valid() && this.final == final && seen == [final]
    {
      this.final := final;
      partial, extracting, archive := None, None, None;
      seen := [final];
    }

    method RemoveFinal()
      requires Valid()
      modifies this`final, this`seen
      ensures Valid() && final == None && seen == old(seen) + [None]
    {
      final := None;
      seen := seen + [None];
    }

    /** `partial_dir.replace(final_dir)`. */
    method Promote()
      requires Valid() && partial.Some?
      modifies this`final, this`partial, this`seen
      ensures Valid() && final == old(partial) && partial == None && seen == old(seen) + [final]
    {
      final, partial := partial, None;
      seen := seen + [final];
    }

    method CleanUp()
      modifies this`partial, this`extracting, this`archive
      ensures partial == None && extracting == None && archive == None
    {
      partial, extracting, archive := None, None, None;
    }
  }

  /** The common end of every directory pipeline: remove what was installed, rename the staged tree. */
  method Swap(site: Site, fault: int) returns (progress: Progress)
    requires site.Valid() && site.partial.Some?
    modifies site`final, site`partial, site`seen
    ensures site.Valid() && site.seen == old(site.seen) + SwapTrail(old(site.partial), fault)
    ensures progress == Installed ==> site.final == old(site.partial) && site.partial == None
    ensures progress == Raised <==> Strikes(fault, 1)
  {
    if fault == 0 {
      return Raised;
    }
    site.RemoveFinal();
    if fault == 1 {
      return Raised;
    }
    site.Promote();
    return Installed;
  }

  /** The download step of a pipeline that fetches one file. */
  method FetchOne(name: string, state: DownloadState, pin: Option<Digest>, hash: Hash, responses: seq<Response>)
    returns (fetched: Option<Bytes>)
    requires |responses| == ATTEMPTS
    modifies state
    ensures fetched == FetchedFrom(responses, pin, hash)
    ensures fetched.Some? ==> state.downloadedBytes == old(state.downloadedBytes) + |fetched.value|
  {
    var staging := new Staging();
    var attempt := new DownloadAttempt(name, pin, hash, state, staging);
    var result := DownloadFile(attempt, responses);
    return if result.Fetched? then Some(staging.files[name]) else None;
  }

  /** `_run_archive_download` up to the swap: download, extract, check, and write the marker. */
  method StageArchive(site: Site, state: DownloadState, model: Model, hash: Hash,
                      responses: seq<Response>, metadata: Bytes, fault: int)
    returns (staged: bool)
    requires model.Archive? && |responses| == ATTEMPTS
    modifies site`partial, site`extracting, site`archive, state
    ensures var a, fetched := FromArchive(responses, metadata, fault), FetchedFrom(responses, model.pin, hash);
      && (staged <==> Staged(model, a, hash).Some? && !Strikes(fault, 5))
      && (staged ==>
            && fetched.Some? && model.extract(fetched.value).Some?
            && site.partial == Staged(model, a, hash)
            && site.extracting == Some(model.extract(fetched.value).value.rest))
    ensures !staged ==> site.partial == None && site.extracting == None && site.archive == None
  {
    site.CleanUp();
    if fault == 0 {
      return false;
    }
    var fetched := FetchOne("", state, model.pin, hash, responses);
    if fetched.None? {
      return false;
    }
    site.archive := fetched;
    if fault == 1 {
      site.CleanUp();
      return false;
    }
    var unpacked := model.extract(fetched.value);
    if unpacked.None? {
      site.CleanUp();
      return false;
    }
    site.extracting := Some(unpacked.value.rest);
    var extracted := unpacked.value.root;
    if fault == 2 || extracted.None? || !Holds(extracted.value, model.required) {
      site.CleanUp();
      return false;
    }
    var verified := VerifyExtractedFiles(model.digests, extracted.value, hash);
    if fault == 3 || !verified {
      site.CleanUp();
      return false;
    }
    site.partial := extracted;
    if fault == 4 {
      site.CleanUp();
      return false;
    }
    site.partial := Some(extracted.value[MARKER := metadata]);
    if fault == 5 {
      site.CleanUp();
      return false;
    }
    return true;
  }

  /** The model folder an archive brought, or nothing. */
  function FetchedRoot(model: Model, responses: seq<Response>, hash: Hash): Tree
    requires model.Archive?
  {
    var fetched := FetchedFrom(responses, model.pin, hash);
    if fetched.Some? && model.extract(fetched.value).Some? && model.extract(fetched.value).value.root.Some?
    then model.extract(fetched.value).value.root.value else map[]
  }

  /** `_run_archive_download`. Whatever fails, the final path only takes good values, and nothing staged is
      left; a success leaves the extraction directory behind, with all the archive held beside the model. When
      only the last removal of the archive fails, the attempt raises with the model installed. */
  method RunArchiveDownload(site: Site, state: DownloadState, model: Model, hash: Hash,
                            responses: seq<Response>, metadata: Bytes, fault: int)
    returns (progress: Progress)
    requires site.Valid() && model.Archive? && |responses| == ATTEMPTS
    modifies site, state
    ensures var a := FromArchive(responses, metadata, fault);
      && site.Valid() && site.seen == old(site.seen) + Trail(model, a, hash)
      && (progress == Installed <==> Staged(model, a, hash).Some? && !Strikes(fault, 8))
      && (progress == Installed ==> site.final == Staged(model, a, hash) && Good(model, site.final.value, hash))
    ensures site.partial == None && site.archive == None
    ensures progress == Raised ==> site.extracting == None
    ensures var fetched := FetchedFrom(responses, model.pin, hash);
      progress == Installed ==>
        && fetched.Some? && model.extract(fetched.value).Some?
        && site.extracting == Some(model.extract(fetched.value).value.rest)
    ensures progress == Raised && fault !in {7, 8} ==> site.final == old(site.final)
    ensures !(0 <= fault <= 8) ==> forall root :: ArchivePasses(model, responses, root, hash) ==>
      progress == Installed && Holding(site.final, root, Some(metadata))
    ensures fault == 8 && Staged(model, FromArchive(responses, metadata, fault), hash).Some? ==>
      progress == Raised && site.final == Staged(model, FromArchive(responses, metadata, fault), hash)
  {
    var staged := StageArchive(site, state, model, hash, responses, metadata, fault);
    if !staged {
      return Raised;
    }
    ArchiveIsGood(model, FetchedFrom(responses, model.pin, hash).value, metadata, hash);
    progress := Swap(site, fault - 6);
    if progress == Raised {
      site.CleanUp();
      return;
    }
    if fault == 8 {
      site.CleanUp();
      return Raised;
    }
    site.archive := None;
    MarkedHolds(FetchedRoot(model, responses, hash), Some(metadata));
  }

  lemma ArchiveIsGood(model: Model, bytes: Bytes, metadata: Bytes, hash: Hash)
    requires model.Archive? && DigestAccepted(model.pin, hash(bytes)) && Checked(model, bytes, hash).Some?
    ensures Good(model, Checked(model, bytes, hash).value[MARKER := metadata], hash)
  {
    var root := Checked(model, bytes, hash).value;
    var tree := root[MARKER := metadata];
    forall name | name in root
      ensures DigestAccepted(ExpectedDigest(model.digests, name, None), hash(root[name]))
    {
      PinsCover(model.digests, root, hash, name);
    }
    assert tree - {MARKER} == root - {MARKER};
    assert ComesFrom(model, bytes, tree, hash);
  }

  /** The orders of a repository download: each file with the digest to enforce for it. */
  function OrdersFor(digests: Pins, files: seq<(string, Option<Digest>)>): seq<Order> {
    seq(|files|, k requires 0 <= k < |files| =>
      Order(files[k].0, ExpectedDigest(digests, files[k].0, files[k].1)))
  }

  /** What a finished batch left in the staging directory; `CompletedBatchArrives` shows that success means
      this. */
  ghost predicate BatchArrives(landed: Option<Tree>, digests: Pins, files: seq<(string, Option<Digest>)>, hash: Hash) {
    landed.Some? ==>
      && Delivers(OrdersFor(digests, files), landed.value, hash)
      && landed.value.Keys == set k | 0 <= k < |files| :: files[k].0
  }

  /** A batch that completes from an empty staging directory leaves exactly what an install may promote. */
  lemma CompletedBatchArrives(digests: Pins, files: seq<(string, Option<Digest>)>, hash: Hash,
                              start: Batch, downloaded: nat, events: seq<DownloadRuns.Event>, b: Batch)
    requires Reaches(start, downloaded, events, hash, b) && start.disk == map[]
    requires Orders(start.workers) == OrdersFor(digests, files)
    requires forall w :: 0 <= w < |b.workers| ==> Settled(b.workers[w])
    requires OutcomeOf(b.workers) == DownloadRuns.Complete
    ensures BatchArrives(Some(b.disk), digests, files, hash)
    ensures forall k :: 0 <= k < |files| && Unpinned(digests, files[k].0) ==>
      files[k].0 in b.disk && (files[k].1.Some? ==> hash(b.disk[files[k].0]) == files[k].1.value)
  {
    BatchDelivers(start, downloaded, events, hash, b);
    RunOnlyOrdered(start, events, hash);
    OrdersKept(start, events, hash);
    var orders := OrdersFor(digests, files);
    forall name <- b.disk
      ensures name in set k | 0 <= k < |files| :: files[k].0
    {
      var w :| 0 <= w < |b.workers| && b.workers[w].order.name == name;
      assert Orders(b.workers)[w] == b.workers[w].order && orders[w].name == files[w].0;
    }
    forall k | 0 <= k < |files|
      ensures files[k].0 in b.disk
    {
      assert orders[k].name in b.disk;
    }
    forall k | 0 <= k < |files| && Unpinned(digests, files[k].0)
      ensures files[k].0 in b.disk && (files[k].1.Some? ==> hash(b.disk[files[k].0]) == files[k].1.value)
    {
      EnforcedDigestIs(digests, files[k].0, files[k].1);
      assert DigestAccepted(orders[k].pin, hash(b.disk[orders[k].name]));
    }
  }

  lemma LandedIsGood(model: Model, files: seq<(string, Option<Digest>)>, landed: Tree, marker: Option<Bytes>,
                     hash: Hash)
    requires model.Folder? && BatchArrives(Some(landed), model.digests, files, hash)
    requires Holds(landed, model.required)
    ensures Good(model, WithMarker(landed, marker), hash)
  {
    forall name <- landed
      ensures DigestAccepted(ExpectedDigest(model.digests, name, None), hash(landed[name]))
    {
      var k :| 0 <= k < |files| && files[k].0 == name;
      var orders := OrdersFor(model.digests, files);
      assert orders[k].name in landed && DigestAccepted(orders[k].pin, hash(landed[orders[k].name]));
      ListedKeepsPin(model.digests, name, files[k].1, hash(landed[name]));
    }
  }

  /** `_run_sherpa_huggingface_download` and `_run_huggingface_download` after their listing: download the
      files into staging, check that every required one landed, write the marker if this kind of model has
      one, and swap. The steps that can fail are the batch, the check, the marker and the two of the swap. */
  method RunRepositoryDownload(site: Site, model: Model, hash: Hash, files: seq<(string, Option<Digest>)>,
                               landed: Option<Tree>, marker: Option<Bytes>, fault: int)
    returns (progress: Progress)
    requires site.Valid() && model.Folder? && BatchArrives(landed, model.digests, files, hash)
    modifies site`final, site`partial, site`seen
    ensures var a := FromFolder(files, landed, marker, fault);
      && site.Valid() && site.seen == old(site.seen) + Trail(model, a, hash)
      && (progress == Installed <==> Staged(model, a, hash).Some? && !Strikes(fault, 4))
      && (progress == Installed ==> site.final == Staged(model, a, hash) && Good(model, site.final.value, hash))
    ensures site.partial == None
    ensures progress == Raised && fault != 4 ==> site.final == old(site.final)
    ensures !(0 <= fault <= 4) && FolderPasses(model, landed) ==>
      progress == Installed && Holding(site.final, landed.value, marker)
  {
    site.partial := Some(map[]);
    if fault == 0 || landed.None? {
      site.partial := None;
      return Raised;
    }
    site.partial := landed;
    if fault == 1 || !Holds(landed.value, model.required) {
      site.partial := None;
      return Raised;
    }
    LandedIsGood(model, files, landed.value, marker, hash);
    MarkedHolds(landed.value, marker);
    if marker.Some? {
      site.partial := Some(landed.value[MARKER := marker.value]);
    }
    if fault == 2 {
      site.partial := None;
      return Raised;
    }
    progress := Swap(site, fault - 3);
    site.partial := None;
  }

  /** A single file is installed by one rename over whatever was there. */
  method RunSingleFile(site: Site, state: DownloadState, model: Model, hash: Hash,
                       responses: seq<Response>, fault: int)
    returns (progress: Progress)
    requires site.Valid() && model.SingleFile? && |responses| == ATTEMPTS
    modifies site`final, site`partial, site`seen, state
    ensures var a := FromFile(responses, fault);
      && site.Valid() && site.seen == old(site.seen) + Trail(model, a, hash)
      && (progress == Installed <==> Staged(model, a, hash).Some? && !Strikes(fault, 1))
      && (progress == Installed ==> site.final == Staged(model, a, hash) && Good(model, site.final.value, hash))
    ensures site.partial == None
    ensures progress == Raised ==> site.final == old(site.final) && site.seen == old(site.seen)
    ensures !(0 <= fault <= 1) ==> forall bytes :: FetchedFrom(responses, model.pin, hash) == Some(bytes) ==>
      progress == Installed && Holding(site.final, map[model.name := bytes], None)
  {
    site.partial := None;
    if fault == 0 {
      return Raised;
    }
    var fetched := FetchOne("", state, model.pin, hash, responses);
    if fetched.None? {
      return Raised;
    }
    site.partial := Some(map[model.name := fetched.value]);
    if fault == 1 {
      site.partial := None;
      return Raised;
    }
    site.Promote();
    return Installed;
  }

  /** `_run_catalog_download`, and `delete`: which pipeline a model takes. */
  method RunCatalogDownload(site: Site, state: DownloadState, model: Model, hash: Hash, a: Attempt)
    returns (progress: Progress)
    requires site.Valid() && Suits(model, a)
    requires a.FromFolder? ==> BatchArrives(a.landed, model.digests, a.files, hash)
    modifies site, state
    ensures site.Valid() && site.seen == old(site.seen) + Trail(model, a, hash)
    ensures site.partial == None || a.Removal?
    ensures a.FromArchive? && !(0 <= a.fault <= 8) ==> forall root :: ArchivePasses(model, a.responses, root, hash) ==>
      Holding(site.final, root, Some(a.metadata))
    ensures a.FromFolder? && !(0 <= a.fault <= 4) && FolderPasses(model, a.landed) ==>
      Holding(site.final, a.landed.value, a.marker)
    ensures a.FromFile? && !(0 <= a.fault <= 1) ==>
      forall bytes :: FetchedFrom(a.responses, model.pin, hash) == Some(bytes) ==>
        Holding(site.final, map[model.name := bytes], None)
    ensures a.Removal? ==> site.final == None
  {
    match a
    case FromArchive(responses, metadata, fault) =>
      progress := RunArchiveDownload(site, state, model, hash, responses, metadata, fault);
    case FromFolder(files, landed, marker, fault) =>
      progress := RunRepositoryDownload(site, model, hash, files, landed, marker, fault);
    case FromFile(responses, fault) =>
      progress := RunSingleFile(site, state, model, hash, responses, fault);
    case Removal =>
      site.RemoveFinal();
      progress := Raised;
  }
}
