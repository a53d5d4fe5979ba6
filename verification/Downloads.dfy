/** Fetching one file with retries: `_call_with_retries` and `_DownloadAttempt` of app/model_manager.py.

    A file's content is the sequence of its bytes, and the hash is an arbitrary function of it. */
module Downloads {
  import opened Options

  type Bytes = seq<nat>

  type Digest = nat

  type Hash = Bytes -> Digest

  const ATTEMPTS := 3

  /** What one attempt reads and writes: the counter all workers share, the staging directory they
      share, and the bytes this attempt has received. */
  datatype Transfer = Transfer(downloaded: nat, disk: map<string, Bytes>, received: Bytes)

  function Begun(t: Transfer): Transfer {
    t.(received := [])
  }

  /** The destination is opened for writing, which truncates it. */
  function Opened(t: Transfer, name: string): Transfer {
    t.(disk := t.disk[name := []])
  }

  function Wrote(t: Transfer, name: string, chunk: Bytes): Transfer {
    Transfer(t.downloaded + |chunk|,
             t.disk[name := (if name in t.disk then t.disk[name] else []) + chunk],
             t.received + chunk)
  }

  function RolledBack(t: Transfer, name: string): Transfer {
    Transfer(if t.downloaded < |t.received| then 0 else t.downloaded - |t.received|, t.disk - {name}, t.received)
  }

  /** `_verify_response_size`. */
  predicate SizeAccepted(announced: Option<nat>, received: Bytes) {
    announced.None? || announced.value == |received|
  }

  predicate DigestAccepted(pin: Option<Digest>, actual: Digest) {
    pin.None? || pin.value == actual
  }

  /** What the network does to one attempt: the request itself fails, or chunks arrive and then the
      stream ends, drops, or something that is not retried happens. */
  datatype Ending = Eof | DroppedConnection | Fatal

  datatype Response = Unreachable | Response(announced: Option<nat>, chunks: seq<Bytes>, ending: Ending)

  datatype RunResult = Accepted(digest: Digest) | Retryable | Aborted

  datatype Result = Fetched(digest: Digest) | GaveUp | Stopped

  function Content(chunks: seq<Bytes>): Bytes {
    if chunks == [] then [] else Content(chunks[..|chunks| - 1]) + chunks[|chunks| - 1]
  }

  /** An answer that a single attempt accepts. */
  predicate Answers(response: Response, pin: Option<Digest>, hash: Hash) {
    && response.Response? && response.ending == Eof
    && SizeAccepted(response.announced, Content(response.chunks))
    && DigestAccepted(pin, hash(Content(response.chunks)))
  }

  class DownloadState {
    var downloadedBytes: nat

    constructor ()
      ensures downloadedBytes == 0
    {
      downloadedBytes := 0;
    }
  }

  class Staging {
    var files: map<string, Bytes>

    constructor ()
      ensures files == map[]
    {
      files := map[];
    }
  }

  class DownloadAttempt {
    const name: string
    const pin: Option<Digest>
    const hash: Hash
    const state: DownloadState
    const staging: Staging
    var received: Bytes

    constructor (name: string, pin: Option<Digest>, hash: Hash, state: DownloadState, staging: Staging)
      ensures this.name == name && this.pin == pin && this.hash == hash
      ensures this.state == state && this.staging == staging && received == []
    {
      this.name, this.pin, this.hash, this.state, this.staging := name, pin, hash, state, staging;
      received := [];
    }

    function View(): Transfer
      reads this, state, staging
    {
      Transfer(state.downloadedBytes, staging.files, received)
    }

    method WriteChunk(chunk: Bytes)
      modifies this, state, staging
      ensures View() == Wrote(old(View()), name, chunk)
    {
      staging.files := staging.files[name := (if name in staging.files then staging.files[name] else []) + chunk];
      received := received + chunk;
      state.downloadedBytes := state.downloadedBytes + |chunk|;
    }

    method Rollback()
      modifies this, state, staging
      ensures View() == RolledBack(old(View()), name)
    {
      staging.files := staging.files - {name};
      state.downloadedBytes := if state.downloadedBytes < |received| then 0 else state.downloadedBytes - |received|;
    }

    /** One attempt. Whatever it returns, what it added to the shared counter is what it received, and
        it touched no other file. An accepted file is on disk as received, with the size the server
        announced and the digest that was asked for. */
    method Run(response: Response) returns (result: RunResult)
      modifies this, state, staging
      ensures state.downloadedBytes == old(state.downloadedBytes) + |received|
      ensures staging.files - {name} == old(staging.files) - {name}
      ensures result.Accepted? ==>
        && response.Response? && received == Content(response.chunks)
        && name in staging.files && staging.files[name] == received
        && result.digest == hash(received)
      ensures Answers(response, pin, hash) ==> result.Accepted?
      ensures result.Accepted? ==> Answers(response, pin, hash)
      ensures result.Aborted? <==> response.Response? && response.ending == Fatal
    {
      received := [];
      if response.Unreachable? {
        return Retryable;
      }
      staging.files := staging.files[name := []];
      var k := 0;
      while k < |response.chunks|
        invariant k <= |response.chunks|
        invariant received == Content(response.chunks[..k])
        invariant name in staging.files && staging.files[name] == received
        invariant state.downloadedBytes == old(state.downloadedBytes) + |received|
        invariant staging.files - {name} == old(staging.files) - {name}
      {
        assert response.chunks[..k + 1][..k] == response.chunks[..k];
        WriteChunk(response.chunks[k]);
        k := k + 1;
      }
      assert response.chunks[..k] == response.chunks;
      if response.ending == Fatal {
        return Aborted;
      }
      if response.ending == DroppedConnection || !SizeAccepted(response.announced, received) {
        return Retryable;
      }
      var actual := hash(received);
      if !DigestAccepted(pin, actual) {
        staging.files := staging.files - {name};
        return Retryable;
      }
      return Accepted(actual);
    }
  }

  /** What the attempts bring home: the first right answer, unless something ends the download before it. */
  function FetchedFrom(responses: seq<Response>, pin: Option<Digest>, hash: Hash): (r: Option<Bytes>)
    ensures r.Some? ==> DigestAccepted(pin, hash(r.value))
  {
    if responses == [] then None
    else if Answers(responses[0], pin, hash) then Some(Content(responses[0].chunks))
    else if responses[0].Response? && responses[0].ending == Fatal then None
    else FetchedFrom(responses[1..], pin, hash)
  }

  lemma FetchedNext(responses: seq<Response>, k: nat, pin: Option<Digest>, hash: Hash)
    requires k < |responses|
    ensures FetchedFrom(responses[k..], pin, hash) ==
      if Answers(responses[k], pin, hash) then Some(Content(responses[k].chunks))
      else if responses[k].Response? && responses[k].ending == Fatal then None
      else FetchedFrom(responses[k + 1..], pin, hash)
  {
    assert responses[k..][1..] == responses[k + 1..];
  }

  /** Whether the attempt is answered rightly, and nothing ended the download before it. */
  predicate Succeeds(responses: seq<Response>, pin: Option<Digest>, hash: Hash, k: nat) {
    && k < |responses| && Answers(responses[k], pin, hash)
    && forall j :: 0 <= j < k ==> responses[j].Unreachable? || responses[j].ending != Fatal
  }

  ghost predicate SomeSucceeds(responses: seq<Response>, pin: Option<Digest>, hash: Hash) {
    exists k: nat :: Succeeds(responses, pin, hash, k)
  }

  /** Something comes home exactly when some attempt succeeds. */
  lemma {:induction false} FetchedIffSucceeds(responses: seq<Response>, pin: Option<Digest>, hash: Hash)
    ensures FetchedFrom(responses, pin, hash).Some? <==> SomeSucceeds(responses, pin, hash)
    decreases |responses|
  {
    if responses != [] {
      var first, rest := responses[0], responses[1..];
      FetchedIffSucceeds(rest, pin, hash);
      if Answers(first, pin, hash) {
        assert Succeeds(responses, pin, hash, 0);
      } else if !(first.Response? && first.ending == Fatal) {
        if k: nat :| Succeeds(rest, pin, hash, k) {
          assert forall j :: 0 < j < k + 1 ==> responses[j] == rest[j - 1];
          assert Succeeds(responses, pin, hash, k + 1);
        }
        if k: nat :| Succeeds(responses, pin, hash, k) {
          assert forall j :: 0 <= j < k - 1 ==> rest[j] == responses[j + 1];
          assert Succeeds(rest, pin, hash, k - 1);
        }
      }
    }
  }

  /** What comes home is what one response held, whole: it ended properly, with the announced size and the
      enforced digest, and every response before it failed in a way that is retried. */
  lemma {:induction false} FetchedIsRight(responses: seq<Response>, pin: Option<Digest>, hash: Hash) returns (k: nat)
    requires FetchedFrom(responses, pin, hash).Some?
    ensures k < |responses| && responses[k].Response? && responses[k].ending == Eof
    ensures var content := FetchedFrom(responses, pin, hash).value;
      && content == Content(responses[k].chunks)
      && (responses[k].announced.None? || responses[k].announced.value == |content|)
      && (pin.None? || hash(content) == pin.value)
    ensures forall j :: 0 <= j < k ==> responses[j].Unreachable? || responses[j].ending != Fatal
    decreases |responses|
  {
    if Answers(responses[0], pin, hash) {
      k := 0;
    } else {
      var rest := responses[1..];
      k := FetchedIsRight(rest, pin, hash);
      assert forall j :: 0 < j <= k + 1 ==> responses[j] == rest[j - 1];
      k := k + 1;
    }
  }

  /** `_download_file`: a file that returns is verified and counted exactly once, a file given up on is
      gone and counted not at all, whatever the earlier attempts had already counted. */
  method DownloadFile(attempt: DownloadAttempt, responses: seq<Response>) returns (result: Result)
    requires |responses| == ATTEMPTS
    modifies attempt, attempt.state, attempt.staging
    ensures attempt.staging.files - {attempt.name} == old(attempt.staging.files) - {attempt.name}
    ensures match result
      case Fetched(digest) =>
        && attempt.name in attempt.staging.files
        && var content := attempt.staging.files[attempt.name];
           && digest == attempt.hash(content) && DigestAccepted(attempt.pin, digest)
           && FetchedFrom(responses, attempt.pin, attempt.hash) == Some(content)
           && attempt.state.downloadedBytes == old(attempt.state.downloadedBytes) + |content|
      case GaveUp =>
        && attempt.name !in attempt.staging.files
        && attempt.state.downloadedBytes == old(attempt.state.downloadedBytes)
      case Stopped =>
        attempt.state.downloadedBytes == old(attempt.state.downloadedBytes) + |attempt.received|
    ensures result.Fetched? <==> FetchedFrom(responses, attempt.pin, attempt.hash).Some?
    ensures result.Fetched? <==> SomeSucceeds(responses, attempt.pin, attempt.hash)
    ensures result.Stopped? ==> exists k: nat :: k < ATTEMPTS && responses[k].Response? && responses[k].ending == Fatal
  {
    var n := 1;
    ghost var fetched := FetchedFrom(responses, attempt.pin, attempt.hash);
    FetchedIffSucceeds(responses, attempt.pin, attempt.hash);
    assert responses[0..] == responses;
    while n <= ATTEMPTS
      invariant 1 <= n <= ATTEMPTS
      invariant attempt.staging.files - {attempt.name} == old(attempt.staging.files) - {attempt.name}
      invariant attempt.state.downloadedBytes == old(attempt.state.downloadedBytes)
      invariant fetched == FetchedFrom(responses[n - 1..], attempt.pin, attempt.hash)
      decreases ATTEMPTS - n
    {
      var outcome := attempt.Run(responses[n - 1]);
      FetchedNext(responses, n - 1, attempt.pin, attempt.hash);
      match outcome {
        case Accepted(digest) =>
          return Fetched(digest);
        case Aborted => return Stopped;
        case Retryable =>
          attempt.Rollback();
          if n == ATTEMPTS {
            assert responses[n..] == [];
            return GaveUp;
          }
      }
      n := n + 1;
    }
    assert false;
    return GaveUp;
  }
}
