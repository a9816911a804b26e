/** A bundle from the network to the device store: staged, verified, installed. */
module Bundle {
  import opened Prelude
  import opened Payload
  import Install
  import Staging

  /** What verification finds of a staged artifact. */
  function Found(files: Staging.Files, s: Staging.Staged): Install.StagedFile {
    Install.StagedFile(s.artifact, if s.path in files then Some(files[s.path]) else None)
  }

  function AllFound(r: Staging.StageResult): seq<Install.StagedFile>
    requires r.staged.Some?
  {
    seq(|r.staged.value|, i requires 0 <= i < |r.staged.value| => Found(r.files, r.staged.value[i]))
  }

  /** A push: what the payload lists, what each fetch goes through, and what was there before. */
  datatype Push = Push(
    artifacts: seq<Artifact>,
    responses: seq<seq<Staging.Turn>>,
    maxArtifact: Option<nat>,
    maxBytes: Option<nat>,
    scratch: Staging.Files,
    store: Install.Store)

  function Staged(p: Push): Staging.StageResult
    requires |p.responses| == |p.artifacts|
  {
    Staging.StageFrom(p.artifacts, p.responses, p.maxArtifact, p.maxBytes, p.scratch, [])
  }

  function Landed(h: Install.Hashes, p: Push): seq<Install.Landing>
    requires |p.responses| == |p.artifacts| && Staged(p).staged.Some?
    requires Install.VerifyBundle(h.digest, AllFound(Staged(p))).Pass?
  {
    Install.PassedIsPinned(h, AllFound(Staged(p)));
    Install.Landings(AllFound(Staged(p)), Install.VerifyBundle(h.digest, AllFound(Staged(p))).value)
  }

  /** Everything is staged, the bundle passes, and the install meets no error. */
  ghost predicate GoesThrough(h: Install.Hashes, p: Push) {
    && |p.responses| == |p.artifacts| && Staged(p).staged.Some?
    && Install.VerifyBundle(h.digest, AllFound(Staged(p))).Pass?
    && Install.InstallAll(h, p.store, Landed(h, p)).error.None?
  }

  lemma {:induction false} EntriesAt(artifacts: seq<Artifact>, responses: seq<seq<Staging.Turn>>, n: nat, i: nat)
    requires i < n <= |artifacts| == |responses| && Staging.Body(responses[i]).Some?
    ensures |Staging.Entries(artifacts, responses, n)| == n
    ensures Staging.Entries(artifacts, responses, n)[i]
         == Staging.Staged(artifacts[i], Staging.StagingName(i, artifacts[i].kind), |Staging.Body(responses[i]).value|)
  {
    Staging.EntriesLength(artifacts, responses, n);
    Staging.EntriesLength(artifacts, responses, n - 1);
    if i < n - 1 {
      EntriesAt(artifacts, responses, n - 1, i);
    }
  }

  /** What is verified is what was fetched: each artifact with the whole body of its own response. */
  lemma FoundIsFetched(p: Push, i: nat)
    requires |p.responses| == |p.artifacts| && Staged(p).staged.Some? && i < |p.artifacts|
    ensures |AllFound(Staged(p))| == |p.artifacts| && Staging.Body(p.responses[i]).Some?
    ensures AllFound(Staged(p))[i] == Install.StagedFile(p.artifacts[i], Some(Staging.Body(p.responses[i]).value))
  {
    Staging.EveryByteAccounted(p.artifacts, p.responses, p.maxArtifact, p.maxBytes, p.scratch);
    EntriesAt(p.artifacts, p.responses, |p.artifacts|, i);
  }

  lemma LandedIsFetched(h: Install.Hashes, p: Push, i: nat)
    requires GoesThrough(h, p) && i < |p.artifacts|
    ensures |Landed(h, p)| == |p.artifacts| && Install.AllPinned(h, Landed(h, p))
    ensures Staging.Body(p.responses[i]).Some?
    ensures Landed(h, p)[i].artifact == p.artifacts[i] && Landed(h, p)[i].bytes == Staging.Body(p.responses[i]).value
  {
    FoundIsFetched(p, i);
    Install.PassedIsPinned(h, AllFound(Staged(p)));
  }

  /** From end to end: when a push goes through, the store holds, for every artifact with a digest over
      its bytes, the whole body fetched for the last such artifact with that store path, and it hashes
      to that artifact's pin. */
  lemma StoredIsFetched(h: Install.Hashes, p: Push, i: nat)
    requires Injective(h.digest) && GoesThrough(h, p) && i < |p.artifacts|
    requires p.artifacts[i].kind != Install.TRUSTED_CORE && !Install.NoHash(p.artifacts[i].contentHash)
    ensures |Landed(h, p)| == |p.artifacts|
    ensures var j := Install.LastRival(h, Landed(h, p), i, |p.artifacts|);
      var end := Install.InstallAll(h, p.store, Landed(h, p)).store;
      var path := h.path(p.artifacts[i].key);
      && path == h.path(p.artifacts[j].key) && p.artifacts[j].contentHash.Some?
      && path in end && Some(end[path]) == Staging.Body(p.responses[j])
      && h.digest(end[path]) == Install.PinOf(p.artifacts[j].contentHash.value)
  {
    var list := Landed(h, p);
    LandedIsFetched(h, p, i);
    Install.PassedIsPinned(h, AllFound(Staged(p)));
    FoundIsFetched(p, i);
    assert list[i].status.Verified?;
    var j := Install.LastRival(h, list, i, |list|);
    LastIsRival(h, list, i, |list|);
    LandedIsFetched(h, p, j);
    Install.PinsHold(h, p.store, list, i);
    assert list[j] in list && Install.Pinned(h, list[j]);
  }

  lemma {:induction false} LastIsRival(h: Install.Hashes, list: seq<Install.Landing>, i: nat, n: nat)
    requires i < n <= |list| && list[i].status.Verified?
    ensures Install.Rival(h, list, i, Install.LastRival(h, list, i, n))
  {
    if n - 1 > i && !Install.Rival(h, list, i, n - 1) {
      LastIsRival(h, list, i, n - 1);
    }
  }
}
