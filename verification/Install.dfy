/** Verifying a staged bundle against its pins, and installing it into the device store. */
module Install {
  import opened Prelude
  import Lines
  import Text
  import opened Payload

  // ---- verification ----

  /** A staged artifact and the bytes of its file, if it can be read. */
  datatype StagedFile = StagedFile(artifact: Artifact, bytes: Option<Bytes>)

  datatype VerifyStatus = Verified | DeferredTrustedCore | OutOfBand
  datatype VerifyError = MissingDigest | UnsupportedDigest | Unreadable | DigestMismatch | IncompleteBundle
  datatype Checked<+T> = Pass(value: T) | Reject(error: VerifyError)

  const WORKFLOW_SPEC := "workflow_spec"
  const TRUSTED_CORE := "trusted_core"

  function LowerChar(c: char): char {
    if 'A' <= c <= 'Z' then (c as int + 32) as char else c
  }

  function Lower(s: string): string {
    seq(|s|, i requires 0 <= i < |s| => LowerChar(s[i]))
  }

  /** How a pin is compared. */
  function PinOf(hash: string): string {
    Lower(Text.Strip(hash))
  }

  predicate HexDigit(c: char) {
    '0' <= c <= '9' || 'a' <= c <= 'f'
  }

  /** `sha256:` and 64 lower-case hexadecimal digits. */
  predicate Supported(pin: string) {
    |pin| == 71 && pin[..7] == "sha256:" && forall i | 7 <= i < 71 :: HexDigit(pin[i])
  }

  function NoHash(hash: Option<string>): bool {
    hash.None? || Text.Strip(hash.value) == ""
  }

  function VerifyOne(digest: Bytes -> string, s: StagedFile): Checked<VerifyStatus> {
    var hash := s.artifact.contentHash;
    if NoHash(hash) then
      if s.artifact.kind == WORKFLOW_SPEC || s.artifact.kind == TRUSTED_CORE then Reject(MissingDigest)
      else Pass(OutOfBand)
    else if s.artifact.kind == TRUSTED_CORE then Pass(DeferredTrustedCore)
    else if !Supported(PinOf(hash.value)) then Reject(UnsupportedDigest)
    else if s.bytes.None? then Reject(Unreadable)
    else if digest(s.bytes.value) != PinOf(hash.value) then Reject(DigestMismatch)
    else Pass(Verified)
  }

  function VerifyEach(digest: Bytes -> string, staged: seq<StagedFile>): Checked<seq<VerifyStatus>> {
    if staged == [] then Pass([])
    else match VerifyOne(digest, staged[0])
      case Reject(e) => Reject(e)
      case Pass(status) =>
        match VerifyEach(digest, staged[1..])
        case Reject(e) => Reject(e)
        case Pass(rest) => Pass([status] + rest)
  }

  function VerifyBundle(digest: Bytes -> string, staged: seq<StagedFile>): Checked<seq<VerifyStatus>> {
    match VerifyEach(digest, staged)
    case Reject(e) => Reject(e)
    case Pass(statuses) =>
      if exists i | 0 <= i < |staged| :: staged[i].artifact.kind == WORKFLOW_SPEC then Pass(statuses)
      else Reject(IncompleteBundle)
  }

  /** Artifact `i` is the first that does not pass, and why. */
  predicate FirstBad(digest: Bytes -> string, staged: seq<StagedFile>, i: nat, error: VerifyError) {
    && i < |staged| && VerifyOne(digest, staged[i]) == Reject(error)
    && forall k | 0 <= k < i :: VerifyOne(digest, staged[k]).Pass?
  }

  /** A hash that is absent or blank is no hash. */
  lemma NoHashExact(hash: Option<string>)
    ensures NoHash(hash) <==> hash.None? || Text.Blank(hash.value)
  {
    if hash.Some? && Text.Blank(hash.value) {
      StripBlank(hash.value);
    } else if hash.Some? {
      StripSome(hash.value);
    }
  }

  lemma {:induction false} StripBlank(s: string)
    requires Text.Blank(s)
    ensures Text.LStrip(s) == ""
  {
    if s != "" {
      assert s[0] in s && forall c :: c in s[1..] ==> c in s;
      StripBlank(s[1..]);
    }
  }

  lemma {:induction false} StripSome(s: string)
    requires !Text.Blank(s)
    ensures Text.Strip(s) != ""
  {
    if Text.Space(s[0]) {
      assert s == [s[0]] + s[1..];
      StripSome(s[1..]);
    } else {
      StripTail(s);
    }
  }

  lemma {:induction false} StripTail(s: string)
    requires s != "" && !Text.Space(s[0])
    ensures Text.LStrip(s) == s && Text.RStrip(s) != ""
    decreases |s|
  {
    if Text.Space(s[|s| - 1]) {
      StripTail(s[..|s| - 1]);
    }
  }

  /** How a pin is read: the whitespace around it does not count, nor does the case of its letters; it
      is supported exactly when that leaves `sha256:` and 64 hexadecimal digits. */
  lemma PinExact(before: string, pin: string, after: string)
    requires Text.Blank(before) && Text.Blank(after) && pin != ""
    requires !Text.Space(pin[0]) && !Text.Space(pin[|pin| - 1])
    ensures PinOf(before + pin + after) == Lower(pin)
    ensures Supported(Lower(pin)) <==>
      && |pin| == 71 && Lower(pin[..7]) == "sha256:"
      && forall i :: 7 <= i < 71 ==> pin[i] in "0123456789abcdefABCDEF"
  {
    StripBetween(before, pin, after);
    assert Lower(pin)[..if |pin| >= 7 then 7 else 0] == Lower(pin[..if |pin| >= 7 then 7 else 0]);
    forall i | 0 <= i < |pin| ensures HexDigit(Lower(pin)[i]) <==> pin[i] in "0123456789abcdefABCDEF" {
      HexExact(pin[i]);
    }
  }

  lemma HexExact(c: char)
    ensures HexDigit(LowerChar(c)) <==> c in "0123456789abcdefABCDEF"
  {
    var digits := "0123456789abcdefABCDEF";
    assert '0' <= c <= '9' ==> digits[c as int - '0' as int] == c;
    assert 'a' <= c <= 'f' ==> digits[c as int - 'a' as int + 10] == c;
    assert 'A' <= c <= 'F' ==> digits[c as int - 'A' as int + 16] == c;
  }

  lemma {:induction false} StripBetween(before: string, v: string, after: string)
    requires Text.Blank(before) && Text.Blank(after) && v != "" && !Text.Space(v[0]) && !Text.Space(v[|v| - 1])
    ensures Text.Strip(before + v + after) == v
    decreases |before| + |after|
  {
    if before != "" {
      assert (before + v + after)[0] in before && (before + v + after)[1..] == before[1..] + v + after;
      assert Text.Blank(before[1..]) by { assert forall c :: c in before[1..] ==> c in before; }
      StripBetween(before[1..], v, after);
    } else {
      assert "" + v + after == v + after && (v + after)[0] == v[0];
      StripAfter(v, after);
    }
  }

  lemma {:induction false} StripAfter(v: string, after: string)
    requires Text.Blank(after) && v != "" && !Text.Space(v[|v| - 1])
    ensures Text.RStrip(v + after) == v
    decreases |after|
  {
    if after == "" {
      assert v + after == v;
    } else {
      var last := after[|after| - 1];
      assert last in after && (v + after)[|v + after| - 1] == last;
      assert (v + after)[..|v + after| - 1] == v + after[..|after| - 1];
      assert Text.Blank(after[..|after| - 1]) by { assert forall c :: c in after[..|after| - 1] ==> c in after; }
      StripAfter(v, after[..|after| - 1]);
    }
  }

  /** All or nothing: a list passes exactly when every artifact does, each with its own status; else
      the error is that of the first artifact that does not pass. */
  lemma {:induction false} VerifyEachExact(digest: Bytes -> string, staged: seq<StagedFile>)
    ensures var r := VerifyEach(digest, staged);
      && (r.Pass? <==> forall i :: 0 <= i < |staged| ==> VerifyOne(digest, staged[i]).Pass?)
      && (r.Reject? ==> exists i :: FirstBad(digest, staged, i, r.error))
      && (r.Pass? ==>
            && |r.value| == |staged|
            && forall i :: 0 <= i < |staged| ==> VerifyOne(digest, staged[i]) == Pass(r.value[i]))
  {
    if staged != [] {
      VerifyEachExact(digest, staged[1..]);
      assert forall i :: 1 <= i < |staged| ==> staged[i] == staged[1..][i - 1];
      var r := VerifyEach(digest, staged);
      if r.Pass? {
        var rest := VerifyEach(digest, staged[1..]).value;
        forall i | 0 <= i < |staged| ensures VerifyOne(digest, staged[i]) == Pass(r.value[i]) {
          if i > 0 { assert r.value[i] == rest[i - 1]; }
        }
      } else if VerifyOne(digest, staged[0]).Pass? {
        var j: nat :| FirstBad(digest, staged[1..], j, r.error);
        assert FirstBad(digest, staged, j + 1, r.error);
      } else {
        assert FirstBad(digest, staged, 0, r.error);
      }
    }
  }

  lemma VerifiedMeansPinned(digest: Bytes -> string, s: StagedFile)
    ensures VerifyOne(digest, s) == Pass(Verified) <==>
      && s.artifact.kind != TRUSTED_CORE && !NoHash(s.artifact.contentHash)
      && Supported(PinOf(s.artifact.contentHash.value))
      && s.bytes.Some? && digest(s.bytes.value) == PinOf(s.artifact.contentHash.value)
  {
  }

  /** The errors of one artifact. */
  lemma VerdictExact(digest: Bytes -> string, s: StagedFile)
    ensures var r := VerifyOne(digest, s);
      var hash := s.artifact.contentHash;
      && (s.artifact.kind in {WORKFLOW_SPEC, TRUSTED_CORE} ==> (r == Reject(MissingDigest) <==> NoHash(hash)))
      && (r == Pass(OutOfBand) ==> NoHash(hash) && s.artifact.kind !in {WORKFLOW_SPEC, TRUSTED_CORE})
      && (r == Pass(DeferredTrustedCore) <==> s.artifact.kind == TRUSTED_CORE && !NoHash(hash))
      && (s.artifact.kind != TRUSTED_CORE && !NoHash(hash) ==>
            && (r == Reject(UnsupportedDigest) <==> !Supported(PinOf(hash.value)))
            && (r == Reject(DigestMismatch) <==>
                  Supported(PinOf(hash.value)) && s.bytes.Some? && digest(s.bytes.value) != PinOf(hash.value))
            && (r.Reject? || r == Pass(Verified)))
  {
  }

  /** Nothing stands against installing an artifact: a kind that must carry a digest carries one, and
      wherever a digest is over the fetched bytes it is well formed and the bytes meet it. */
  predicate Cleared(digest: Bytes -> string, s: StagedFile) {
    var hash := s.artifact.contentHash;
    && (s.artifact.kind == "workflow_spec" || s.artifact.kind == "trusted_core" ==> !NoHash(hash))
    && (s.artifact.kind != "trusted_core" && !NoHash(hash) ==>
          Supported(PinOf(hash.value)) && s.bytes.Some? && digest(s.bytes.value) == PinOf(hash.value))
  }

  /** A bundle passes exactly when it has a workflow spec and every artifact in it is cleared: no bundle
      passes that holds a stripped, malformed or unmet pin. */
  lemma NoSilentDowngrade(digest: Bytes -> string, staged: seq<StagedFile>)
    ensures VerifyBundle(digest, staged).Pass? <==>
      && (exists s :: s in staged && s.artifact.kind == "workflow_spec")
      && forall s :: s in staged ==> Cleared(digest, s)
  {
    VerifyEachExact(digest, staged);
    forall s | s in staged ensures Cleared(digest, s) <==> VerifyOne(digest, s).Pass? {
      VerdictExact(digest, s);
      VerifiedMeansPinned(digest, s);
    }
    forall i | 0 <= i < |staged| ensures Cleared(digest, staged[i]) <==> VerifyOne(digest, staged[i]).Pass? {
      assert staged[i] in staged;
    }
  }

  // ---- the store ----

  /** A verified artifact with the bytes of its staged file. */
  datatype Landing = Landing(artifact: Artifact, bytes: Bytes, status: VerifyStatus)

  type Store = map<string, Bytes>

  datatype Action = Installed | SkippedPresent
  datatype InstallError = UnknownKind | BadAssetKey | MissingPin

  const INSTALLABLE := {"workflow_spec", "role_asset", "tool_asset", "runtime", "trusted_core"}
  const ASSET_KINDS := {"role_asset", "tool_asset"}
  const ASSET_KEY_ARITY := 8

  /** Digests of file bytes, and the store path a key is hashed to. */
  datatype Hashes = Hashes(digest: Bytes -> string, path: string -> string)

  /** What is refused before anything is written. */
  function Refusal(l: Landing): Option<InstallError> {
    if l.artifact.kind !in INSTALLABLE then Some(UnknownKind)
    else if l.artifact.kind in ASSET_KINDS && |Lines.Split(l.artifact.key, '/')| != ASSET_KEY_ARITY then
      Some(BadAssetKey)
    else None
  }

  function CountOf(c: char, s: string): nat {
    if s == "" then 0 else (if s[0] == c then 1 else 0) + CountOf(c, s[1..])
  }

  lemma {:induction false} SplitCount(s: string, c: char)
    ensures |Lines.Split(s, c)| == CountOf(c, s) + 1
  {
    if s != "" {
      SplitCount(s[1..], c);
    }
  }

  /** An artifact is refused exactly when its kind is none of the five, or it is a role or tool asset
      whose key does not have eight segments. */
  lemma RefusalExact(l: Landing)
    ensures var kind := l.artifact.kind;
      && (Refusal(l) == Some(UnknownKind) <==>
            && kind != "workflow_spec" && kind != "role_asset" && kind != "tool_asset"
            && kind != "runtime" && kind != "trusted_core")
      && (Refusal(l) == Some(BadAssetKey) <==>
            (kind == "role_asset" || kind == "tool_asset") && CountOf('/', l.artifact.key) != 7)
      && Refusal(l) != Some(MissingPin)
  {
    SplitCount(l.artifact.key, '/');
  }

  datatype Outcome = Done(action: Action) | Fail(error: InstallError)

  function InstallOne(h: Hashes, store: Store, l: Landing): (Store, Outcome) {
    var target := h.path(l.artifact.key);
    if Refusal(l).Some? then (store, Fail(Refusal(l).value))
    else if target !in store then (store[target := l.bytes], Done(Installed))
    else if !l.status.Verified? then (store, Done(SkippedPresent))
    else if l.artifact.contentHash.None? || l.artifact.contentHash.value == "" then (store, Fail(MissingPin))
    else if h.digest(store[target]) == PinOf(l.artifact.contentHash.value) then (store, Done(SkippedPresent))
    else (store[target := l.bytes], Done(Installed))
  }

  /** The store as it was left, the actions taken, and the error that stopped the run, if any. */
  datatype Report = Report(store: Store, actions: seq<Action>, error: Option<InstallError>)

  function InstallAll(h: Hashes, store: Store, list: seq<Landing>): Report
    decreases |list|
  {
    if list == [] then Report(store, [], None)
    else
      var (store', o) := InstallOne(h, store, list[0]);
      match o
      case Fail(e) => Report(store', [], Some(e))
      case Done(a) => var rest := InstallAll(h, store', list[1..]); rest.(actions := [a] + rest.actions)
  }

  class DeviceStore {
    const hashes: Hashes
    var files: Store

    constructor (hashes: Hashes, files: Store)
      ensures this.hashes == hashes && this.files == files
    {
      this.hashes, this.files := hashes, files;
    }

    method Land(l: Landing) returns (o: Outcome)
      modifies this
      ensures (files, o) == InstallOne(hashes, old(files), l)
    {
      if l.artifact.kind !in INSTALLABLE {
        return Fail(UnknownKind);
      }
      if l.artifact.kind in ASSET_KINDS && |Lines.Split(l.artifact.key, '/')| != ASSET_KEY_ARITY {
        return Fail(BadAssetKey);
      }
      var target := hashes.path(l.artifact.key);
      if target in files {
        if !l.status.Verified? {
          return Done(SkippedPresent);
        }
        if l.artifact.contentHash.None? || l.artifact.contentHash.value == "" {
          return Fail(MissingPin);
        }
        if hashes.digest(files[target]) == PinOf(l.artifact.contentHash.value) {
          return Done(SkippedPresent);
        }
      }
      files := files[target := l.bytes];
      return Done(Installed);
    }

    method InstallBundle(list: seq<Landing>) returns (actions: seq<Action>, error: Option<InstallError>)
      modifies this
      ensures Report(files, actions, error) == InstallAll(hashes, old(files), list)
    {
      actions, error := [], None;
      assert list[0..] == list;
      for i := 0 to |list|
        invariant error.None?
        invariant var rest := InstallAll(hashes, files, list[i..]);
          InstallAll(hashes, old(files), list) == rest.(actions := actions + rest.actions)
      {
        assert list[i..][1..] == list[i + 1..];
        var o := Land(list[i]);
        match o {
          case Fail(e) =>
            assert actions + [] == actions;
            return actions, Some(e);
          case Done(a) =>
            ghost var rest := InstallAll(hashes, files, list[i + 1..]);
            assert actions + ([a] + rest.actions) == actions + [a] + rest.actions;
            actions := actions + [a];
        }
      }
      assert actions + [] == actions;
    }
  }

  /** The landings of a bundle that passed verification. */
  function Landings(staged: seq<StagedFile>, statuses: seq<VerifyStatus>): seq<Landing>
    requires |staged| == |statuses|
  {
    seq(|staged|, i requires 0 <= i < |staged| =>
      Landing(staged[i].artifact, if staged[i].bytes.Some? then staged[i].bytes.value else [], statuses[i]))
  }

  /** What passes verification satisfies everything the installer relies on below. */
  lemma PassedIsPinned(h: Hashes, staged: seq<StagedFile>)
    requires VerifyBundle(h.digest, staged).Pass?
    ensures var statuses := VerifyBundle(h.digest, staged).value;
      && |statuses| == |staged| && AllPinned(h, Landings(staged, statuses))
      && (forall i :: 0 <= i < |staged| ==>
            (statuses[i].Verified? <==>
              staged[i].artifact.kind != TRUSTED_CORE && !NoHash(staged[i].artifact.contentHash)))
      && exists s :: s in staged && s.artifact.kind == WORKFLOW_SPEC
  {
    VerifyEachExact(h.digest, staged);
    var statuses := VerifyBundle(h.digest, staged).value;
    var list := Landings(staged, statuses);
    forall l | l in list ensures Pinned(h, l) {
      var i :| 0 <= i < |list| && list[i] == l;
      VerifiedMeansPinned(h.digest, staged[i]);
    }
    forall i | 0 <= i < |staged|
      ensures statuses[i].Verified? <==>
        staged[i].artifact.kind != TRUSTED_CORE && !NoHash(staged[i].artifact.contentHash)
    {
      VerdictExact(h.digest, staged[i]);
    }
    NoSilentDowngrade(h.digest, staged);
  }

  // ---- what one path ends up with ----

  /** What verification established of every landing marked `Verified`. */
  predicate Pinned(h: Hashes, l: Landing) {
    l.status.Verified? ==>
      && !NoHash(l.artifact.contentHash)
      && h.digest(l.bytes) == PinOf(l.artifact.contentHash.value)
  }

  ghost predicate AllPinned(h: Hashes, list: seq<Landing>) {
    forall l :: l in list ==> Pinned(h, l)
  }

  function At(store: Store, path: string): Option<Bytes> {
    if path in store then Some(store[path]) else None
  }

  /** One landing seen from one path, without looking at digests: a verified artifact's bytes end up
      there; any other artifact's do if there was nothing. */
  function Lands(h: Hashes, before: Option<Bytes>, l: Landing, path: string): Option<Bytes> {
    if h.path(l.artifact.key) != path then before
    else if l.status.Verified? || before.None? then Some(l.bytes)
    else before
  }

  function LandsAll(h: Hashes, before: Option<Bytes>, list: seq<Landing>, path: string): Option<Bytes> {
    if list == [] then before
    else Lands(h, LandsAll(h, before, list[..|list| - 1], path), list[|list| - 1], path)
  }

  /** The landings before the first one that is refused. */
  function Accepted(list: seq<Landing>): seq<Landing> {
    if list == [] || Refusal(list[0]).Some? then [] else [list[0]] + Accepted(list[1..])
  }

  lemma InstallOneLands(h: Hashes, store: Store, l: Landing)
    requires Injective(h.digest) && Pinned(h, l)
    ensures var (store', o) := InstallOne(h, store, l);
      && (o.Fail? <==> Refusal(l).Some?)
      && (o.Fail? ==> (o.error.UnknownKind? <==> l.artifact.kind !in INSTALLABLE))
      && (o == Done(Installed) <==> store' != store)
      && forall path :: At(store', path) ==
           if Refusal(l).Some? then At(store, path) else Lands(h, At(store, path), l, path)
  {
    assert Text.Strip("") == "";
  }

  lemma {:induction false} LandsFront(h: Hashes, before: Option<Bytes>, l: Landing, list: seq<Landing>, path: string)
    ensures LandsAll(h, before, [l] + list, path) == LandsAll(h, Lands(h, before, l, path), list, path)
  {
    if list == [] {
      assert [l] + list == [l] && [l][..0] == [];
    } else {
      assert ([l] + list)[..|list|] == [l] + list[..|list| - 1];
      LandsFront(h, before, l, list[..|list| - 1], path);
    }
  }

  /** An installer run leaves at each path what the landings before the first refusal put there. */
  lemma {:induction false} InstallLands(h: Hashes, store: Store, list: seq<Landing>)
    requires Injective(h.digest) && AllPinned(h, list)
    ensures forall path ::
      At(InstallAll(h, store, list).store, path) == LandsAll(h, At(store, path), Accepted(list), path)
    ensures InstallAll(h, store, list).error.None? <==> |Accepted(list)| == |list|
    ensures |InstallAll(h, store, list).actions| == |Accepted(list)|
    decreases |list|
  {
    if list != [] {
      var l := list[0];
      assert l in list;
      InstallOneLands(h, store, l);
      if Refusal(l).None? {
        var store' := InstallOne(h, store, l).0;
        assert forall x :: x in list[1..] ==> x in list;
        InstallLands(h, store', list[1..]);
        forall path
          ensures At(InstallAll(h, store, list).store, path) == LandsAll(h, At(store, path), Accepted(list), path)
        {
          LandsFront(h, At(store, path), l, Accepted(list[1..]), path);
        }
      }
    }
  }

  lemma SameStore(a: Store, b: Store)
    requires forall path :: At(a, path) == At(b, path)
    ensures a == b
  {
    forall path ensures path in a <==> path in b {
      assert At(a, path) == At(b, path);
    }
    forall path | path in a ensures a[path] == b[path] {
      assert At(a, path) == At(b, path);
    }
  }

  predicate HasVerified(h: Hashes, list: seq<Landing>, path: string) {
    exists i | 0 <= i < |list| :: list[i].status.Verified? && h.path(list[i].artifact.key) == path
  }

  /** With a verified landing at the path, what was there before does not matter; without, whatever
      was there stays. */
  lemma {:induction false} LandsForm(h: Hashes, x: Option<Bytes>, y: Option<Bytes>, list: seq<Landing>, path: string)
    ensures HasVerified(h, list, path) ==> LandsAll(h, x, list, path) == LandsAll(h, y, list, path)
    ensures !HasVerified(h, list, path) && x.Some? ==> LandsAll(h, x, list, path) == x
  {
    if list != [] {
      var most, last := list[..|list| - 1], list[|list| - 1];
      LandsForm(h, x, y, most, path);
      if HasVerified(h, most, path) {
        var i :| 0 <= i < |most| && most[i].status.Verified? && h.path(most[i].artifact.key) == path;
        assert list[i] == most[i];
      }
    }
  }

  lemma {:induction false} LandsConcat(h: Hashes, x: Option<Bytes>, a: seq<Landing>, b: seq<Landing>, path: string)
    ensures LandsAll(h, x, a + b, path) == LandsAll(h, LandsAll(h, x, a, path), b, path)
  {
    if b == [] {
      assert a + b == a;
    } else {
      assert (a + b)[..|a + b| - 1] == a + b[..|b| - 1];
      LandsConcat(h, x, a, b[..|b| - 1], path);
    }
  }

  lemma LandsAgain(h: Hashes, x: Option<Bytes>, a: seq<Landing>, b: seq<Landing>, path: string)
    ensures LandsAll(h, LandsAll(h, x, a, path), a + b, path) == LandsAll(h, x, a + b, path)
  {
    var y := LandsAll(h, x, a, path);
    LandsForm(h, x, y, a + b, path);
    LandsForm(h, y, x, a + b, path);
    VerifiedInEither(h, a, b, path);
    if !HasVerified(h, a + b, path) {
      LandsForm(h, x, x, a, path);
      LandsConcat(h, x, a, b, path);
      LandsForm(h, y, y, b, path);
      LandsNothing(h, x, a, path);
    }
  }

  lemma VerifiedInEither(h: Hashes, a: seq<Landing>, b: seq<Landing>, path: string)
    ensures HasVerified(h, a + b, path) <==> HasVerified(h, a, path) || HasVerified(h, b, path)
  {
    if HasVerified(h, a, path) {
      var i :| 0 <= i < |a| && a[i].status.Verified? && h.path(a[i].artifact.key) == path;
      assert (a + b)[i] == a[i];
    }
    if HasVerified(h, b, path) {
      var i :| 0 <= i < |b| && b[i].status.Verified? && h.path(b[i].artifact.key) == path;
      assert (a + b)[|a| + i] == b[i];
    }
  }

  lemma {:induction false} LandsNothing(h: Hashes, x: Option<Bytes>, list: seq<Landing>, path: string)
    ensures LandsAll(h, x, list, path).None? ==> x.None?
  {
    if list != [] {
      LandsNothing(h, x, list[..|list| - 1], path);
    }
  }

  lemma {:induction false} AcceptedPrefix(list: seq<Landing>, n: nat)
    requires n <= |list|
    ensures Accepted(list[..n]) <= Accepted(list)
    ensures Accepted(list) <= list
  {
    if list != [] && Refusal(list[0]).None? {
      AcceptedPrefix(list[1..], if n == 0 then 0 else n - 1);
      if n > 0 {
        assert list[..n][1..] == list[1..][..n - 1];
      }
    }
  }

  /** An install stopped after any number of artifacts and then run in full from fresh staging of the
      same bytes leaves the store of one clean install, and ends the same way. */
  lemma InstallConverges(h: Hashes, store: Store, list: seq<Landing>, n: nat)
    requires Injective(h.digest) && AllPinned(h, list) && n <= |list|
    ensures var stopped := InstallAll(h, store, list[..n]).store;
      && InstallAll(h, stopped, list).store == InstallAll(h, store, list).store
      && (InstallAll(h, stopped, list).error.None? <==> InstallAll(h, store, list).error.None?)
  {
    assert forall l :: l in list[..n] ==> l in list;
    var stopped := InstallAll(h, store, list[..n]).store;
    InstallLands(h, store, list[..n]);
    InstallLands(h, stopped, list);
    InstallLands(h, store, list);
    AcceptedPrefix(list, n);
    var a, all := Accepted(list[..n]), Accepted(list);
    assert all == a + all[|a|..];
    forall path
      ensures At(InstallAll(h, stopped, list).store, path) == At(InstallAll(h, store, list).store, path)
    {
      LandsAgain(h, At(store, path), a, all[|a|..], path);
    }
    SameStore(InstallAll(h, stopped, list).store, InstallAll(h, store, list).store);
  }

  /** A further install changes nothing. */
  lemma InstallTwice(h: Hashes, store: Store, list: seq<Landing>)
    requires Injective(h.digest) && AllPinned(h, list)
    ensures InstallAll(h, InstallAll(h, store, list).store, list).store == InstallAll(h, store, list).store
  {
    assert list[..|list|] == list;
    InstallConverges(h, store, list, |list|);
  }

  /** A verified artifact for the same path. */
  predicate Rival(h: Hashes, list: seq<Landing>, i: nat, j: nat)
    requires i < |list| && j < |list|
  {
    list[j].status.Verified? && h.path(list[j].artifact.key) == h.path(list[i].artifact.key)
  }

  /** The last verified artifact for the path of artifact `i`, among the first `n`. */
  function LastRival(h: Hashes, list: seq<Landing>, i: nat, n: nat): (j: nat)
    requires i < n <= |list|
    ensures i <= j < n
  {
    if n - 1 == i || Rival(h, list, i, n - 1) then n - 1 else LastRival(h, list, i, n - 1)
  }

  function PinAt(list: seq<Landing>, i: nat): string
    requires i < |list|
  {
    if list[i].artifact.contentHash.Some? then PinOf(list[i].artifact.contentHash.value) else ""
  }

  /** After a complete install, the stored bytes at the path of a verified artifact hash to the pin of
      the last verified artifact for that path: its own pin, unless a later one has another. */
  lemma PinsHold(h: Hashes, store: Store, list: seq<Landing>, i: nat)
    requires Injective(h.digest) && AllPinned(h, list)
    requires InstallAll(h, store, list).error.None?
    requires i < |list| && list[i].status.Verified?
    ensures var path := h.path(list[i].artifact.key);
      var end := InstallAll(h, store, list).store;
      path in end && h.digest(end[path]) == PinAt(list, LastRival(h, list, i, |list|))
  {
    InstallLands(h, store, list);
    AcceptedPrefix(list, 0);
    assert Accepted(list) == list;
    var path := h.path(list[i].artifact.key);
    LastPinned(h, At(store, path), list, i, |list|);
    assert list[..|list|] == list;
    assert At(InstallAll(h, store, list).store, path) == LandsAll(h, At(store, path), list, path);
  }

  lemma {:induction false} LastPinned(h: Hashes, before: Option<Bytes>, list: seq<Landing>, i: nat, n: nat)
    requires AllPinned(h, list) && i < n <= |list| && list[i].status.Verified?
    ensures var r := LandsAll(h, before, list[..n], h.path(list[i].artifact.key));
      r.Some? && h.digest(r.value) == PinAt(list, LastRival(h, list, i, n))
    decreases n
  {
    assert list[..n][..n - 1] == list[..n - 1];
    assert list[n - 1] in list;
    if i < n - 1 {
      LastPinned(h, before, list, i, n - 1);
    }
  }
}
