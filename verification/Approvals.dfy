/** One-time approvals: the signed payload, the replay identity, and the checks before and at the claim. */

module Approvals {
  import opened Outcomes
  import opened Text
  import opened Json
  import opened JsonProofs
  import opened JsonExact
  import opened Package

  // ---------------------------------------------------------------- contracts

  /** What `_public_authority` keeps of the pinned Approval Authority. */
  datatype Authority = Authority(
    identity: Text, namespace: Text, fingerprint: Text, signersPath: Text, signersSha256: Text, entrySha256: Text,
    keygenPath: Text, keygenSha256: Text, replayDirectory: Text)

  datatype Approval = Approval(
    executionId: Text, commitShas: map<Text, Text>, nonce: Text, issuedAt: Text, expiresAt: Text,
    replayDirectory: Text, signature: Text)

  /** Everything an approval binds. */
  datatype Contract = Contract(
    authority: Authority, executionId: Text, commitShas: map<Text, Text>, nonce: Text, issuedAt: Text,
    expiresAt: Text, replayDirectory: Text, operation: Text, target: Text, binding: Json)

  function AuthorityValue(a: Authority): Json {
    JObject(map[
      S("schema_version") := JInt(1), S("identity") := JString(a.identity), S("namespace") := JString(a.namespace),
      S("fingerprint") := JString(a.fingerprint), S("allowed_signers_path") := JString(a.signersPath),
      S("allowed_signers_sha256") := JString(a.signersSha256),
      S("allowed_signers_entry_sha256") := JString(a.entrySha256), S("ssh_keygen_path") := JString(a.keygenPath),
      S("ssh_keygen_sha256") := JString(a.keygenSha256), S("replay_directory") := JString(a.replayDirectory)])
  }

  function ShasValue(shas: map<Text, Text>): Json { JObject(map repository | repository in shas :: JString(shas[repository])) }

  /** `_approval_payload` */
  function Payload(c: Contract): Json {
    JObject(map[
      S("schema_version") := JInt(1), S("authority") := AuthorityValue(c.authority),
      S("execution_id") := JString(c.executionId), S("commit_shas") := ShasValue(c.commitShas),
      S("nonce") := JString(c.nonce), S("issued_at") := JString(c.issuedAt), S("expires_at") := JString(c.expiresAt),
      S("replay_directory") := JString(c.replayDirectory), S("operation") := JString(c.operation),
      S("target") := JString(c.target), S("binding") := c.binding])
  }

  lemma AuthorityNames(a: Authority)
    ensures Field(AuthorityValue(a), "identity") == Some(JString(a.identity))
    ensures Field(AuthorityValue(a), "namespace") == Some(JString(a.namespace))
    ensures Field(AuthorityValue(a), "fingerprint") == Some(JString(a.fingerprint))
    ensures Field(AuthorityValue(a), "replay_directory") == Some(JString(a.replayDirectory))
  {
  }

  lemma AuthoritySigners(a: Authority)
    ensures Field(AuthorityValue(a), "allowed_signers_path") == Some(JString(a.signersPath))
    ensures Field(AuthorityValue(a), "allowed_signers_sha256") == Some(JString(a.signersSha256))
    ensures Field(AuthorityValue(a), "allowed_signers_entry_sha256") == Some(JString(a.entrySha256))
  {
  }

  lemma AuthorityKeygen(a: Authority)
    ensures Field(AuthorityValue(a), "ssh_keygen_path") == Some(JString(a.keygenPath))
    ensures Field(AuthorityValue(a), "ssh_keygen_sha256") == Some(JString(a.keygenSha256))
  {
  }

  lemma SameAuthorities(a: Authority, b: Authority)
    requires AuthorityValue(a) == AuthorityValue(b)
    ensures a == b
  {
    AuthorityNames(a);
    AuthorityNames(b);
    AuthoritySigners(a);
    AuthoritySigners(b);
    AuthorityKeygen(a);
    AuthorityKeygen(b);
  }

  lemma SameShas(a: map<Text, Text>, b: map<Text, Text>)
    requires ShasValue(a) == ShasValue(b)
    ensures a == b
  {
    assert a.Keys == ShasValue(a).fields.Keys == ShasValue(b).fields.Keys == b.Keys;
    forall k | k in a ensures a[k] == b[k] {
      assert ShasValue(a).fields[k] == ShasValue(b).fields[k];
    }
  }

  lemma PayloadParts(c: Contract)
    ensures Field(Payload(c), "authority") == Some(AuthorityValue(c.authority))
    ensures Field(Payload(c), "commit_shas") == Some(ShasValue(c.commitShas))
    ensures Field(Payload(c), "binding") == Some(c.binding)
  {
    assert S("authority")[0] == 97 && S("issued_at")[0] == 105 && S("operation")[0] == 111;
  }

  lemma PayloadTexts(c: Contract)
    ensures Field(Payload(c), "execution_id") == Some(JString(c.executionId))
    ensures Field(Payload(c), "nonce") == Some(JString(c.nonce))
    ensures Field(Payload(c), "issued_at") == Some(JString(c.issuedAt))
    ensures Field(Payload(c), "expires_at") == Some(JString(c.expiresAt))
  {
    assert S("issued_at")[0] == 105 && S("operation")[0] == 111;
  }

  lemma PayloadPlaces(c: Contract)
    ensures Field(Payload(c), "replay_directory") == Some(JString(c.replayDirectory))
    ensures Field(Payload(c), "operation") == Some(JString(c.operation))
    ensures Field(Payload(c), "target") == Some(JString(c.target))
  {
  }

  lemma SamePayloads(c: Contract, d: Contract)
    requires Payload(c) == Payload(d)
    ensures c == d
  {
    PayloadParts(c);
    PayloadParts(d);
    SameAuthorities(c.authority, d.authority);
    SameShas(c.commitShas, d.commitShas);
    PayloadTexts(c);
    PayloadTexts(d);
    PayloadPlaces(c);
    PayloadPlaces(d);
  }

  // ---------------------------------------------------------------- identity

  /** The names one approval may be used under, once. */
  datatype Identity = Identity(identity: Text, namespace: Text, fingerprint: Text, executionId: Text, nonce: Text)

  function IdentityOf(a: Authority, approval: Approval): Identity {
    Identity(a.identity, a.namespace, a.fingerprint, approval.executionId, approval.nonce)
  }

  function IdentityValue(i: Identity): Json {
    JObject(map[
      S("schema_version") := JInt(1), S("authority_identity") := JString(i.identity),
      S("authority_namespace") := JString(i.namespace), S("authority_fingerprint") := JString(i.fingerprint),
      S("execution_id") := JString(i.executionId), S("nonce") := JString(i.nonce)])
  }

  function ReplayDigest(hash: Digest, i: Identity): Text { hash(Canonical(IdentityValue(i))) }

  lemma SameIdentities(i: Identity, j: Identity)
    requires IdentityValue(i) == IdentityValue(j)
    ensures i == j
  {
    var v, w := IdentityValue(i).fields, IdentityValue(j).fields;
    assert v[S("authority_identity")] == w[S("authority_identity")];
    assert v[S("authority_namespace")] == w[S("authority_namespace")];
    assert v[S("authority_fingerprint")] == w[S("authority_fingerprint")];
    assert v[S("execution_id")] == w[S("execution_id")] && v[S("nonce")] == w[S("nonce")];
  }

  // -------------------------------------------------------------- normalizing

  /** Times are microseconds; a calendar reads a timestamp, or refuses it. */
  type Calendar = Text -> Option<int>

  /** Whether ssh-keygen accepts a signature over a payload for the pinned authority. */
  type Verifier = (Authority, Text, Bytes) -> bool

  const SECOND := 1_000_000
  const MAX_LIFETIME := 900 * SECOND
  const MAX_SKEW := 60 * SECOND
  const NAMESPACE: Text := S("lit-onepassword-approval-v1")

  predicate Named(t: Text, others: set<CodePoint>, most: nat) {
    1 <= |t| <= most && Alphanumeric(t[0]) && forall i :: 0 <= i < |t| ==> Alphanumeric(t[i]) || t[i] in others
  }

  predicate ExecutionId(t: Text) { Named(t, {46, 95, 58, 45}, 128) }
  predicate AuthorityName(t: Text) { Named(t, {46, 95, 64, 43, 45}, 128) }
  predicate Repository(t: Text) { Named(t, {46, 95, 47, 45}, 128) }
  predicate GitSha(t: Text) { Hex(t, 40) || Hex(t, 64) }

  /** `SHA256:` and 43 characters of the Base64 alphabet */
  predicate Fingerprint(t: Text) {
    && |t| == 50 && S("SHA256:") <= t
    && forall i :: 7 <= i < 50 ==> Alphanumeric(t[i]) || t[i] == 43 || t[i] == 47
  }

  predicate ValidAuthority(a: Authority) {
    && AuthorityName(a.identity) && a.namespace == NAMESPACE && Fingerprint(a.fingerprint)
    && Hex(a.signersSha256, 64) && Hex(a.keygenSha256, 64) && Hex(a.entrySha256, 64)
  }

  predicate ValidApproval(calendar: Calendar, a: Approval) {
    && ExecutionId(a.executionId)
    && 1 <= |a.commitShas| <= 32
    && (forall repository :: repository in a.commitShas ==> Repository(repository) && GitSha(a.commitShas[repository]))
    && Hex(a.nonce, 64)
    && calendar(a.issuedAt).Some? && calendar(a.expiresAt).Some?
    && 0 < calendar(a.expiresAt).value - calendar(a.issuedAt).value <= MAX_LIFETIME
    && a.signature != [] && AllAscii(a.signature) && |a.signature| <= 16384
  }

  /** `_canonical_json_value` accepts it: no floats, and no empty keys. */
  predicate Bindable(v: Json)
    decreases v
  {
    match v
    case JFloat(_) => false
    case JList(items) => forall i :: 0 <= i < |items| ==> Bindable(items[i])
    case JObject(fields) => forall key :: key in fields ==> key != [] && Bindable(fields[key])
    case _ => true
  }

  /** Neither expired, nor issued more than the tolerated skew ahead. */
  predicate InWindow(calendar: Calendar, issuedAt: Text, expiresAt: Text, now: int)
    requires calendar(issuedAt).Some? && calendar(expiresAt).Some?
  {
    calendar(issuedAt).value - now <= MAX_SKEW && now < calendar(expiresAt).value
  }

  function ContractOf(a: Authority, approval: Approval, operation: Text, target: Text, binding: Json): Contract {
    Contract(a, approval.executionId, approval.commitShas, approval.nonce, approval.issuedAt, approval.expiresAt,
             approval.replayDirectory, operation, target, binding)
  }

  /** A directory as the device and inode numbers identify it. */
  type Directory = nat

  /** What `normalize_approval` returns. */
  datatype Pending = Pending(
    issuedAt: Text, expiresAt: Text, approvalDigest: Text, replayDigest: Text, directory: Directory)

  type Marker = (Directory, Text)

  /** `normalize_approval`, for an approval whose replay directory is directory. */
  function Normalize(hash: Digest, calendar: Calendar, verify: Verifier, approval: Approval, a: Authority,
                     operation: Text, target: Text, binding: Json,
                     now: int, directory: Directory, markers: set<Marker>): Result<Pending> {
    if !ValidApproval(calendar, approval) || !ValidAuthority(a) || approval.replayDirectory != a.replayDirectory
      || operation == [] || target == [] || !InWindow(calendar, approval.issuedAt, approval.expiresAt, now)
      || !Bindable(binding) then Raised
    else
      var payload := Canonical(Payload(ContractOf(a, approval, operation, target, binding)));
      var replayDigest := ReplayDigest(hash, IdentityOf(a, approval));
      if !verify(a, approval.signature, payload) || (directory, replayDigest) in markers then Raised
      else Ok(Pending(approval.issuedAt, approval.expiresAt, hash(payload), replayDigest, directory))
  }

  // ------------------------------------------------------------- main results

  /** A contract as `normalize_approval` binds it, without split surrogate pairs in its texts. */
  predicate WholeContract(c: Contract) { Bindable(c.binding) && WholeValue(Payload(c)) }

  lemma {:induction false} BindableIsPrintable(v: Json)
    requires Bindable(v)
    ensures Printable(v)
    decreases v
  {
    match v
    case JList(items) =>
      forall i | 0 <= i < |items| ensures Printable(items[i]) { BindableIsPrintable(items[i]); }
    case JObject(fields) =>
      forall key | key in fields ensures Printable(fields[key]) { BindableIsPrintable(fields[key]); }
    case _ =>
  }

  lemma ShasArePrintable(shas: map<Text, Text>)
    ensures Printable(ShasValue(shas))
  {
    forall key | key in shas ensures Printable(ShasValue(shas).fields[key]) {
      assert ShasValue(shas).fields[key] == JString(shas[key]);
    }
  }

  lemma AuthorityIsPrintable(a: Authority)
    ensures Printable(AuthorityValue(a))
  {
  }

  lemma PayloadIsPrintable(c: Contract)
    requires Bindable(c.binding)
    ensures Printable(Payload(c))
  {
    BindableIsPrintable(c.binding);
    ShasArePrintable(c.commitShas);
    AuthorityIsPrintable(c.authority);
  }

  /** Contracts as JSON delivers them, alike when their payloads are. */
  predicate DeliveredAlike(c: Contract, d: Contract) { JoinedValue(Payload(c)) == JoinedValue(Payload(d)) }

  /** An authority that signs the bytes of one contract signs no other contract: exactly what JSON delivers alike. */
  lemma EqualBytesEqualContracts(c: Contract, d: Contract)
    requires Bindable(c.binding) && Bindable(d.binding) && WholeKeys(Payload(c)) && WholeKeys(Payload(d))
    ensures Canonical(Payload(c)) == Canonical(Payload(d)) <==> DeliveredAlike(c, d)
    ensures WholeContract(c) && WholeContract(d) ==> (DeliveredAlike(c, d) <==> c == d)
  {
    PayloadIsPrintable(c);
    PayloadIsPrintable(d);
    PrintedAlikeExactly(Payload(c), Payload(d));
    if WholeContract(c) && WholeContract(d) && DeliveredAlike(c, d) { WholeDelivered(c, d); }
  }

  lemma WholeDelivered(c: Contract, d: Contract)
    requires WholeContract(c) && WholeContract(d) && DeliveredAlike(c, d)
    ensures c == d
  {
    WholeValueIsJoined(Payload(c));
    WholeValueIsJoined(Payload(d));
    SamePayloads(c, d);
  }

  predicate PlainIdentity(i: Identity) {
    AllAscii(i.identity) && AllAscii(i.namespace) && AllAscii(i.fingerprint) && AllAscii(i.executionId) && AllAscii(i.nonce)
  }

  lemma ValidIdentityIsPlain(calendar: Calendar, a: Authority, approval: Approval)
    requires ValidApproval(calendar, approval) && ValidAuthority(a)
    ensures PlainIdentity(IdentityOf(a, approval))
  {
    assert forall i :: 0 <= i < 7 ==> a.fingerprint[i] == S("SHA256:")[i];
  }

  lemma PlainIdentityIsWhole(i: Identity)
    requires PlainIdentity(i)
    ensures Printable(IdentityValue(i)) && WholeValue(IdentityValue(i))
  {
    AsciiIsWhole(i.identity);
    AsciiIsWhole(i.namespace);
    AsciiIsWhole(i.fingerprint);
    AsciiIsWhole(i.executionId);
    AsciiIsWhole(i.nonce);
    forall key | key in IdentityValue(i).fields ensures Whole(key) { AsciiIsWhole(key); }
  }

  /** No collision between these identities' payloads. */
  predicate NoIdentityCollision(hash: Digest, i: Identity, j: Identity) {
    ReplayDigest(hash, i) == ReplayDigest(hash, j) ==> Canonical(IdentityValue(i)) == Canonical(IdentityValue(j))
  }

  /** Approvals compete for one marker exactly when they have one identity, whatever else they bind. */
  lemma MarkerIsIdentity(hash: Digest, i: Identity, j: Identity)
    requires PlainIdentity(i) && PlainIdentity(j) && NoIdentityCollision(hash, i, j)
    ensures ReplayDigest(hash, i) == ReplayDigest(hash, j) <==> i == j
  {
    if ReplayDigest(hash, i) == ReplayDigest(hash, j) {
      PlainIdentityIsWhole(i);
      PlainIdentityIsWhole(j);
      CanonicalIsInjective(IdentityValue(i), IdentityValue(j));
      SameIdentities(i, j);
    }
  }
}
